/**
 * `formatTime` of the Index page: each counter is turned into its decimal
 * text (JavaScript `Number.prototype.toString` on an integer) and padded on
 * the left with '0' to width 2 (`String.prototype.padStart(2, '0')`); the
 * two fields are joined by ':'.
 *
 * `ParseTime` reads such a text back; it is the inverse used to state what
 * `FormatTime` produces.
 */
module Formatting {
  import opened Wrappers

  predicate IsDigit(c: char) {
    '0' <= c <= '9'
  }

  predicate AllDigits(s: string) {
    forall i :: 0 <= i < |s| ==> IsDigit(s[i])
  }

  function DigitValue(c: char): (d: nat)
    requires IsDigit(c)
    ensures d < 10
  {
    c as int - '0' as int
  }

  function DigitChar(d: nat): (c: char)
    requires d < 10
    ensures IsDigit(c) && DigitValue(c) == d
  {
    ('0' as int + d) as char
  }

  /** Decimal text of a non-negative integer: digits only, no leading zero. */
  function NatToString(n: nat): (s: string)
    ensures |s| >= 1 && AllDigits(s)
    ensures |s| > 1 ==> s[0] != '0'
    ensures |s| == 1 <==> n < 10
    decreases n
  {
    if n < 10 then [DigitChar(n)] else NatToString(n / 10) + [DigitChar(n % 10)]
  }

  /** Decimal text of an integer; a negative one is "-" followed by the digits of its magnitude. */
  function IntToString(n: int): (s: string)
    ensures |s| >= 1
    ensures s[0] == '-' <==> n < 0
    ensures n >= 0 ==> AllDigits(s)
  {
    if n < 0 then "-" + NatToString(-n) else NatToString(n)
  }

  /** After the sign, the text of a negative integer is the decimal of its magnitude. */
  lemma NegativeToString(n: int)
    requires n < 0
    ensures AllDigits(IntToString(n)[1..]) && ParseDecimal(IntToString(n)[1..]) == -n
  {
    ParseNatToString(-n);
    assert IntToString(n)[1..] == NatToString(-n);
  }

  /** `s.padStart(width, fill)` for a one-character fill string. */
  function PadStart(s: string, width: nat, fill: char): (r: string)
    ensures |r| == if |s| >= width then |s| else width
    ensures r[|r| - |s|..] == s
    ensures forall i :: 0 <= i < |r| - |s| ==> r[i] == fill
  {
    if |s| >= width then s else seq(width - |s|, _ => fill) + s
  }

  /** `formatTime(mins, secs)`. */
  function FormatTime(mins: int, secs: int): string
  {
    PadStart(IntToString(mins), 2, '0') + ":" + PadStart(IntToString(secs), 2, '0')
  }

  /** Value of a string of decimal digits (the empty string reads as 0). */
  function ParseDecimal(s: string): nat
    requires AllDigits(s)
  {
    if s == [] then 0 else ParseDecimal(s[..|s| - 1]) * 10 + DigitValue(s[|s| - 1])
  }

  /** Index of the first occurrence of `c` in `t`, or |t| when there is none. */
  function FirstIndexOf(t: string, c: char): (i: nat)
    ensures i <= |t|
    ensures i < |t| ==> t[i] == c
    ensures forall j :: 0 <= j < i ==> t[j] != c
  {
    if t == [] then 0 else if t[0] == c then 0 else 1 + FirstIndexOf(t[1..], c)
  }

  /**
   * Reads "M:S" where M and S are non-empty runs of decimal digits;
   * anything else is None.
   */
  function ParseTime(t: string): Option<(nat, nat)>
  {
    var i := FirstIndexOf(t, ':');
    if 0 < i < |t| - 1 && AllDigits(t[..i]) && AllDigits(t[i + 1..])
    then Some((ParseDecimal(t[..i]), ParseDecimal(t[i + 1..])))
    else None
  }

  lemma {:induction false} ParseNatToString(n: nat)
    ensures ParseDecimal(NatToString(n)) == n
    decreases n
  {
    if n >= 10 {
      ParseNatToString(n / 10);
      var s := NatToString(n);
      assert s[..|s| - 1] == NatToString(n / 10);
    }
  }

  /** Leading zeros do not change the value of a digit string. */
  lemma {:induction false} ParseLeadingZero(s: string)
    requires AllDigits(s)
    ensures AllDigits("0" + s) && ParseDecimal("0" + s) == ParseDecimal(s)
    decreases |s|
  {
    var z := "0" + s;
    if s != [] {
      var p := s[..|s| - 1];
      ParseLeadingZero(p);
      assert z[..|z| - 1] == "0" + p;
    } else {
      assert z[..|z| - 1] == [];
    }
  }

  /** A padded non-negative field reads back as the number it came from. */
  lemma PaddedField(n: nat)
    ensures AllDigits(PadStart(IntToString(n), 2, '0'))
    ensures |PadStart(IntToString(n), 2, '0')| >= 2
    ensures ParseDecimal(PadStart(IntToString(n), 2, '0')) == n
  {
    var s := NatToString(n);
    ParseNatToString(n);
    if |s| < 2 {
      assert PadStart(s, 2, '0') == "0" + s;
      ParseLeadingZero(s);
    }
  }

  /** A field below 100 is exactly its two decimal digits. */
  lemma TwoDigitField(n: nat)
    requires n < 100
    ensures PadStart(IntToString(n), 2, '0') == [DigitChar(n / 10), DigitChar(n % 10)]
  {
    if n >= 10 {
      assert NatToString(n) == NatToString(n / 10) + [DigitChar(n % 10)];
    }
  }

  lemma FirstColon(a: string, b: string)
    requires AllDigits(a)
    ensures FirstIndexOf(a + ":" + b, ':') == |a|
  {
    var t := a + ":" + b;
    assert forall j :: 0 <= j < |a| ==> t[j] == a[j];
    assert t[|a|] == ':';
  }

  /** Two non-empty digit runs joined by ':' read back as their two values. */
  lemma ParseTimeSplit(a: string, b: string)
    requires AllDigits(a) && AllDigits(b) && |a| > 0 && |b| > 0
    ensures ParseTime(a + ":" + b) == Some((ParseDecimal(a), ParseDecimal(b)))
  {
    var t := a + ":" + b;
    FirstColon(a, b);
    assert t[..|a|] == a;
    assert t[|a| + 1..] == b;
    assert 0 < |a| < |t| - 1;
  }

  /** `formatTime` on non-negative counters is read back by ParseTime: nothing is lost. */
  lemma FormatTimeRoundTrip(mins: nat, secs: nat)
    ensures ParseTime(FormatTime(mins, secs)) == Some((mins, secs))
  {
    var a := PadStart(IntToString(mins), 2, '0');
    var b := PadStart(IntToString(secs), 2, '0');
    PaddedField(mins);
    PaddedField(secs);
    ParseTimeSplit(a, b);
    assert FormatTime(mins, secs) == a + ":" + b;
  }

  /** Counters below 100 give the five characters "MM:SS", each field zero-padded. */
  lemma FormatTimeShape(mins: nat, secs: nat)
    requires mins < 100 && secs < 100
    ensures FormatTime(mins, secs) ==
      [DigitChar(mins / 10), DigitChar(mins % 10), ':', DigitChar(secs / 10), DigitChar(secs % 10)]
  {
    var a := PadStart(IntToString(mins), 2, '0');
    var b := PadStart(IntToString(secs), 2, '0');
    assert FormatTime(mins, secs) == a + ":" + b;
    TwoDigitField(mins);
    TwoDigitField(secs);
    var m1, m0, s1, s0 := DigitChar(mins / 10), DigitChar(mins % 10), DigitChar(secs / 10), DigitChar(secs % 10);
    assert a == [m1, m0] && b == [s1, s0];
    JoinFields(m1, m0, s1, s0);
  }

  lemma JoinFields(m1: char, m0: char, s1: char, s0: char)
    ensures [m1, m0] + ":" + [s1, s0] == [m1, m0, ':', s1, s0]
  {
  }

  /** A negative counter is printed with its sign and is not padded past it. */
  lemma FormatTimeNegativeMinutes(mins: int, secs: nat)
    requires -10 < mins < 0
    ensures FormatTime(mins, secs) == ['-', DigitChar(-mins)] + ":" + PadStart(IntToString(secs), 2, '0')
  {
  }

  lemma FormatTimeExamples()
    ensures FormatTime(9, 59) == "09:59"
    ensures FormatTime(0, 59) == "00:59"
    ensures FormatTime(8, 59) == "08:59"
  {
    assert FormatTime(9, 59) == "09:59" by {
      FormatTimeShape(9, 59);
      assert DigitChar(0) == '0' && DigitChar(9) == '9' && DigitChar(5) == '5';
    }
    assert FormatTime(0, 59) == "00:59" by {
      FormatTimeShape(0, 59);
      assert DigitChar(0) == '0' && DigitChar(9) == '9' && DigitChar(5) == '5';
    }
    assert FormatTime(8, 59) == "08:59" by {
      FormatTimeShape(8, 59);
      assert DigitChar(0) == '0' && DigitChar(8) == '8' && DigitChar(9) == '9' && DigitChar(5) == '5';
    }
  }
}
