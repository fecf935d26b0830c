/**
 * The meditation countdown of the Index page: the counters `meditationTimer`
 * (minutes) and `meditationSeconds`, and the flag `isPlaying`.
 *
 * The interval callback is an abstract `Tick`; the effect schedules it only
 * while `Scheduled` holds. `Timer` is the value of the three state cells and
 * the functions on it are the specification of the class `MeditationTimer`,
 * whose methods are the component's handlers.
 */
module Meditation {

  datatype Timer = Timer(minutes: int, seconds: int, playing: bool)

  /** The state created by `useState(0)`, `useState(0)`, `useState(false)`. */
  const Idle := Timer(0, 0, false)

  /** The seconds still to count down. */
  function TotalSeconds(t: Timer): int {
    t.minutes * 60 + t.seconds
  }

  /** Every state the component can reach keeps the seconds within a minute. */
  predicate SecondsInRange(t: Timer) {
    0 <= t.seconds <= 59
  }

  /** The effect's guard: a one-second interval is live exactly when this holds. */
  predicate Scheduled(t: Timer) {
    t.playing && (t.minutes > 0 || t.seconds > 0)
  }

  /** `startMeditation(d)`: d-1 full minutes plus one minute of 59 seconds, playing. */
  function Started(d: int): (t: Timer)
    ensures SecondsInRange(t) && Scheduled(t)
    ensures TotalSeconds(t) == 60 * d - 1
    ensures d >= 1 ==> t.minutes >= 0
  {
    Timer(d - 1, 59, true)
  }

  /**
   * The interval callback: count one second down, borrowing a minute, or
   * stop. A scheduled tick takes exactly one second off and keeps playing; a
   * tick that arrived at or below 0:00 would stop playback and clear the
   * seconds.
   */
  function Ticked(t: Timer): (r: Timer)
    ensures Scheduled(t) && SecondsInRange(t) ==>
      SecondsInRange(r) && r.playing && TotalSeconds(r) == TotalSeconds(t) - 1 &&
      (t.minutes >= 0 ==> r.minutes >= 0)
    ensures t.seconds <= 0 && t.minutes <= 0 ==> r == Timer(t.minutes, 0, false)
  {
    if t.seconds > 0 then t.(seconds := t.seconds - 1)
    else if t.minutes > 0 then Timer(t.minutes - 1, 59, t.playing)
    else t.(seconds := 0, playing := false)
  }

  /** `togglePlayPause`: nothing at 0:00, otherwise flip the flag. */
  function Toggled(t: Timer): Timer {
    if t.minutes == 0 && t.seconds == 0 then t else t.(playing := !t.playing)
  }

  /** The state after `k` ticks of the interval. */
  function AfterTicks(t: Timer, k: nat): Timer
    decreases k
  {
    if k == 0 then t else AfterTicks(Ticked(t), k - 1)
  }

  /**
   * From a playing state with non-negative counters, each of the next
   * TotalSeconds(t) ticks is scheduled and takes exactly one second off.
   */
  lemma {:induction false} CountsDown(t: Timer, k: nat)
    requires t.playing && t.minutes >= 0 && SecondsInRange(t)
    requires k <= TotalSeconds(t)
    ensures AfterTicks(t, k).playing && AfterTicks(t, k).minutes >= 0
    ensures SecondsInRange(AfterTicks(t, k))
    ensures TotalSeconds(AfterTicks(t, k)) == TotalSeconds(t) - k
    ensures k < TotalSeconds(t) ==> Scheduled(AfterTicks(t, k))
    decreases k
  {
    if k > 0 {
      CountsDown(Ticked(t), k - 1);
    }
  }

  /**
   * From a playing state with non-negative counters every one of the next
   * TotalSeconds(t) ticks is scheduled.
   */
  lemma ScheduledUntilOut(t: Timer)
    requires t.playing && t.minutes >= 0 && SecondsInRange(t)
    ensures forall k :: 0 <= k < TotalSeconds(t) ==>
      Scheduled(AfterTicks(t, k)) && TotalSeconds(AfterTicks(t, k)) == TotalSeconds(t) - k
  {
    forall k | 0 <= k < TotalSeconds(t)
      ensures Scheduled(AfterTicks(t, k)) && TotalSeconds(AfterTicks(t, k)) == TotalSeconds(t) - k
    {
      CountsDown(t, k);
    }
  }

  /**
   * From a playing state with non-negative counters the countdown runs out
   * after exactly TotalSeconds(t) ticks and lands on 0:00 still playing.
   */
  lemma RunsOut(t: Timer)
    requires t.playing && t.minutes >= 0 && SecondsInRange(t)
    ensures AfterTicks(t, TotalSeconds(t)) == Timer(0, 0, true)
  {
    var n := TotalSeconds(t);
    CountsDown(t, n);
    var last := AfterTicks(t, n);
    assert last.minutes * 60 + last.seconds == 0 && 0 <= last.seconds <= 59;
    assert last.minutes == 0;
  }

  /**
   * A session of d >= 1 minutes: the first 60*d-1 ticks are all scheduled,
   * none of them stops playback, and the last of them lands on 0:00. There
   * the guard schedules nothing more, `isPlaying` is still true, and
   * `togglePlayPause` is a no-op, so the stopping branch of the callback is
   * never reached.
   */
  lemma CountdownFromStart(d: int)
    requires d >= 1
    ensures forall k :: 0 <= k < 60 * d - 1 ==>
      Scheduled(AfterTicks(Started(d), k)) && TotalSeconds(AfterTicks(Started(d), k)) == 60 * d - 1 - k
    ensures AfterTicks(Started(d), 60 * d - 1) == Timer(0, 0, true)
    ensures !Scheduled(AfterTicks(Started(d), 60 * d - 1))
    ensures Toggled(AfterTicks(Started(d), 60 * d - 1)) == AfterTicks(Started(d), 60 * d - 1)
  {
    ScheduledUntilOut(Started(d));
    RunsOut(Started(d));
  }

  /** With minutes at or below zero only the seconds run down, and nothing is borrowed. */
  lemma {:induction false} SecondsRunDown(t: Timer, k: nat)
    requires t.playing && t.minutes <= 0 && k <= t.seconds
    ensures AfterTicks(t, k) == t.(seconds := t.seconds - k)
    ensures k < t.seconds ==> Scheduled(AfterTicks(t, k))
    decreases k
  {
    if k > 0 {
      SecondsRunDown(Ticked(t), k - 1);
    }
  }

  /**
   * `startMeditation` does not check its argument: with d <= 0 the display
   * starts at (d-1):59, 59 ticks are scheduled, and the countdown stops at
   * (d-1):00, still playing.
   */
  lemma StartNonPositive(d: int)
    requires d <= 0
    ensures forall k :: 0 <= k < 59 ==> Scheduled(AfterTicks(Started(d), k))
    ensures AfterTicks(Started(d), 59) == Timer(d - 1, 0, true)
    ensures !Scheduled(Timer(d - 1, 0, true))
  {
    forall k | 0 <= k < 59 ensures Scheduled(AfterTicks(Started(d), k)) {
      SecondsRunDown(Started(d), k);
    }
    SecondsRunDown(Started(d), 59);
  }

  /** At 0:00 `togglePlayPause` changes nothing; otherwise it flips the flag and keeps the counters. */
  lemma ToggleEffect(t: Timer)
    ensures t.minutes == 0 && t.seconds == 0 ==> Toggled(t) == t
    ensures !(t.minutes == 0 && t.seconds == 0) ==>
      Toggled(t).playing == !t.playing && TotalSeconds(Toggled(t)) == TotalSeconds(t) &&
      Toggled(t).minutes == t.minutes
  {
  }

  /** Two presses with no tick in between restore the state. */
  lemma ToggleTwice(t: Timer)
    ensures Toggled(Toggled(t)) == t
  {
  }

  /** On a non-zero countdown a press pauses a running timer and resumes a paused one. */
  lemma PauseResume(t: Timer)
    requires t.minutes > 0 || t.seconds > 0
    ensures Scheduled(Toggled(t)) <==> !t.playing
  {
  }

  /** Pausing and resuming in between two ticks does not change where the countdown goes. */
  lemma PauseResumeKeepsCountdown(t: Timer, k: nat)
    ensures AfterTicks(Toggled(Toggled(t)), k) == AfterTicks(t, k)
  {
    ToggleTwice(t);
  }

  /** The component's three state cells and the handlers that write them. */
  class MeditationTimer {
    var minutes: int
    var seconds: int
    var isPlaying: bool

    function State(): Timer
      reads this
    {
      Timer(minutes, seconds, isPlaying)
    }

    ghost predicate Valid()
      reads this
    {
      SecondsInRange(State())
    }

    constructor ()
      ensures Valid() && State() == Idle
    {
      minutes, seconds, isPlaying := 0, 0, false;
    }

    /** The effect's guard. */
    predicate TickScheduled()
      reads this
    {
      Scheduled(State())
    }

    /** `startMeditation(durationMinutes)`. */
    method Start(durationMinutes: int)
      modifies this
      ensures Valid() && TickScheduled()
      ensures State() == Started(durationMinutes)
      ensures TotalSeconds(State()) == 60 * durationMinutes - 1
    {
      minutes := durationMinutes - 1;
      seconds := 59;
      isPlaying := true;
    }

    /** The one-second interval callback. */
    method Tick()
      requires Valid()
      modifies this
      ensures Valid()
      ensures State() == Ticked(old(State()))
      ensures old(TickScheduled()) ==>
        isPlaying && TotalSeconds(State()) == TotalSeconds(old(State())) - 1
    {
      if seconds > 0 {
        seconds := seconds - 1;
      } else if minutes > 0 {
        minutes := minutes - 1;
        seconds := 59;
      } else {
        isPlaying := false;
        seconds := 0;
      }
    }

    /** `togglePlayPause`. */
    method TogglePlayPause()
      requires Valid()
      modifies this
      ensures Valid()
      ensures State() == Toggled(old(State()))
      ensures minutes == old(minutes) && seconds == old(seconds)
      ensures isPlaying == if old(minutes) == 0 && old(seconds) == 0 then old(isPlaying) else !old(isPlaying)
    {
      if minutes == 0 && seconds == 0 {
        return;
      }
      isPlaying := !isPlaying;
    }
  }

  /**
   * Pressing play on the fresh timer does nothing; a one-minute session
   * starts at 0:59, a tick later a press pauses it and a second press resumes
   * it where it was.
   */
  method Session()
  {
    var m := new MeditationTimer();
    m.TogglePlayPause();
    assert m.State() == Idle;
    m.Start(1);
    assert m.minutes == 0 && m.seconds == 59 && m.TickScheduled();
    m.Tick();
    assert m.seconds == 58;
    m.TogglePlayPause();
    assert !m.TickScheduled() && m.seconds == 58;
    m.TogglePlayPause();
    assert m.TickScheduled() && m.seconds == 58;
  }
}
