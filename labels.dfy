/**
 * The texts the Index page chooses from the timing state: the countdown
 * heading, the status line under it and the word inside the breathing
 * circle.
 */
module Labels {
  import opened Wrappers
  import opened Formatting
  import Meditation
  import opened Breathing

  const ChooseMeditation := "Выберите медитацию"
  const PracticeRunning := "Практика идёт..."
  const StartPractice := "Начните свою практику"
  const Ready := "Готовы?"

  /** The countdown heading: the time while a counter is above zero, otherwise the prompt. */
  function CountdownLabel(mins: int, secs: int): string {
    if mins > 0 || secs > 0 then FormatTime(mins, secs) else ChooseMeditation
  }

  /** The status line under the heading, chosen by `isPlaying` alone. */
  function StatusLabel(isPlaying: bool): string {
    if isPlaying then PracticeRunning else StartPractice
  }

  /** The status line tells a playing timer from a stopped one, and names nothing else. */
  lemma StatusLabelDistinguishes(a: bool, b: bool)
    ensures StatusLabel(a) == StatusLabel(b) <==> a == b
    ensures StatusLabel(a) in {PracticeRunning, StartPractice}
  {
  }

  /** The word in the breathing circle. */
  function BreathLabel(isActive: bool, phase: Phase): string {
    if isActive then
      if phase == Inhale then "Вдох" else if phase == Hold then "Задержка" else "Выдох"
    else Ready
  }

  /** Reads the phase back from the word in the circle; the inactive word names none. */
  function PhaseOfLabel(text: string): Option<Phase> {
    if text == "Вдох" then Some(Inhale)
    else if text == "Задержка" then Some(Hold)
    else if text == "Выдох" then Some(Exhale)
    else None
  }

  lemma NoColonInPrompt()
    ensures FirstIndexOf(ChooseMeditation, ':') == |ChooseMeditation|
  {
    assert ':' !in ChooseMeditation;
  }

  /**
   * For non-negative counters the heading holds a readable time exactly when
   * a counter is above zero, and that time is the counters themselves.
   */
  lemma CountdownLabelShowsTime(mins: nat, secs: nat)
    ensures ParseTime(CountdownLabel(mins, secs)) ==
      if mins > 0 || secs > 0 then Some((mins, secs)) else None
  {
    if mins > 0 || secs > 0 {
      FormatTimeRoundTrip(mins, secs);
    } else {
      NoColonInPrompt();
    }
  }

  /**
   * A one-minute session shows 00:59 on start; a ten-minute one shows 09:59
   * on start and 08:59 sixty ticks later.
   */
  lemma SessionExamples()
    ensures var t := Meditation.Started(1); CountdownLabel(t.minutes, t.seconds) == "00:59"
    ensures var t := Meditation.Started(10); CountdownLabel(t.minutes, t.seconds) == "09:59"
    ensures var t := Meditation.AfterTicks(Meditation.Started(10), 60);
      CountdownLabel(t.minutes, t.seconds) == "08:59"
  {
    FormatTimeExamples();
    Meditation.CountsDown(Meditation.Started(10), 60);
    var t := Meditation.AfterTicks(Meditation.Started(10), 60);
    assert t.minutes == 8 && t.seconds == 59;
  }

  /**
   * When a session of d >= 1 minutes has run out, the heading is back to the
   * prompt while the status line still says the practice is running.
   */
  lemma FinishedSessionStillRunning(d: int)
    requires d >= 1
    ensures var t := Meditation.AfterTicks(Meditation.Started(d), 60 * d - 1);
      CountdownLabel(t.minutes, t.seconds) == ChooseMeditation && StatusLabel(t.playing) == PracticeRunning
  {
    Meditation.CountdownFromStart(d);
  }

  /**
   * While inactive the circle shows the ready word whatever the phase; while
   * active it names the phase, and the phase can be read back from it.
   */
  lemma BreathLabelRoundTrip(isActive: bool, phase: Phase)
    ensures PhaseOfLabel(BreathLabel(isActive, phase)) == if isActive then Some(phase) else None
    ensures !isActive ==> BreathLabel(isActive, phase) == Ready
  {
  }
}
