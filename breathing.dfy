/**
 * The breathing trainer of the Index page: `isBreathingActive`, the
 * displayed `breathPhase`, and the four-second interval started by
 * `handleBreathingCycle`, whose closure keeps its own local `phase`.
 *
 * The handler throws away the cancel function it returns, so an interval,
 * once started, is never cleared: it goes on advancing and writing
 * `breathPhase` after the trainer is switched off. The class below models a
 * single such interval (the one started last).
 */
module Breathing {

  datatype Phase = Inhale | Hold | Exhale

  /** The order of the cycle, as a reference for `NextPhase`. */
  const Cycle: seq<Phase> := [Inhale, Hold, Exhale]

  /** The closure's advance: inhale to hold, hold to exhale, anything else to inhale. */
  function NextPhase(p: Phase): (q: Phase)
    ensures q != p
  {
    if p == Inhale then Hold else if p == Hold then Exhale else Inhale
  }

  /** The phase after `k` advances. */
  function Advance(p: Phase, k: nat): Phase
    decreases k
  {
    if k == 0 then p else Advance(NextPhase(p), k - 1)
  }

  /** Every phase sits at one place of the cycle, and the advance moves one place on. */
  lemma NextPhaseFollowsCycle(i: nat)
    requires i < |Cycle|
    ensures NextPhase(Cycle[i]) == Cycle[(i + 1) % |Cycle|]
  {
  }

  /** Three advances bring every phase back to itself. */
  lemma ThreeAdvancesIdentity(p: Phase)
    ensures NextPhase(NextPhase(NextPhase(p))) == p
    ensures Advance(p, 3) == p
  {
  }

  /** The advance is a bijection of the three phases: no two phases are sent to the same one. */
  lemma NextPhaseInjective(p: Phase, q: Phase)
    ensures NextPhase(p) == NextPhase(q) ==> p == q
  {
  }

  /** The cycle has period three. */
  lemma {:induction false} AdvancePeriodic(p: Phase, k: nat)
    ensures Advance(p, k) == Advance(p, k % 3)
    decreases k
  {
    if k >= 3 {
      AdvanceSplit(p, 3, k - 3);
      ThreeAdvancesIdentity(p);
      AdvancePeriodic(p, k - 3);
      assert (k - 3) % 3 == k % 3;
    }
  }

  lemma {:induction false} AdvanceSplit(p: Phase, j: nat, k: nat)
    ensures Advance(p, j + k) == Advance(Advance(p, j), k)
    decreases j
  {
    if j > 0 {
      AdvanceSplit(NextPhase(p), j - 1, k);
    }
  }

  /** After k advances from inhale the phase is the (k mod 3)-th of the cycle. */
  lemma AdvanceFromInhale(k: nat)
    ensures Advance(Inhale, k) == Cycle[k % 3]
  {
    AdvancePeriodic(Inhale, k);
    var r := k % 3;
    assert r == 0 || r == 1 || r == 2;
  }

  /**
   * The trainer's state cells and its one interval. `generatorLive` says
   * whether `handleBreathingCycle` has started an interval; `generatorPhase`
   * is that interval's closure-local phase. The ghost `ticks` counts the
   * interval's callbacks since it was started.
   */
  class BreathingTrainer {
    var isBreathingActive: bool
    var breathPhase: Phase
    var generatorLive: bool
    var generatorPhase: Phase
    ghost var ticks: nat

    /**
     * The interval's local phase is `ticks` advances from inhale; once it has
     * fired, the displayed phase is the one it last wrote; before any
     * interval fires the display keeps the initial inhale.
     */
    ghost predicate Valid()
      reads this
    {
      (generatorLive ==> generatorPhase == Advance(Inhale, ticks)) &&
      (generatorLive && ticks > 0 ==> breathPhase == generatorPhase) &&
      (!generatorLive ==> ticks == 0 && breathPhase == Inhale)
    }

    /** `useState(false)` and `useState('inhale')`; no interval yet. */
    constructor ()
      ensures Valid()
      ensures !isBreathingActive && breathPhase == Inhale && !generatorLive
    {
      isBreathingActive := false;
      breathPhase := Inhale;
      generatorLive := false;
      generatorPhase := Inhale;
      ticks := 0;
    }

    /**
     * `handleBreathingCycle`: always negates the active flag; only when it was
     * off does it start a new interval whose local phase begins at inhale. It
     * never writes `breathPhase`, and switching off does not stop the interval.
     */
    method HandleBreathingCycle()
      requires Valid()
      modifies this
      ensures Valid()
      ensures isBreathingActive == !old(isBreathingActive)
      ensures breathPhase == old(breathPhase)
      ensures !old(isBreathingActive) ==> generatorLive && generatorPhase == Inhale && ticks == 0
      ensures old(isBreathingActive) ==>
        generatorLive == old(generatorLive) && generatorPhase == old(generatorPhase) && ticks == old(ticks)
    {
      var wasActive := isBreathingActive;
      isBreathingActive := !wasActive;
      if !wasActive {
        generatorPhase := Inhale;
        generatorLive := true;
        ticks := 0;
      }
    }

    /**
     * The four-second callback of the live interval: advance the local phase
     * and show it. It does not look at the active flag.
     */
    method Tick()
      requires Valid() && generatorLive
      modifies this`generatorPhase, this`breathPhase, this`ticks
      ensures Valid()
      ensures generatorPhase == NextPhase(old(generatorPhase))
      ensures breathPhase == generatorPhase
      ensures ticks == old(ticks) + 1
      ensures breathPhase == Cycle[ticks % 3]
    {
      if generatorPhase == Inhale {
        generatorPhase := Hold;
      } else if generatorPhase == Hold {
        generatorPhase := Exhale;
      } else {
        generatorPhase := Inhale;
      }
      breathPhase := generatorPhase;
      AdvanceSplit(Inhale, ticks, 1);
      ticks := ticks + 1;
      AdvanceFromInhale(ticks);
    }
  }

  /**
   * A trainer switched on from the fresh state shows inhale, then hold and
   * exhale; switched off, its interval still advances the display; switched
   * on again it keeps showing the old phase, and its first tick shows hold.
   */
  method Scenario()
  {
    var b := new BreathingTrainer();
    b.HandleBreathingCycle();
    assert b.isBreathingActive && b.breathPhase == Inhale;
    b.Tick();
    assert b.breathPhase == Hold;
    b.Tick();
    assert b.breathPhase == Exhale;
    b.HandleBreathingCycle();
    assert !b.isBreathingActive && b.breathPhase == Exhale;
    b.Tick();
    assert !b.isBreathingActive && b.breathPhase == Inhale;
    b.Tick();
    b.Tick();
    assert b.breathPhase == Exhale;
    b.HandleBreathingCycle();
    assert b.isBreathingActive && b.breathPhase == Exhale;
    b.Tick();
    assert b.breathPhase == Hold;
  }
}
