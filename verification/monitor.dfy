/**
 * The sampling/escalation state machine of `Monitor` (Gatos.Monitor/Monitor.cs).
 *
 * Every sampling tick either is skipped (intensive mode is on), resets the
 * violation counter (the sample is within the threshold), or counts one more
 * consecutive violation; the third one in a row resets the counter, turns
 * intensive mode on and starts the intensive sampling run. That run clears
 * intensive mode when it is done.
 *
 * The timer, the task that runs `SampleIntensively`, the performance counter
 * and the trace lines are outside the model: a tick is a call with the
 * sampled value, and "escalation fires" is a returned flag.
 */
module Escalation {

  /** Consecutive violating samples that start intensive sampling. */
  const ConsecutiveViolationsThreshold: int := 3

  /** `_consecutiveViolations` and `_intensiveMode`. */
  datatype EngineState = EngineState(violations: int, intensiveMode: bool)

  /** The state after a tick, and whether the tick started intensive sampling. */
  datatype TickOutcome = TickOutcome(next: EngineState, escalated: bool)

  /** The state of a freshly constructed monitor. */
  const Fresh := EngineState(0, false)

  /** The counter stays below the threshold between ticks. */
  predicate CounterInRange(s: EngineState)
  {
    0 <= s.violations < ConsecutiveViolationsThreshold
  }

  /** One call of `SampleCounter`; `violates` is `counterValue > CounterThreshold`. */
  function Tick(s: EngineState, violates: bool): (r: TickOutcome)
    // a skipped tick changes nothing and fires nothing
    ensures s.intensiveMode ==> r == TickOutcome(s, false)
    // a sample within the threshold resets the counter, whatever it was
    ensures !s.intensiveMode && !violates ==> r.next == EngineState(0, false) && !r.escalated
    // escalation fires exactly when a violation brings the counter to the threshold
    ensures r.escalated <==> !s.intensiveMode && violates && s.violations + 1 == ConsecutiveViolationsThreshold
    ensures r.escalated ==> r.next == EngineState(0, true)
    ensures !s.intensiveMode && violates && !r.escalated ==> r.next == EngineState(s.violations + 1, false)
    ensures CounterInRange(s) ==> CounterInRange(r.next)
  {
    if s.intensiveMode then
      TickOutcome(s, false)
    else if violates then
      if s.violations + 1 == ConsecutiveViolationsThreshold then
        TickOutcome(EngineState(0, true), true)
      else
        TickOutcome(EngineState(s.violations + 1, s.intensiveMode), false)
    else
      TickOutcome(EngineState(0, s.intensiveMode), false)
  }

  /** The end of `SampleIntensively`: intensive mode is cleared, the counter kept. */
  function FinishIntensive(s: EngineState): (r: EngineState)
    ensures !r.intensiveMode && r.violations == s.violations
  {
    EngineState(s.violations, false)
  }

  /** A sequence of ticks: the final state and, per tick, whether it fired. */
  function Run(s: EngineState, ticks: seq<bool>): (r: (EngineState, seq<bool>))
    ensures |r.1| == |ticks|
  {
    if ticks == [] then (s, [])
    else
      var before := Run(s, ticks[..|ticks| - 1]);
      var o := Tick(before.0, ticks[|ticks| - 1]);
      (o.next, before.1 + [o.escalated])
  }

  /** The number of violating ticks at the end of `ticks`. */
  function Trailing(ticks: seq<bool>): nat
  {
    if ticks == [] || !ticks[|ticks| - 1] then 0 else Trailing(ticks[..|ticks| - 1]) + 1
  }

  /** No prefix of `ticks` ends in three violations. */
  ghost predicate NotYetEscalated(ticks: seq<bool>)
  {
    forall j :: 0 < j <= |ticks| ==> Trailing(ticks[..j]) < ConsecutiveViolationsThreshold
  }

  /** Tick `i` is the first one that ends three violations in a row. */
  ghost predicate FirstThirdViolation(ticks: seq<bool>, i: nat)
    requires i < |ticks|
  {
    Trailing(ticks[..i + 1]) == ConsecutiveViolationsThreshold && NotYetEscalated(ticks[..i])
  }

  /**
   * From a fresh monitor, the counter is the number of trailing violations
   * until escalation; from then on the monitor is in intensive mode with a
   * zero counter, and the tick that fired is the first that ended three
   * violations in a row.
   */
  lemma {:induction false} RunFromFresh(ticks: seq<bool>)
    ensures NotYetEscalated(ticks) ==> Run(Fresh, ticks).0 == EngineState(Trailing(ticks), false)
    ensures !NotYetEscalated(ticks) ==> Run(Fresh, ticks).0 == EngineState(0, true)
    ensures forall i :: 0 <= i < |ticks| ==> (Run(Fresh, ticks).1[i] <==> FirstThirdViolation(ticks, i))
  {
    if ticks != [] {
      var n := |ticks| - 1;
      var init := ticks[..n];
      RunFromFresh(init);
      assert forall j :: 0 <= j <= n ==> ticks[..j] == init[..j];
      var before := Run(Fresh, init);
      assert Run(Fresh, ticks).1 == before.1 + [Tick(before.0, ticks[n]).escalated];
      assert ticks[..n + 1] == ticks;
      if NotYetEscalated(init) {
        if Trailing(ticks) < ConsecutiveViolationsThreshold {
          assert NotYetEscalated(ticks) by {
            forall j | 0 < j <= |ticks| ensures Trailing(ticks[..j]) < ConsecutiveViolationsThreshold {
              if j <= n {
                assert ticks[..j] == init[..j];
              }
            }
          }
        } else {
          assert !NotYetEscalated(ticks);
        }
      } else {
        var j :| 0 < j <= n && Trailing(init[..j]) >= ConsecutiveViolationsThreshold;
        assert ticks[..j] == init[..j];
        assert !NotYetEscalated(ticks);
      }
      forall i | 0 <= i < |ticks| ensures Run(Fresh, ticks).1[i] <==> FirstThirdViolation(ticks, i) {
        if i < n {
          assert ticks[..i + 1] == init[..i + 1] && ticks[..i] == init[..i];
        }
      }
    }
  }

  /** The scripted run V,V,N,V,V,V fires at the sixth tick and at no other. */
  lemma ScriptedRun()
    ensures Run(Fresh, [true, true, false, true, true, true]).1 == [false, false, false, false, false, true]
  {
    var t1 := [true];
    assert t1[..0] == [];
    assert Run(Fresh, t1).0 == EngineState(1, false) && Run(Fresh, t1).1 == [false];
    var t2 := t1 + [true];
    assert t2[..1] == t1;
    assert Run(Fresh, t2).0 == EngineState(2, false) && Run(Fresh, t2).1 == [false, false];
    var t3 := t2 + [false];
    assert t3[..2] == t2;
    assert Run(Fresh, t3).0 == EngineState(0, false) && Run(Fresh, t3).1 == [false, false, false];
    var t4 := t3 + [true];
    assert t4[..3] == t3;
    assert Run(Fresh, t4).0 == EngineState(1, false) && Run(Fresh, t4).1 == [false, false, false, false];
    var t5 := t4 + [true];
    assert t5[..4] == t4;
    assert Run(Fresh, t5).0 == EngineState(2, false) && Run(Fresh, t5).1 == [false, false, false, false, false];
    var t6 := t5 + [true];
    assert t6[..5] == t5;
    assert t6 == [true, true, false, true, true, true];
  }

  /** A later tick cannot also be the first to end three violations in a row. */
  lemma FirstThirdIsUnique(ticks: seq<bool>, lo: nat, hi: nat)
    requires lo < hi < |ticks|
    requires FirstThirdViolation(ticks, lo)
    ensures !FirstThirdViolation(ticks, hi)
  {
    assert ticks[..hi][..lo + 1] == ticks[..lo + 1];
  }

  /** Single flight: without `FinishIntensive` in between, at most one tick fires. */
  lemma SingleFlight(ticks: seq<bool>, i: nat, j: nat)
    requires i < |ticks| && j < |ticks|
    requires Run(Fresh, ticks).1[i] && Run(Fresh, ticks).1[j]
    ensures i == j
  {
    RunFromFresh(ticks);
    if i < j {
      FirstThirdIsUnique(ticks, i, j);
    } else if j < i {
      FirstThirdIsUnique(ticks, j, i);
    }
  }

  /**
   * Re-arm: once escalation has fired, ticks are skipped until the intensive
   * run finishes, and the monitor then is exactly a fresh one (the counter
   * was reset when escalation fired and nothing counted meanwhile).
   */
  lemma FinishRearms(ticks: seq<bool>)
    requires !NotYetEscalated(ticks)
    ensures FinishIntensive(Run(Fresh, ticks).0) == Fresh
  {
    RunFromFresh(ticks);
  }

  /**
   * A monitor left in intensive mode (its intensive run threw before clearing
   * the flag) never samples again: every tick is skipped, none fires, and the
   * state never changes.
   */
  lemma {:induction false} StuckInIntensiveMode(s: EngineState, ticks: seq<bool>)
    requires s.intensiveMode
    ensures Run(s, ticks).0 == s
    ensures forall i :: 0 <= i < |ticks| ==> !Run(s, ticks).1[i]
  {
    if ticks != [] {
      StuckInIntensiveMode(s, ticks[..|ticks| - 1]);
    }
  }

  /** The monitor object: the two fields `SampleCounter` and `SampleIntensively` update. */
  class Monitor {
    const counterThreshold: int
    var consecutiveViolations: int
    var intensiveMode: bool

    ghost predicate Valid()
      reads this
    {
      CounterInRange(State())
    }

    function State(): EngineState
      reads this
    {
      EngineState(consecutiveViolations, intensiveMode)
    }

    constructor (counterThreshold: int)
      ensures Valid() && State() == Fresh
      ensures this.counterThreshold == counterThreshold
    {
      this.counterThreshold := counterThreshold;
      consecutiveViolations := 0;
      intensiveMode := false;
    }

    /** The sampling timer callback; `escalated` stands for `Task.Run(SampleIntensively)`. */
    method SampleCounter(counterValue: int) returns (escalated: bool)
      requires Valid()
      modifies this
      ensures Valid()
      ensures TickOutcome(State(), escalated) == Tick(old(State()), counterValue > counterThreshold)
      ensures old(intensiveMode) ==> !escalated && unchanged(this)
      ensures escalated ==> intensiveMode && consecutiveViolations == 0
    {
      escalated := false;
      if intensiveMode {
        return;
      }
      if counterValue > counterThreshold {
        consecutiveViolations := consecutiveViolations + 1;
        if consecutiveViolations == ConsecutiveViolationsThreshold {
          consecutiveViolations := 0;
          intensiveMode := true;
          escalated := true;
        }
      } else {
        consecutiveViolations := 0;
      }
    }

    /**
     * The intensive run: the variant's start and done hooks (modelled in their
     * own modules), then intensive mode is cleared. There is no try/finally:
     * when a hook throws (`hookThrows`), the line that clears intensive mode
     * is never reached and the monitor keeps skipping its ticks for good
     * (`StuckInIntensiveMode`).
     */
    method SampleIntensively(hookThrows: bool)
      requires Valid()
      modifies this
      ensures Valid()
      ensures hookThrows ==> unchanged(this)
      ensures !hookThrows ==> State() == FinishIntensive(old(State()))
    {
      if hookThrows {
        return;
      }
      intensiveMode := false;
    }
  }
}
