/** The guided breathing exercise: a fixed plan of steps, the once-a-second
    tick that turns elapsed seconds into a step and its seconds remaining, and
    the start / pause / reset controls of a 60-second session. */
module Breathing {

  /** One step of the plan: what to do and for how many seconds. `name` is
      the step's label (`label` is a reserved word in Dafny). */
  datatype Step = Step(name: string, seconds: nat)

  /** Inhale for 4, hold for 4, exhale for 6. */
  const BreathingPlan: seq<Step> := [Step("Inhale", 4), Step("Hold", 4), Step("Exhale", 6)]

  /** How long a session lasts, in seconds. */
  const SessionSeconds: nat := 60

  /** The step the tick settled on, with its seconds still to go. */
  datatype Current = Current(name: string, seconds: nat, remaining: int)

  /** What the tick's step search starts from, and keeps if no window matches. */
  const Fallback: Current := Current("Inhale", 4, 4)

  /** `plan.reduce((sum, s) => sum + s.seconds, 0)`. */
  function CycleSeconds(plan: seq<Step>): nat
  {
    if plan == [] then 0 else plan[0].seconds + CycleSeconds(plan[1..])
  }

  lemma {:induction false} CycleSecondsAppend(plan: seq<Step>, s: Step)
    ensures CycleSeconds(plan + [s]) == CycleSeconds(plan) + s.seconds
  {
    if plan != [] {
      assert (plan + [s])[1..] == plan[1..] + [s];
      CycleSecondsAppend(plan[1..], s);
    }
  }

  lemma PlanCycleIs14()
    ensures CycleSeconds(BreathingPlan) == 14
  {
    assert BreathingPlan[1..][1..][1..] == [];
  }

  /** Step i's window of the cycle is [WindowStart(plan, i), WindowStart(plan, i) + plan[i].seconds). */
  function WindowStart(plan: seq<Step>, i: nat): nat
    requires i <= |plan|
  {
    CycleSeconds(plan[..i])
  }

  /** The step whose window holds second `w` of the cycle (Fallback if none),
      with the seconds left in that window. */
  function StepAt(plan: seq<Step>, w: nat): Current
  {
    if plan == [] then Fallback
    else if w < plan[0].seconds then Current(plan[0].name, plan[0].seconds, plan[0].seconds - w)
    else StepAt(plan[1..], w - plan[0].seconds)
  }

  /** The step search of the tick: walk the plan accumulating each step's
      [start, end) window and stop at the window that holds `withinCycle`. */
  method FindStep(plan: seq<Step>, withinCycle: nat) returns (current: Current)
    ensures current == StepAt(plan, withinCycle)
  {
    var acc := 0;
    current := Fallback;
    for i := 0 to |plan|
      invariant acc == CycleSeconds(plan[..i])
      invariant acc <= withinCycle
      invariant StepAt(plan, withinCycle) == StepAt(plan[i..], withinCycle - acc)
      invariant current == Fallback
    {
      var step := plan[i];
      var start := acc;
      var end := acc + step.seconds;
      if withinCycle >= start && withinCycle < end {
        var elapsed := withinCycle - start;
        var remaining := step.seconds - elapsed;
        current := Current(step.name, step.seconds, remaining);
        break;
      }
      assert plan[..i + 1] == plan[..i] + [step];
      CycleSecondsAppend(plan[..i], step);
      assert plan[i..][1..] == plan[i + 1..];
      acc := end;
    }
  }

  /** The window starts of a plan are those of its tail, shifted by the first
      step's length. */
  lemma WindowStartTail(plan: seq<Step>, i: nat)
    requires 0 < i <= |plan|
    ensures WindowStart(plan, i) == plan[0].seconds + WindowStart(plan[1..], i - 1)
  {
    assert plan[..i][1..] == plan[1..][..i - 1];
  }

  /** A second inside step i's window resolves to step i, with
      `seconds - (w - start)` seconds remaining. */
  lemma {:induction false} StepAtWindow(plan: seq<Step>, i: nat, w: nat)
    requires i < |plan|
    requires WindowStart(plan, i) <= w < WindowStart(plan, i) + plan[i].seconds
    ensures StepAt(plan, w) == Current(plan[i].name, plan[i].seconds, plan[i].seconds - (w - WindowStart(plan, i)))
  {
    if i == 0 {
      assert plan[..0] == [];
    } else {
      WindowStartTail(plan, i);
      StepAtWindow(plan[1..], i - 1, w - plan[0].seconds);
    }
  }

  /** Every second of the cycle falls in some step's window, so the result is
      that step with 1 to `seconds` seconds remaining; past the cycle the
      search finds nothing and keeps the fallback. */
  lemma {:induction false} StepAtInRange(plan: seq<Step>, w: nat)
    ensures w < CycleSeconds(plan) ==>
      exists i :: 0 <= i < |plan| && StepAt(plan, w).name == plan[i].name
                                  && StepAt(plan, w).seconds == plan[i].seconds
    ensures w < CycleSeconds(plan) ==> 1 <= StepAt(plan, w).remaining <= StepAt(plan, w).seconds
    ensures w >= CycleSeconds(plan) ==> StepAt(plan, w) == Fallback
  {
    if plan != [] && w >= plan[0].seconds {
      StepAtInRange(plan[1..], w - plan[0].seconds);
      if w < CycleSeconds(plan) {
        var i :| 0 <= i < |plan[1..]| && StepAt(plan[1..], w - plan[0].seconds).name == plan[1..][i].name
                                      && StepAt(plan[1..], w - plan[0].seconds).seconds == plan[1..][i].seconds;
        assert plan[1..][i] == plan[i + 1];
      }
    }
  }

  /** The plan's windows spelled out: [0,4) inhale, [4,8) hold, [8,14) exhale. */
  lemma PlanSteps(w: nat)
    requires w < 14
    ensures StepAt(BreathingPlan, w) ==
      if w < 4 then Current("Inhale", 4, 4 - w)
      else if w < 8 then Current("Hold", 4, 8 - w)
      else Current("Exhale", 6, 14 - w)
  {
    var p := BreathingPlan;
    assert p[0] == Step("Inhale", 4) && p[1..] == [Step("Hold", 4), Step("Exhale", 6)];
    if w >= 4 {
      assert StepAt(p, w) == StepAt(p[1..], w - 4);
      assert p[1..][1..] == [Step("Exhale", 6)];
      if w >= 8 {
        assert StepAt(p[1..], w - 4) == StepAt(p[1..][1..], w - 8);
      }
    }
  }

  /** What the session shows. */
  datatype Phase = Idle | Inhale | Hold | Exhale | Done

  /** The label-to-phase conditional of the tick. */
  function PhaseOf(name: string): (p: Phase)
    ensures p == Inhale <==> name == "Inhale"
    ensures p == Hold <==> name == "Hold"
    ensures p != Idle && p != Done
  {
    if name == "Inhale" then Inhale else if name == "Hold" then Hold else Exhale
  }

  /** The four state variables of the exercise. */
  datatype Session = Session(running: bool, phase: Phase, count: int, total: nat)

  const Initial: Session := Session(false, Idle, 0, 0)
  const Finished: Session := Session(false, Done, 0, SessionSeconds)

  /** Start always restarts from zero, whatever the state. */
  function Start(s: Session): Session
  {
    Session(true, Inhale, 4, 0)
  }

  function Pause(s: Session): Session
  {
    s.(running := false)
  }

  function Reset(s: Session): Session
  {
    Initial
  }

  /** The body of the once-a-second timer callback. */
  function Tick(s: Session): Session
  {
    var next := s.total + 1;
    if next >= SessionSeconds then Finished
    else
      var c := StepAt(BreathingPlan, next % CycleSeconds(BreathingPlan));
      Session(s.running, PhaseOf(c.name), c.remaining, next)
  }

  /** One second of wall-clock time: the timer is armed only while running. */
  function Second(s: Session): Session
  {
    if s.running then Tick(s) else s
  }

  /** n seconds of wall-clock time. */
  function Seconds(s: Session, n: nat): Session
  {
    if n == 0 then s else Second(Seconds(s, n - 1))
  }

  /** The phase and count a running session shows at `total` elapsed seconds,
      from the explicit windows of the plan. */
  function PhaseAt(total: nat): Phase
  {
    var w := total % 14;
    if w < 4 then Inhale else if w < 8 then Hold else Exhale
  }

  function RemainingAt(total: nat): int
  {
    var w := total % 14;
    if w < 4 then 4 - w else if w < 8 then 8 - w else 14 - w
  }

  /** The tick at the 60th second ends the session, wherever in the cycle it falls. */
  lemma TickEndsSession(s: Session)
    requires s.total + 1 >= SessionSeconds
    ensures Tick(s) == Session(false, Done, 0, 60)
  {
  }

  /** Any other tick advances the clock by one and shows the step whose window
      holds the new total within the cycle, with 1 to `seconds` remaining. */
  lemma TickAdvances(s: Session)
    requires s.total + 1 < SessionSeconds
    ensures Tick(s).total == s.total + 1 && Tick(s).running == s.running
    ensures Tick(s).phase == PhaseAt(s.total + 1) && Tick(s).count == RemainingAt(s.total + 1)
    ensures Tick(s).phase == Inhale ==> 1 <= Tick(s).count <= 4
    ensures Tick(s).phase == Hold ==> 1 <= Tick(s).count <= 4
    ensures Tick(s).phase == Exhale ==> 1 <= Tick(s).count <= 6
  {
    PlanCycleIs14();
    PlanSteps((s.total + 1) % 14);
  }

  predicate Active(p: Phase)
  {
    p == Inhale || p == Hold || p == Exhale
  }

  /** The elapsed total is the sole source of truth for phase and count while
      a step is shown; Idle and Done are markers of an unstarted and a
      finished session. */
  ghost predicate Consistent(s: Session)
  {
    && s.total <= SessionSeconds
    && (s.running ==> Active(s.phase))
    && (s.phase == Idle ==> s.count == 0 && s.total == 0)
    && (s.phase == Done ==> s.count == 0 && s.total == SessionSeconds)
    && (Active(s.phase) ==> s.total < SessionSeconds && s.phase == PhaseAt(s.total) && s.count == RemainingAt(s.total))
  }

  lemma ConsistentPreserved(s: Session)
    requires Consistent(s)
    ensures Consistent(Start(s)) && Consistent(Pause(s)) && Consistent(Reset(s))
    ensures Consistent(Tick(s)) && Consistent(Second(s))
  {
    if s.total + 1 < SessionSeconds {
      TickAdvances(s);
    }
  }

  /** In a consistent session the count shown is within the current step. */
  lemma ConsistentCountBounds(s: Session)
    requires Consistent(s) && Active(s.phase)
    ensures s.phase == Exhale ==> 1 <= s.count <= 6
    ensures s.phase != Exhale ==> 1 <= s.count <= 4
  {
  }

  /** While paused, time passing changes nothing. */
  lemma {:induction false} PausedIsFrozen(s: Session, n: nat)
    requires !s.running
    ensures Seconds(s, n) == s
  {
    if n > 0 {
      PausedIsFrozen(s, n - 1);
    }
  }

  /** What n seconds after Start show: the plan's step for n while under a
      minute, and the finished session from the 60th second on. */
  function AfterStart(n: nat): Session
  {
    if n < SessionSeconds then Session(true, PhaseAt(n), RemainingAt(n), n) else Finished
  }

  lemma {:induction false} RunFromStart(s: Session, n: nat)
    ensures Seconds(Start(s), n) == AfterStart(n)
  {
    if n > 0 {
      RunFromStart(s, n - 1);
      var prev := Seconds(Start(s), n - 1);
      if n - 1 < SessionSeconds {
        if n < SessionSeconds {
          TickAdvances(prev);
        }
      }
    }
  }

  /** The first cycle: inhale 4,3,2,1, hold 4,3,2,1, exhale 6..1. */
  lemma FirstCycle(s: Session, n: nat)
    requires n < 14
    ensures Seconds(Start(s), n).running && Seconds(Start(s), n).total == n
    ensures n < 4 ==> Seconds(Start(s), n).phase == Inhale && Seconds(Start(s), n).count == 4 - n
    ensures 4 <= n < 8 ==> Seconds(Start(s), n).phase == Hold && Seconds(Start(s), n).count == 8 - n
    ensures 8 <= n ==> Seconds(Start(s), n).phase == Exhale && Seconds(Start(s), n).count == 14 - n
  {
    RunFromStart(s, n);
    assert n % 14 == n;
  }

  /** At 14, 28, 42 and 56 seconds the cycle starts over at inhale with 4 remaining. */
  lemma CycleBoundary(s: Session, k: nat)
    requires 1 <= k <= 4
    ensures Seconds(Start(s), 14 * k) == Session(true, Inhale, 4, 14 * k)
  {
    RunFromStart(s, 14 * k);
    assert (14 * k) % 14 == 0;
  }

  /** From any running session, the session is finished once the minute is up. */
  lemma {:induction false} RunsToDone(s: Session, n: nat)
    requires Consistent(s) && s.running
    requires s.total + n >= SessionSeconds
    ensures Seconds(s, n) == Finished
  {
    if n > 0 {
      if s.total + (n - 1) >= SessionSeconds {
        RunsToDone(s, n - 1);
      } else {
        RunningUntilMinute(s, n - 1);
      }
    }
  }

  /** Before the minute is up a running session keeps running, one second per tick. */
  lemma {:induction false} RunningUntilMinute(s: Session, n: nat)
    requires Consistent(s) && s.running
    requires s.total + n < SessionSeconds
    ensures Consistent(Seconds(s, n)) && Seconds(s, n).running && Seconds(s, n).total == s.total + n
  {
    if n > 0 {
      RunningUntilMinute(s, n - 1);
      ConsistentPreserved(Seconds(s, n - 1));
      TickAdvances(Seconds(s, n - 1));
    }
  }

  /** The breathing state of the app, updated in place. */
  class BreathingTimer {
    var running: bool
    var phase: Phase
    var count: int
    var totalSeconds: nat

    function State(): Session
      reads this
    {
      Session(running, phase, count, totalSeconds)
    }

    ghost predicate Valid()
      reads this
    {
      Consistent(State())
    }

    constructor ()
      ensures Valid() && State() == Initial
    {
      running, phase, count, totalSeconds := false, Idle, 0, 0;
    }

    method StartBreathing()
      requires Valid()
      modifies this
      ensures Valid() && State() == Start(old(State()))
      ensures running && phase == Inhale && count == 4 && totalSeconds == 0
    {
      totalSeconds := 0;
      phase := Inhale;
      count := 4;
      running := true;
    }

    method PauseBreathing()
      requires Valid()
      modifies this
      ensures Valid() && State() == Pause(old(State()))
      ensures !running && phase == old(phase) && count == old(count) && totalSeconds == old(totalSeconds)
    {
      running := false;
      ConsistentPreserved(old(State()));
    }

    method ResetBreathing()
      requires Valid()
      modifies this
      ensures Valid() && State() == Reset(old(State()))
      ensures !running && phase == Idle && count == 0 && totalSeconds == 0
    {
      running := false;
      phase := Idle;
      count := 0;
      totalSeconds := 0;
    }

    /** The timer callback: advance the elapsed total, finish at 60 seconds,
        otherwise show the step the new total falls in. */
    method TickBreathing()
      requires Valid()
      modifies this
      ensures Valid() && State() == Tick(old(State()))
    {
      ConsistentPreserved(State());
      var next := totalSeconds + 1;
      if next >= SessionSeconds {
        running := false;
        phase := Done;
        count := 0;
        totalSeconds := 60;
        return;
      }
      PlanCycleIs14();
      var cycleSeconds := CycleSeconds(BreathingPlan);
      var withinCycle := next % cycleSeconds;
      var current := FindStep(BreathingPlan, withinCycle);
      phase := PhaseOf(current.name);
      count := current.remaining;
      totalSeconds := next;
    }

    /** One second of wall-clock time: the interval is armed only while the
        session runs. */
    method ElapseSecond()
      requires Valid()
      modifies this
      ensures Valid() && State() == Second(old(State()))
    {
      if running {
        TickBreathing();
      }
    }
  }
}
