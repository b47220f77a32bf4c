/** A run of the scheduler in which a failed half-open probe does not reopen the circuit. */
module SchedulerExample {
  import opened SchedulerModel
  import opened SchedulerSystem
  import opened SchedulerTheorems

  const CFG: Config := Config(0, 256, 3, 0, true, 2, 0)
  const TAG: Tag := Tag("m", 0, false)
  const TIMES: seq<nat> := [1, 1, 1, 1]

  lemma {:induction false} RunAppend(y: Sys, r1: seq<Action>, r2: seq<Action>)
    requires Run(y, r1) && Run(Exec(y, r1), r2)
    ensures Run(y, r1 + r2) && Exec(y, r1 + r2) == Exec(Exec(y, r1), r2)
    decreases |r1|
  {
    hide Next, Enabled;
    if r1 == [] {
      assert r1 + r2 == r2;
    } else {
      assert (r1 + r2)[0] == r1[0] && (r1 + r2)[1..] == r1[1..] + r2;
      RunAppend(Next(y, r1[0]), r1[1..], r2);
    }
  }

  /** One more step at the end of a run. */
  lemma RunOneMore(y: Sys, run: seq<Action>, a: Action)
    requires Run(y, run) && Shaped(Exec(y, run).s.q) && Enabled(Exec(y, run), a)
    ensures Run(y, run + [a]) && Exec(y, run + [a]) == Next(Exec(y, run), a)
  {
    hide Next, Enabled;
    var t := Exec(y, run);
    assert [a][1..] == [];
    assert Run(Next(t, a), []) && Run(t, [a]) && Exec(t, [a]) == Exec(Next(t, a), []);
    RunAppend(y, run, [a]);
  }

  /** The parts of a state that the run depends on: all requests are lowest-priority ones of one module, at time 1. */
  ghost predicate At(y: Sys, lane: seq<nat>, stages: seq<Stage>, inflight: nat, b: Breaker, phase: Phase, owed: nat, invoked: set<nat>)
  {
    && y.s.cfg == CFG && !y.s.hook && y.s.mode != SyncMode && y.now == 1
    && y.s.q.lanes == [lane, [], [], []] && |y.s.q.last| == LANES && Indices(lane, |stages|)
    && |y.s.q.table| == |stages| && (forall i :: 0 <= i < |stages| ==> y.s.q.table[i] == Rec(TAG, 1, true, stages[i]))
    && y.s.q.inflight == inflight
    && y.s.b == b
    && y.s.pump == Pump(false, phase != Idle, false, false)
    && y.phase == phase && y.owed == owed && y.invoked == invoked
  }

  lemma AtShaped(y: Sys, lane: seq<nat>, stages: seq<Stage>, n: nat, b: Breaker, phase: Phase, owed: nat, invoked: set<nat>)
    requires At(y, lane, stages, n, b, phase, owed, invoked)
    ensures Shaped(y.s.q)
  {
  }

  lemma SubmitStep(y: Sys, lane: seq<nat>, stages: seq<Stage>, n: nat, b: Breaker, phase: Phase, owed: nat, invoked: set<nat>)
    requires At(y, lane, stages, n, b, phase, owed, invoked) && |lane| + n < 256
    requires var u := UpdateCircuit(CFG, b, 1); u.circuit != Open && (u.circuit == HalfOpen ==> lane == [] && n == 0)
    ensures Shaped(y.s.q) && Enabled(y, SubmitA(TAG))
    ensures var u := UpdateCircuit(CFG, b, 1);
            At(Next(y, SubmitA(TAG)), lane + [|stages|], stages + [Waiting], n, u.(probe := u.probe || u.circuit == HalfOpen),
               phase, owed + 1, invoked)
  {
    var q := y.s.q;
    assert Enqueue(q, TAG, 1, true) == Push(q, TAG, 1, true);
    assert Push(q, TAG, 1, true).lanes == [lane + [|stages|], [], [], []];
    hide UpdateCircuit, Enqueue;
  }

  lemma CompleteStep(y: Sys, lane: seq<nat>, stages: seq<Stage>, n: nat, b: Breaker, phase: Phase, owed: nat, invoked: set<nat>, id: nat, ok: bool)
    requires At(y, lane, stages, n, b, phase, owed, invoked) && id in invoked && id < |stages| && stages[id] == InFlight && n > 0
    ensures Shaped(y.s.q) && Enabled(y, CompleteA(id, ok))
    ensures At(Next(y, CompleteA(id, ok)), lane, stages[id := Finished], n - 1, RecordEnd(CFG, b, ok, 1), phase, owed + 1, invoked)
  {
    hide RecordEnd;
  }

  lemma CallStep(y: Sys, lane: seq<nat>, stages: seq<Stage>, n: nat, b: Breaker, owed: nat, invoked: set<nat>)
    requires At(y, lane, stages, n, b, Idle, owed, invoked) && owed > 0
    ensures Shaped(y.s.q) && Enabled(y, CallPump)
    ensures At(Next(y, CallPump), lane, stages, n, b, AtSelect, owed - 1, invoked)
  {
  }

  lemma InvokeStep(y: Sys, lane: seq<nat>, stages: seq<Stage>, n: nat, b: Breaker, owed: nat, invoked: set<nat>, run: seq<nat>)
    requires At(y, lane, stages, n, b, AtRun(run, 0), owed, invoked) && run != []
    ensures Shaped(y.s.q) && Enabled(y, Invoke)
    ensures At(Next(y, Invoke), lane, stages, n, b, AtRun(run[1..], 0), owed, invoked + {run[0]})
  {
  }

  lemma RestSteps(y: Sys, lane: seq<nat>, stages: seq<Stage>, n: nat, b: Breaker, owed: nat, invoked: set<nat>)
    requires At(y, lane, stages, n, b, AtRun([], 0), owed, invoked)
    ensures Shaped(y.s.q) && Enabled(y, ArmTimer)
    ensures var z := Next(y, ArmTimer);
            Enabled(z, FinishRound) && At(Next(z, FinishRound), lane, stages, n, b, Idle, owed, invoked)
  {
  }

  /** One pick of the selection loop, from the front of the one lane in use. */
  lemma PickFront(q: Queue, lane: seq<nat>)
    requires Shaped(q) && q.lanes == [lane, [], [], []] && lane != []
    ensures PickLane(CFG, q, 1) == 0 && PickId(CFG, q, 0) == lane[0]
    ensures var t := SelectOne(CFG, q, 0, 1);
            && t.lanes == [lane[1..], [], [], []] && |t.last| == LANES && t.inflight == q.inflight + 1
            && t.table == q.table[lane[0] := q.table[lane[0]].(stage := InFlight)]
  {
    assert HighestBelow(q, 4) == HighestBelow(q, 3) == HighestBelow(q, 2) == HighestBelow(q, 1) == 0;
    assert Without(lane, 0) == lane[1..];
  }

  lemma SelectNone(q: Queue, times: seq<nat>)
    requires Shaped(q) && q.lanes == [[], [], [], []]
    ensures SelectLoop(CFG, q, times) == (q, [])
  {
  }

  lemma SelectFront(q: Queue, lane: seq<nat>, times: seq<nat>)
    requires Shaped(q) && q.lanes == [lane, [], [], []] && lane != [] && q.inflight < 3 && times != [] && times[0] == 1
    ensures var t := SelectOne(CFG, q, 0, 1);
            && PickLane(CFG, q, 1) == 0
            && SelectLoop(CFG, q, times) == (SelectLoop(CFG, t, times[1..]).0, [lane[0]] + SelectLoop(CFG, t, times[1..]).1)
  {
    PickFront(q, lane);
  }

  lemma LoopThree(q: Queue)
    requires Shaped(q) && q.lanes == [[0, 1, 2], [], [], []] && q.inflight == 0 && |q.table| == 3
    ensures var (t, run) := SelectLoop(CFG, q, [1, 1, 1]);
            && run == [0, 1, 2] && t.lanes == [[], [], [], []] && |t.last| == LANES && t.inflight == 3
            && t.table == [q.table[0].(stage := InFlight), q.table[1].(stage := InFlight), q.table[2].(stage := InFlight)]
  {
    hide SelectOne, SelectLoop, PickLane, PickId;
    SelectFront(q, [0, 1, 2], [1, 1, 1]);
    PickFront(q, [0, 1, 2]);
    var t := SelectOne(CFG, q, 0, 1);
    assert [0, 1, 2][1..] == [1, 2] && [1, 1, 1][1..] == [1, 1];
    SelectFront(t, [1, 2], [1, 1]);
    PickFront(t, [1, 2]);
    var u := SelectOne(CFG, t, 0, 1);
    assert [1, 2][1..] == [2] && [1, 1][1..] == [1];
    SelectFront(u, [2], [1]);
    PickFront(u, [2]);
    var v := SelectOne(CFG, u, 0, 1);
    assert [2][1..] == [] && [1][1..] == [];
    SelectNone(v, []);
    assert [0] + ([1] + ([2] + [])) == [0, 1, 2];
  }

  lemma SelectThree(y: Sys, b: Breaker, owed: nat)
    requires At(y, [0, 1, 2], [Waiting, Waiting, Waiting], 0, b, AtSelect, owed, {})
    ensures Shaped(y.s.q) && Enabled(y, Select(TIMES))
    ensures At(Next(y, Select(TIMES)), [], [InFlight, InFlight, InFlight], 3, b, AtRun([0, 1, 2], 0), owed, {})
  {
    hide SelectLoop;
    LoopThree(y.s.q);
    assert TIMES[1..] == [1, 1, 1];
  }

  lemma SelectLast(y: Sys, stages: seq<Stage>, b: Breaker, owed: nat, invoked: set<nat>)
    requires |stages| == 4 && At(y, [3], stages, 0, b, AtSelect, owed, invoked)
    ensures Shaped(y.s.q) && Enabled(y, Select(TIMES))
    ensures At(Next(y, Select(TIMES)), [], stages[3 := InFlight], 1, b, AtRun([3], 0), owed, invoked)
  {
    var q := y.s.q;
    hide SelectOne, SelectLoop, PickLane, PickId;
    SelectFront(q, [3], [1, 1, 1]);
    PickFront(q, [3]);
    var t := SelectOne(CFG, q, 0, 1);
    assert [3][1..] == [];
    SelectNone(t, [1, 1]);
    assert TIMES[1..] == [1, 1, 1] && [1, 1, 1][1..] == [1, 1] && [3] + [] == [3];
  }

  // ---------------------------------------------------------------- the run

  ghost predicate Reached(run: seq<Action>, y: Sys)
  {
    Run(Start(CFG, false, 1), run) && Exec(Start(CFG, false, 1), run) == y
  }

  lemma Extend(run: seq<Action>, y: Sys, a: Action)
    requires Reached(run, y) && Shaped(y.s.q) && Enabled(y, a)
    ensures Reached(run + [a], Next(y, a))
  {
    hide Run, Exec, Next, Enabled;
    RunOneMore(Start(CFG, false, 1), run, a);
  }

  const SUBMITTED: seq<Action> := [SubmitA(TAG)] + [SubmitA(TAG)] + [SubmitA(TAG)] + [CallPump] + [Select(TIMES)]
  const STARTED: seq<Action> := SUBMITTED + [Invoke] + [Invoke] + [Invoke] + [ArmTimer] + [FinishRound]
  const OPENED: seq<Action> := STARTED + [CompleteA(0, false)] + [CompleteA(1, false)] + [CompleteA(2, true)]
  const PROBED: seq<Action> := OPENED + [SubmitA(TAG)] + [CallPump] + [Select(TIMES)] + [Invoke]

  const FRESH: Breaker := Breaker(Closed, 0, 0, 0, 0, false)

  lemma AfterStart()
    ensures Reached([], Start(CFG, false, 1)) && At(Start(CFG, false, 1), [], [], 0, FRESH, Idle, 0, {})
  {
  }

  lemma AfterSubmits() returns (y: Sys)
    ensures Reached(SUBMITTED, y) && At(y, [], [InFlight, InFlight, InFlight], 3, FRESH, AtRun([0, 1, 2], 0), 2, {})
  {
    hide At, Reached, Next, Enabled;
    AfterStart();
    var y0 := Start(CFG, false, 1);
    SubmitStep(y0, [], [], 0, FRESH, Idle, 0, {});
    Extend([], y0, SubmitA(TAG));
    assert [] + [SubmitA(TAG)] == [SubmitA(TAG)] && [] + [0] == [0] && [] + [Waiting] == [Waiting];
    var y1 := Next(y0, SubmitA(TAG));
    SubmitStep(y1, [0], [Waiting], 0, FRESH, Idle, 1, {});
    Extend([SubmitA(TAG)], y1, SubmitA(TAG));
    assert [0] + [1] == [0, 1] && [Waiting] + [Waiting] == [Waiting, Waiting];
    var y2 := Next(y1, SubmitA(TAG));
    SubmitStep(y2, [0, 1], [Waiting, Waiting], 0, FRESH, Idle, 2, {});
    Extend([SubmitA(TAG)] + [SubmitA(TAG)], y2, SubmitA(TAG));
    assert [0, 1] + [2] == [0, 1, 2] && [Waiting, Waiting] + [Waiting] == [Waiting, Waiting, Waiting];
    var y3 := Next(y2, SubmitA(TAG));
    CallStep(y3, [0, 1, 2], [Waiting, Waiting, Waiting], 0, FRESH, 3, {});
    Extend([SubmitA(TAG)] + [SubmitA(TAG)] + [SubmitA(TAG)], y3, CallPump);
    var y4 := Next(y3, CallPump);
    SelectThree(y4, FRESH, 2);
    Extend([SubmitA(TAG)] + [SubmitA(TAG)] + [SubmitA(TAG)] + [CallPump], y4, Select(TIMES));
    y := Next(y4, Select(TIMES));
  }

  lemma AfterStarts() returns (y: Sys)
    ensures Reached(STARTED, y) && At(y, [], [InFlight, InFlight, InFlight], 3, FRESH, Idle, 2, {0, 1, 2})
  {
    hide At, Reached, Next, Enabled;
    var y0 := AfterSubmits();
    hide SUBMITTED;
    var stages := [InFlight, InFlight, InFlight];
    InvokeStep(y0, [], stages, 3, FRESH, 2, {}, [0, 1, 2]);
    Extend(SUBMITTED, y0, Invoke);
    assert [0, 1, 2][1..] == [1, 2] && {} + {0} == {0};
    var y1 := Next(y0, Invoke);
    InvokeStep(y1, [], stages, 3, FRESH, 2, {0}, [1, 2]);
    Extend(SUBMITTED + [Invoke], y1, Invoke);
    assert [1, 2][1..] == [2] && {0} + {1} == {0, 1};
    var y2 := Next(y1, Invoke);
    InvokeStep(y2, [], stages, 3, FRESH, 2, {0, 1}, [2]);
    Extend(SUBMITTED + [Invoke] + [Invoke], y2, Invoke);
    assert [2][1..] == [] && {0, 1} + {2} == {0, 1, 2};
    var y3 := Next(y2, Invoke);
    RestSteps(y3, [], stages, 3, FRESH, 2, {0, 1, 2});
    Extend(SUBMITTED + [Invoke] + [Invoke] + [Invoke], y3, ArmTimer);
    var y4 := Next(y3, ArmTimer);
    Extend(SUBMITTED + [Invoke] + [Invoke] + [Invoke] + [ArmTimer], y4, FinishRound);
    y := Next(y4, FinishRound);
  }

  /** Two failures open the circuit, and a late success resets the streak while it is open. */
  lemma AfterOpening() returns (y: Sys)
    ensures Reached(OPENED, y)
    ensures At(y, [], [Finished, Finished, Finished], 0, Breaker(Open, 0, 1, 1, 2, false), Idle, 5, {0, 1, 2})
  {
    hide At, Reached, Next, Enabled;
    var y0 := AfterStarts();
    hide STARTED;
    var invoked := {0, 1, 2};
    CompleteStep(y0, [], [InFlight, InFlight, InFlight], 3, FRESH, Idle, 2, invoked, 0, false);
    Extend(STARTED, y0, CompleteA(0, false));
    assert [InFlight, InFlight, InFlight][0 := Finished] == [Finished, InFlight, InFlight];
    var b1 := RecordEnd(CFG, FRESH, false, 1);
    assert b1 == Breaker(Closed, 1, 0, 0, 1, false);
    var y1 := Next(y0, CompleteA(0, false));
    CompleteStep(y1, [], [Finished, InFlight, InFlight], 2, b1, Idle, 3, invoked, 1, false);
    Extend(STARTED + [CompleteA(0, false)], y1, CompleteA(1, false));
    assert [Finished, InFlight, InFlight][1 := Finished] == [Finished, Finished, InFlight];
    var b2 := RecordEnd(CFG, b1, false, 1);
    assert b2 == Breaker(Open, 2, 1, 0, 2, false);
    var y2 := Next(y1, CompleteA(1, false));
    CompleteStep(y2, [], [Finished, Finished, InFlight], 1, b2, Idle, 4, invoked, 2, true);
    Extend(STARTED + [CompleteA(0, false)] + [CompleteA(1, false)], y2, CompleteA(2, true));
    assert [Finished, Finished, InFlight][2 := Finished] == [Finished, Finished, Finished];
    y := Next(y2, CompleteA(2, true));
  }

  /** The next request is admitted as a probe and started. */
  lemma AfterProbe() returns (y: Sys)
    ensures Reached(PROBED, y)
    ensures At(y, [], [Finished, Finished, Finished, InFlight], 1, Breaker(HalfOpen, 0, 1, 1, 2, true), AtRun([], 0), 5, {0, 1, 2, 3})
  {
    hide At, Reached, Next, Enabled;
    var y0 := AfterOpening();
    hide OPENED;
    var invoked := {0, 1, 2};
    var b, h := Breaker(Open, 0, 1, 1, 2, false), Breaker(HalfOpen, 0, 1, 1, 2, true);
    SubmitStep(y0, [], [Finished, Finished, Finished], 0, b, Idle, 5, invoked);
    Extend(OPENED, y0, SubmitA(TAG));
    assert [] + [3] == [3] && [Finished, Finished, Finished] + [Waiting] == [Finished, Finished, Finished, Waiting];
    var y1 := Next(y0, SubmitA(TAG));
    CallStep(y1, [3], [Finished, Finished, Finished, Waiting], 0, h, 6, invoked);
    Extend(OPENED + [SubmitA(TAG)], y1, CallPump);
    var y2 := Next(y1, CallPump);
    SelectLast(y2, [Finished, Finished, Finished, Waiting], h, 5, invoked);
    Extend(OPENED + [SubmitA(TAG)] + [CallPump], y2, Select(TIMES));
    assert [Finished, Finished, Finished, Waiting][3 := InFlight] == [Finished, Finished, Finished, InFlight];
    var y3 := Next(y2, Select(TIMES));
    InvokeStep(y3, [], [Finished, Finished, Finished, InFlight], 1, h, 5, invoked, [3]);
    Extend(OPENED + [SubmitA(TAG)] + [CallPump] + [Select(TIMES)], y3, Invoke);
    assert [3][1..] == [] && invoked + {3} == {0, 1, 2, 3};
    y := Next(y3, Invoke);
  }

  /**
   With threshold 2: two requests fail and open the circuit, a third succeeds while it
   is open, the fourth is admitted half-open as the only one, and fails; the circuit
   stays half-open.
   */
  lemma FailedProbeNeedNotReopen()
    ensures Run(Start(CFG, false, 1), PROBED)
    ensures var y := Exec(Start(CFG, false, 1), PROBED);
            && y.s.b.circuit == HalfOpen && y.s.b.probe && y.s.q.inflight == 1
            && Shaped(y.s.q) && Enabled(y, CompleteA(3, false)) && y.s.q.table[3].stage == InFlight
            && Next(y, CompleteA(3, false)).s.b.circuit == HalfOpen
  {
    hide PROBED;
    var y := AfterProbe();
    hide Run, Exec, Next, Enabled;
    var h := Breaker(HalfOpen, 0, 1, 1, 2, true);
    CompleteStep(y, [], [Finished, Finished, Finished, InFlight], 1, h, AtRun([], 0), 5, {0, 1, 2, 3}, 3, false);
  }
}
