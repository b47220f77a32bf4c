/** The circuit breaker, exactly: which step moves it where, over every run. */
module SchedulerCircuit {
  import opened SchedulerModel
  import opened SchedulerInvariant
  import opened SchedulerPreservation
  import opened SchedulerSystem
  import opened SchedulerTheorems

  /** The step looks at the clock on behalf of the circuit: a submission past its first checks, or a reading of the statistics. */
  ghost predicate Looks(y: Sys, a: Action)
  {
    match a
    case SubmitA(tag) => 0 <= tag.priority < LANES && !y.s.pump.stopped && y.s.mode != SyncMode
    case SubmitS(tag, _, _) => 0 <= tag.priority < LANES && y.s.mode != AsyncMode
    case Stats => true
    case _ => false
  }

  /** The clock reading of a step that looks or that ends a request. */
  ghost function ReadingOf(y: Sys, a: Action): nat
    requires Enabled(y, a)
  {
    if a.SubmitS? || a.ReleaseS? then a.times[0] else y.now
  }

  ghost function OpenNs(c: Config): nat
  {
    if c.openMs > 0 then c.openMs * NS_PER_MS else 0
  }

  /** A failing end brings the failures in a row, `before` so far, to a positive threshold. */
  ghost predicate Trips(c: Config, y: Sys, a: Action, before: nat)
  {
    Ends(y, a) && !a.ok && c.threshold > 0 && before + 1 >= c.threshold
  }

  /** What the circuit is after a step, in terms of the step, its reading and the failures in a row before it. */
  ghost function CircuitAfter(c: Config, y: Sys, a: Action, before: nat): Circuit
    requires Enabled(y, a)
  {
    if Trips(c, y, a, before) then Open
    else if y.s.b.circuit == HalfOpen && Ends(y, a) && a.ok then Closed
    else if y.s.b.circuit == Open && Looks(y, a) && ReadingOf(y, a) >= y.s.b.openedAt + OpenNs(c) then HalfOpen
    else y.s.b.circuit
  }

  lemma EndMoves(c: Config, y: Sys, a: Action)
    requires Shaped(y.s.q) && Enabled(y, a) && y.s.cfg == Normalize(c) && (a.CompleteA? || a.ReleaseS?)
    ensures var z := Next(y, a);
      && z.s.b.circuit == CircuitAfter(c, y, a, y.s.b.streak)
      && z.s.b.openedAt == (if Trips(c, y, a, y.s.b.streak) then ReadingOf(y, a) else y.s.b.openedAt)
      && z.s.b.completed == y.s.b.completed + (if Ends(y, a) && a.ok then 1 else 0)
      && z.s.b.failed == y.s.b.failed + (if Ends(y, a) && !a.ok then 1 else 0)
  {
    hide Shaped, SelectLoop, Retire, Sorted;
  }

  lemma LookMoves(c: Config, y: Sys, a: Action)
    requires Shaped(y.s.q) && Enabled(y, a) && y.s.cfg == Normalize(c) && (a.SubmitA? || a.SubmitS? || a.Stats?)
    ensures var z := Next(y, a);
      && z.s.b.circuit == CircuitAfter(c, y, a, y.s.b.streak)
      && z.s.b.openedAt == y.s.b.openedAt && z.s.b.completed == y.s.b.completed && z.s.b.failed == y.s.b.failed
  {
    hide Shaped, SelectLoop, Enqueue, Sorted;
  }

  lemma OthersDoNot(c: Config, y: Sys, a: Action)
    requires Shaped(y.s.q) && Enabled(y, a)
    requires !(a.CompleteA? || a.ReleaseS? || a.SubmitA? || a.SubmitS? || a.Stats?)
    ensures Next(y, a).s.b == y.s.b && CircuitAfter(c, y, a, y.s.b.streak) == y.s.b.circuit && !Trips(c, y, a, y.s.b.streak) && !Ends(y, a)
  {
    hide Shaped, SelectLoop, CancelModule, Sorted;
  }

  /**
   In every run, from the configuration given by the caller: the circuit opens exactly on
   a failing end that brings the failures in a row to a positive threshold; it closes
   exactly on a successful end while half-open; it becomes half-open exactly when a
   submission or the statistics look at it at least the open time after it opened; and
   nothing else moves it. The opening time is that of the failure, and every end is
   counted as what it was.
   */
  lemma CircuitExact(c: Config, hook: bool, t0: nat, acts: seq<Action>, a: Action)
    requires t0 > 0 && Run(Start(c, hook, t0), acts) && Enabled(Exec(Start(c, hook, t0), acts), a)
    ensures var y := Exec(Start(c, hook, t0), acts);
      var before := FailuresInARow(Start(c, hook, t0), acts, 0);
      && Shaped(y.s.q) && (acts == [] ==> y.s.b.circuit == Closed)
      && var z := Next(y, a);
         && z.s.b.circuit == CircuitAfter(c, y, a, before)
         && z.s.b.openedAt == (if Trips(c, y, a, before) then ReadingOf(y, a) else y.s.b.openedAt)
         && z.s.b.completed == y.s.b.completed + (if Ends(y, a) && a.ok then 1 else 0)
         && z.s.b.failed == y.s.b.failed + (if Ends(y, a) && !a.ok then 1 else 0)
  {
    assert acts == [] ==> Exec(Start(c, hook, t0), acts).s.b.circuit == Closed;
    hide Run, Exec, Next, Enabled, CircuitAfter, Trips, FailuresInARow, Ends, ReadingOf;
    var y := Exec(Start(c, hook, t0), acts);
    ReachedInv(c, hook, t0, acts);
    assert Inv(y.s, y.now) by { InvOf(y); }
    ShapedFromInv(y.s, y.now);
    RunConfig(Start(c, hook, t0), acts);
    StreakCounts(Start(c, hook, t0), acts);
    hide Inv, SysInv;
    if a.CompleteA? || a.ReleaseS? {
      EndMoves(c, y, a);
    } else if a.SubmitA? || a.SubmitS? || a.Stats? {
      LookMoves(c, y, a);
      LookIsNoEnd(c, y, a);
    } else {
      OthersDoNot(c, y, a);
    }
  }

  lemma LookIsNoEnd(c: Config, y: Sys, a: Action)
    requires a.SubmitA? || a.SubmitS? || a.Stats?
    ensures !Ends(y, a) && !Trips(c, y, a, y.s.b.streak)
  {
  }

  // ---------------------------------------------------------------- admission

  /** The answer to a submission, from the circuit as it is after looking, what is outstanding and the room left. */
  ghost function Answer(c: Config, y: Sys, a: Action, looked: Circuit): Verdict
    requires |y.s.q.lanes| == LANES && (a.SubmitA? || a.SubmitS?)
  {
    var outstanding := Depth(y.s.q.lanes) + y.s.q.inflight;
    if !(0 <= a.tag.priority < LANES) then BadPriority
    else if a.SubmitA? && y.s.pump.stopped then Stopped
    else if y.s.mode == (if a.SubmitA? then SyncMode else AsyncMode) then WrongMode
    else if looked == Open then CircuitOpen
    else if looked == HalfOpen && outstanding > 0 then ProbeBusy
    else if outstanding >= AtLeast(c.maxQueueDepth, 1) then QueueFull
    else Accepted
  }

  lemma AnswerStep(c: Config, y: Sys, a: Action)
    requires Shaped(y.s.q) && Enabled(y, a) && y.s.cfg == Normalize(c) && (a.SubmitA? || a.SubmitS?)
    ensures var v := if a.SubmitA? then SubmitAsync(y.s, a.tag, y.now).1 else SubmitSync(y.s, a.tag, a.queuedAt, a.times).1;
      v == Answer(c, y, a, CircuitAfter(c, y, a, y.s.b.streak))
  {
    hide Shaped, SelectLoop, Enqueue, Sorted;
  }

  lemma AcceptedGrows(y: Sys, a: Action)
    requires SysInv(y) && Shaped(y.s.q) && Enabled(y, a) && (a.SubmitA? || a.SubmitS?)
    ensures var v := if a.SubmitA? then SubmitAsync(y.s, a.tag, y.now).1 else SubmitSync(y.s, a.tag, a.queuedAt, a.times).1;
      Next(y, a).s.q.submitted == y.s.q.submitted + if v == Accepted then 1 else 0
  {
    assert Inv(y.s, y.now) by { InvOf(y); }
    hide SysInv, Sorted, SelectLoop, Enqueue, Admission, UpdateCircuit;
    if 0 <= a.tag.priority < LANES {
      var q, at, isAsync := y.s.q, if a.SubmitA? then y.now else a.queuedAt, a.SubmitA?;
      EnqueueCounts(q, a.tag, at, isAsync);
      if a.SubmitS? {
        EnqueueKeepsQueues(y.s, a.tag, at, y.now);
        SelectLoopFrame(y.s.cfg, Enqueue(q, a.tag, at, isAsync), a.times[1..]);
      }
    }
    hide Inv, Shaped;
  }

  lemma EnqueueCounts(q: Queue, tag: Tag, at: nat, isAsync: bool)
    requires Shaped(q) && 0 <= tag.priority < LANES
    ensures Enqueue(q, tag, at, isAsync).submitted == q.submitted + 1
  {
    SweepFrame(Push(q, tag, at, isAsync), tag.priority, Interruptables);
    hide Sweep, Advanced;
  }

  lemma EnqueueKeepsQueues(s: Sched, tag: Tag, at: nat, now: nat)
    requires Inv(s, now) && 0 <= tag.priority < LANES
    ensures Shaped(s.q) && var u := Enqueue(s.q, tag, at, false); Shaped(u) && Queues(u.lanes, u.table)
  {
    var q, u := s.q, Push(s.q, tag, at, false);
    PushQueues(q, tag, at, false);
    hide Accounts, History, ModeInv, Bounds;
    SweepQueues(u, tag.priority, Interruptables);
  }

  lemma {:induction false} SweepQueues(q: Queue, upTo: nat, v: Victims)
    requires Shaped(q) && Queues(q.lanes, q.table) && upTo <= LANES
    ensures Queues(Sweep(q, upTo, v).lanes, Sweep(q, upTo, v).table)
    decreases upTo
  {
    hide Queues, SweepLane;
    if upTo > 0 {
      SweepQueues(q, upTo - 1, v);
      SweepLaneQueues(Sweep(q, upTo - 1, v), upTo - 1, v);
    }
  }

  /**
   In every run a submission gets exactly the answer that its priority, the stop flag, the
   mode, the circuit, what is outstanding and the configured depth call for, and it is
   taken in exactly when that answer is acceptance.
   */
  lemma AdmissionExact(c: Config, hook: bool, t0: nat, acts: seq<Action>, a: Action)
    requires t0 > 0 && Run(Start(c, hook, t0), acts) && Enabled(Exec(Start(c, hook, t0), acts), a) && (a.SubmitA? || a.SubmitS?)
    ensures var y := Exec(Start(c, hook, t0), acts);
      var looked := CircuitAfter(c, y, a, FailuresInARow(Start(c, hook, t0), acts, 0));
      && Shaped(y.s.q)
      && (a.SubmitA? ==> SubmitAsync(y.s, a.tag, y.now).1 == Answer(c, y, a, looked))
      && (a.SubmitS? ==> SubmitSync(y.s, a.tag, a.queuedAt, a.times).1 == Answer(c, y, a, looked))
      && Next(y, a).s.q.submitted == y.s.q.submitted + if Answer(c, y, a, looked) == Accepted then 1 else 0
  {
    var y := Exec(Start(c, hook, t0), acts);
    ReachedInv(c, hook, t0, acts);
    assert Inv(y.s, y.now) by { InvOf(y); }
    ShapedFromInv(y.s, y.now);
    hide Run, Exec, CircuitAfter, FailuresInARow, Answer, Inv, SysInv, SubmitAsync, SubmitSync, Next;
    RunConfig(Start(c, hook, t0), acts);
    StreakCounts(Start(c, hook, t0), acts);
    AnswerStep(c, y, a);
    AcceptedGrows(y, a);
  }

  /** In any state a submission that passes its first checks fixes the mode, even if it is then refused; nothing else moves it. */
  lemma ModeExact(y: Sys, a: Action)
    requires Shaped(y.s.q) && Enabled(y, a)
    ensures Next(y, a).s.mode == if !Looks(y, a) || a.Stats? then y.s.mode else if a.SubmitA? then AsyncMode else SyncMode
  {
    hide Shaped, SelectLoop, Enqueue, Sorted, Retire, CancelModule, UpdateCircuit, Admission;
  }
}
