/** What holds in every run of the scheduler, whatever its callers do and whenever they do it. */
module SchedulerTheorems {
  import opened SchedulerModel
  import opened SchedulerInvariant
  import opened SchedulerPreservation
  import opened SchedulerSystem

  function AtLeast(n: int, low: int): int
  {
    if n < low then low else n
  }

  /** The limits in force are the caller's, with queue and slots at least one and times at least zero. */
  lemma ReachedConfig(c: Config, hook: bool, t0: nat, acts: seq<Action>)
    requires Run(Start(c, hook, t0), acts)
    ensures var s := Exec(Start(c, hook, t0), acts).s;
      && s.cfg == Config(AtLeast(c.gapMs, 0), AtLeast(c.maxQueueDepth, 1), AtLeast(c.maxInflight, 1), c.guardMs, c.fifo,
                         c.threshold, AtLeast(c.openMs, 0))
      && s.hook == hook
  {
    RunConfig(Start(c, hook, t0), acts);
    hide Run, Exec;
  }

  lemma ReachedInv(c: Config, hook: bool, t0: nat, acts: seq<Action>)
    requires t0 > 0 && Run(Start(c, hook, t0), acts)
    ensures SysInv(Exec(Start(c, hook, t0), acts))
  {
    StartInv(c, hook, t0);
    RunInv(Start(c, hook, t0), acts);
  }

  // ---------------------------------------------------------------- no lost wake-up

  /**
   In event-driven mode, a queued request that could be served is never left to
   itself: a pump is about to select or has been told to go again, a submitter or
   completer still owes a pump call, or exactly one gap timer is pending. In
   blocking mode nothing serviceable is left waiting at all.
   */
  lemma NoStrandedRequest(c: Config, hook: bool, t0: nat, acts: seq<Action>)
    requires t0 > 0 && Run(Start(c, hook, t0), acts)
    ensures var y := Exec(Start(c, hook, t0), acts);
      && Shaped(y.s.q)
      && (Serviceable(y) && !y.s.pump.stopped && y.s.mode == AsyncMode ==>
            || y.phase == AtSelect
            || (y.phase != Idle && y.s.pump.repump)
            || y.owed > 0
            || (if y.phase.AtRun? && y.phase.delayMs > 0 then 1 else 0) + y.armed + y.fired == 1)
      && (y.s.mode == SyncMode ==> !Serviceable(y))
  {
    ReachedInv(c, hook, t0, acts);
    ShapedFromInv(Exec(Start(c, hook, t0), acts).s, Exec(Start(c, hook, t0), acts).now);
    hide Inv, LaunchInv, QuietInv;
  }

  /** A move of the pump itself, as opposed to a new request, a completion or a timer. */
  predicate PumpMove(a: Action)
  {
    a.CallPump? || a.CallTimerPump? || a.Select? || a.Invoke? || a.ArmTimer? || a.FinishRound?
  }

  /** A move of the pump, or the first completion of a request, inline or on another thread. */
  ghost predicate Progress(y: Sys, a: Action)
  {
    PumpMove(a) || (a.CompleteA? && a.id < |y.s.q.table| && y.s.q.table[a.id].stage == InFlight)
  }

  ghost predicate Progressing(y: Sys, acts: seq<Action>)
    requires Run(y, acts)
    decreases |acts|
  {
    acts == [] || (Progress(y, acts[0]) && Progressing(Next(y, acts[0]), acts[1..]))
  }

  ghost function Rank(y: Sys): nat
    requires Shaped(y.s.q)
  {
    10 * (y.owed + y.fired) + (if y.s.pump.repump then 6 else 0) + 16 * Depth(y.s.q.lanes) + 12 * y.s.q.inflight
    + match y.phase { case Idle => 0 case AtSelect => 4 case AtRun(run, _) => 2 + |run| case AtFinish => 1 }
  }

  /** Every move of the pump and every first completion lowers the rank. */
  lemma RankDrops(y: Sys, a: Action)
    requires SysInv(y) && Enabled(y, a) && Progress(y, a)
    ensures Shaped(Next(y, a).s.q)
    ensures Rank(Next(y, a)) < Rank(y)
  {
    if a.CompleteA? {
      CompletionDrops(y, a.id, a.ok);
    } else {
      hide Accounts, History, ModeInv, NoStall, Queues, SelectLoop, Bounds, LaunchInv;
      if a.Select? { SelectLoopFrame(y.s.cfg, y.s.q, a.times[1..]); }
    }
  }

  lemma CompletionDrops(y: Sys, id: nat, ok: bool)
    requires SysInv(y) && Enabled(y, CompleteA(id, ok)) && y.s.q.table[id].stage == InFlight
    ensures Shaped(y.s.q) && Shaped(Next(y, CompleteA(id, ok)).s.q)
    ensures Rank(Next(y, CompleteA(id, ok))) < Rank(y)
  {
    RetireInv(y.s.cfg, y.s.q, id, y.now, y.s.b.completed + y.s.b.failed, EnforcedGap(y.s.cfg, y.s.hook, y.s.mode));
    hide Accounts, History, ModeInv, NoStall, Queues, SelectLoop, Bounds, LaunchInv, RecordEnd;
  }

  /**
   Between submissions and timers the scheduler comes to rest: pump moves and first
   completions together are bounded, so completions that re-enter the pump inline
   cannot make it spin.
   */
  lemma {:induction false} PumpDrains(y: Sys, acts: seq<Action>)
    requires SysInv(y) && Run(y, acts) && Progressing(y, acts)
    ensures Shaped(y.s.q) && |acts| <= Rank(y)
    decreases |acts|
  {
    ShapedFromInv(y.s, y.now);
    hide SysInv, Next, Enabled, Rank, Progress;
    if acts != [] {
      StepInv(y, acts[0]);
      RankDrops(y, acts[0]);
      PumpDrains(Next(y, acts[0]), acts[1..]);
    }
  }

  /** At rest, every slot is taken, or every lane is empty, or the gap timer is armed. */
  lemma RestIsServed(c: Config, hook: bool, t0: nat, acts: seq<Action>)
    requires t0 > 0 && Run(Start(c, hook, t0), acts)
    ensures var y := Exec(Start(c, hook, t0), acts);
      && Shaped(y.s.q)
      && (!y.s.pump.stopped && y.phase == Idle && y.owed == 0 && y.fired == 0 ==>
            y.s.q.inflight == y.s.cfg.maxInflight || Depth(y.s.q.lanes) == 0 || y.armed == 1)
  {
    ReachedInv(c, hook, t0, acts);
    var y := Exec(Start(c, hook, t0), acts);
    ShapedFromInv(y.s, y.now);
    if y.s.mode == Unset { EmptyQueue(y.s, y.now); }
    hide Queues, Accounts, History, ModeInv, LaunchInv;
  }

  // ---------------------------------------------------------------- conservation and capacity

  /** Every accepted request is queued, in flight, succeeded, failed or cancelled, and the limits hold. */
  lemma Conservation(c: Config, hook: bool, t0: nat, acts: seq<Action>)
    requires t0 > 0 && Run(Start(c, hook, t0), acts)
    ensures var s := Exec(Start(c, hook, t0), acts).s;
      && Shaped(s.q)
      && s.q.submitted == Depth(s.q.lanes) + s.q.inflight + s.b.completed + s.b.failed + s.q.cancelled
      && s.q.inflight <= AtLeast(c.maxInflight, 1)
      && Depth(s.q.lanes) + s.q.inflight <= AtLeast(c.maxQueueDepth, 1)
  {
    ReachedConfig(c, hook, t0, acts);
    ReachedInv(c, hook, t0, acts);
    var s := Exec(Start(c, hook, t0), acts).s;
    CountTotal(s.q.table);
    hide Queues, History, ModeInv, Count;
  }

  /** The lanes hold exactly the waiting requests, and each waiting request exactly once. */
  lemma NothingForgotten(c: Config, hook: bool, t0: nat, acts: seq<Action>, id: nat)
    requires t0 > 0 && Run(Start(c, hook, t0), acts)
    requires id < |Exec(Start(c, hook, t0), acts).s.q.table|
    ensures var q := Exec(Start(c, hook, t0), acts).s.q;
      && |q.lanes| == LANES
      && (q.table[id].stage == Waiting <==> exists p :: 0 <= p < LANES && id in q.lanes[p])
      && (forall p, i, r, j ::
            (0 <= p < LANES && 0 <= r < LANES && 0 <= i < |q.lanes[p]| && 0 <= j < |q.lanes[r]|
             && q.lanes[p][i] == q.lanes[r][j]) ==> p == r && i == j)
  {
    ReachedInv(c, hook, t0, acts);
    var q := Exec(Start(c, hook, t0), acts).s.q;
    hide Accounts, History, ModeInv, Bounds;
    assert Held(q.lanes, q.table, id);
    forall p, i | 0 <= p < LANES && 0 <= i < |q.lanes[p]|
      ensures q.lanes[p][i] < |q.table| && q.table[q.lanes[p][i]].stage == Waiting
           && q.table[q.lanes[p][i]].tag.priority == p
    {
      assert LaneOk(q.lanes[p], q.table, p);
    }
    forall p, i, r, j | 0 <= p < LANES && 0 <= r < LANES && 0 <= i < |q.lanes[p]| && 0 <= j < |q.lanes[r]|
                        && q.lanes[p][i] == q.lanes[r][j]
      ensures p == r && i == j
    {
      assert LaneOk(q.lanes[p], q.table, p);
    }
  }

  /** No request is selected twice or completes twice, and a completed one is neither queued nor cancelled. */
  lemma CompletedAtMostOnce(c: Config, hook: bool, t0: nat, acts: seq<Action>, i: nat, j: nat)
    requires t0 > 0 && Run(Start(c, hook, t0), acts)
    requires i < j < |Exec(Start(c, hook, t0), acts).s.q.trace|
    ensures var q := Exec(Start(c, hook, t0), acts).s.q;
      && (q.trace[i].Picked? == q.trace[j].Picked? ==> q.trace[i].id != q.trace[j].id)
      && (q.trace[i].Completion? ==> q.trace[i].id < |q.table| && q.table[q.trace[i].id].stage == Finished)
  {
    ReachedInv(c, hook, t0, acts);
    hide Queues, Accounts, ModeInv, Bounds, Answered, Serialised;
  }

  lemma {:induction false} RunGrows(y: Sys, acts: seq<Action>)
    requires SysInv(y) && Run(y, acts)
    ensures Grown(y.s.q.table, Exec(y, acts).s.q.table)
    decreases |acts|
  {
    hide SysInv, Next, Enabled, Grown;
    if acts == [] {
      GrownSame(y.s.q.table);
    } else {
      StepInv(y, acts[0]);
      TableStep(y, acts[0]);
      RunGrows(Next(y, acts[0]), acts[1..]);
      GrownTrans(y.s.q.table, Next(y, acts[0]).s.q.table, Exec(y, acts).s.q.table);
    }
  }

  /**
   Between any two states of a run a request only moves forward: a finished or
   cancelled one stays so, and an accepted event-driven one is never cancelled.
   */
  lemma EndsAreFinal(y: Sys, acts: seq<Action>, id: nat)
    requires SysInv(y) && Run(y, acts) && id < |y.s.q.table|
    ensures var before, after := y.s.q.table, Exec(y, acts).s.q.table;
      && id < |after|
      && after[id].tag == before[id].tag
      && (before[id].stage in {Finished, Cancelled} ==> after[id].stage == before[id].stage)
      && (before[id].stage == InFlight ==> after[id].stage in {InFlight, Finished})
      && (before[id].isAsync && before[id].stage != Cancelled ==> after[id].stage != Cancelled)
  {
    RunGrows(y, acts);
    hide SysInv, Run, Exec;
    var before, after := y.s.q.table, Exec(y, acts).s.q.table;
    assert after[id].(stage := Waiting) == before[id].(stage := Waiting);
  }

  // ---------------------------------------------------------------- half-duplex timing

  /** With the hook installed, every event-driven selection keeps the gap to every earlier completion. */
  lemma HalfDuplexGap(c: Config, t0: nat, acts: seq<Action>, i: nat, j: nat)
    requires t0 > 0 && Run(Start(c, true, t0), acts)
    requires Exec(Start(c, true, t0), acts).s.mode == AsyncMode
    requires i < j < |Exec(Start(c, true, t0), acts).s.q.trace|
    ensures var s := Exec(Start(c, true, t0), acts).s;
      c.gapMs > 0 && s.q.trace[i].Completion? && s.q.trace[j].Picked?
      ==> s.q.trace[j].at >= s.q.trace[i].at + c.gapMs * NS_PER_MS
  {
    ReachedInv(c, true, t0, acts);
    ReachedConfig(c, true, t0, acts);
    hide Queues, Accounts, ModeInv, Bounds, Answered, Serialised, Once, Run, Exec;
  }

  lemma ConfigStep(y: Sys, a: Action)
    requires Shaped(y.s.q) && Enabled(y, a)
    ensures Next(y, a).s.cfg == y.s.cfg && Next(y, a).s.hook == y.s.hook
  {
    hide Shaped, SelectLoop, Enqueue, CancelModule, Retire, Admission, RecordEnd, UpdateCircuit;
  }

  lemma {:induction false} RunConfig(y: Sys, acts: seq<Action>)
    requires Run(y, acts)
    ensures Exec(y, acts).s.cfg == y.s.cfg && Exec(y, acts).s.hook == y.s.hook
    decreases |acts|
  {
    hide Next, Enabled;
    if acts != [] {
      ConfigStep(y, acts[0]);
      RunConfig(Next(y, acts[0]), acts[1..]);
    }
  }

  /**
   With one slot the selection-to-completion intervals of a whole run are
   disjoint: between two selections the first one's request completes, and with
   the hook installed the second selection comes at least the gap later.
   */
  lemma SerialIntervals(c: Config, hook: bool, t0: nat, acts: seq<Action>, i: nat, j: nat)
    requires t0 > 0 && Run(Start(c, hook, t0), acts)
    requires c.maxInflight <= 1
    requires i < j < |Exec(Start(c, hook, t0), acts).s.q.trace|
    requires Exec(Start(c, hook, t0), acts).s.q.trace[i].Picked? && Exec(Start(c, hook, t0), acts).s.q.trace[j].Picked?
    ensures var s := Exec(Start(c, hook, t0), acts).s;
      exists k :: i < k < j && s.q.trace[k] == Completion(s.q.trace[i].id, s.q.trace[k].at)
        && (hook && s.mode == AsyncMode && c.gapMs > 0 ==> s.q.trace[j].at >= s.q.trace[k].at + c.gapMs * NS_PER_MS)
  {
    ReachedConfig(c, hook, t0, acts);
    ReachedInv(c, hook, t0, acts);
    var s := Exec(Start(c, hook, t0), acts).s;
    assert CompletedWithin(s.q.trace, s.q.trace[i].id, i, j);
    var k :| i < k < j && k < |s.q.trace| && s.q.trace[k].Completion? && s.q.trace[k].id == s.q.trace[i].id;
    if hook && s.mode == AsyncMode { HalfDuplexGap(c, t0, acts, k, j); }
  }

  // ---------------------------------------------------------------- scheduler kinds and stopping

  /** The serial kind has one slot whatever is configured, so its intervals are always disjoint. */
  lemma SerialKindIntervals(c: Config, hook: bool, t0: nat, acts: seq<Action>, i: nat, j: nat)
    requires t0 > 0 && Run(Start(MakeScheduler(Serial, c), hook, t0), acts)
    requires i < j < |Exec(Start(MakeScheduler(Serial, c), hook, t0), acts).s.q.trace|
    requires var trace := Exec(Start(MakeScheduler(Serial, c), hook, t0), acts).s.q.trace; trace[i].Picked? && trace[j].Picked?
    ensures var s := Exec(Start(MakeScheduler(Serial, c), hook, t0), acts).s;
      exists k :: i < k < j && s.q.trace[k] == Completion(s.q.trace[i].id, s.q.trace[k].at)
  {
    var d := MakeScheduler(Serial, c);
    hide Run, Exec;
    SerialIntervals(d, hook, t0, acts, i, j);
  }

  /**
   The limits of the three kinds: one slot for the serial kind and the configured slots
   for the others, at least one; a starvation guard for the priority kind alone, the
   configured one or else 5000 ms; everything else as configured. Without a guard the
   highest lane that is not empty is served.
   */
  lemma KindLimits(kind: Flavour, c: Config, hook: bool, t0: nat, acts: seq<Action>, now: nat)
    requires t0 > 0 && Run(Start(MakeScheduler(kind, c), hook, t0), acts)
    ensures var s := Exec(Start(MakeScheduler(kind, c), hook, t0), acts).s;
      && Shaped(s.q)
      && s.cfg.maxInflight == (if kind == Serial then 1 else AtLeast(c.maxInflight, 1))
      && s.cfg.guardMs == (if kind != Priority then 0 else if c.guardMs > 0 then c.guardMs else 5000)
      && s.cfg.gapMs == AtLeast(c.gapMs, 0) && s.cfg.openMs == AtLeast(c.openMs, 0)
      && s.cfg.maxQueueDepth == AtLeast(c.maxQueueDepth, 1) && s.cfg.fifo == c.fifo && s.cfg.threshold == c.threshold
      && (kind != Priority ==> PickLane(s.cfg, s.q, now) == HighestBelow(s.q, LANES))
  {
    var d := MakeScheduler(kind, c);
    ReachedInv(d, hook, t0, acts);
    ReachedConfig(d, hook, t0, acts);
    var y := Exec(Start(d, hook, t0), acts);
    ShapedFromInv(y.s, y.now);
    hide Run, Exec, SysInv;
  }

  /** Only completions are added. */
  ghost predicate OnlyEnds(before: seq<Event>, after: seq<Event>)
  {
    before <= after && forall k :: |before| <= k < |after| ==> after[k].Completion?
  }

  lemma StoppedStep(y: Sys, a: Action)
    requires SysInv(y) && Enabled(y, a) && y.s.pump.stopped && y.s.mode == AsyncMode
    ensures var z := Next(y, a);
      && z.s.pump.stopped && z.s.mode == AsyncMode
      && z.s.q.submitted == y.s.q.submitted && OnlyEnds(y.s.q.trace, z.s.q.trace)
  {
    hide Queues, PumpInv, NoStall, QuietInv, LaunchInv, Accounts, History, ModeInv, Bounds, SelectLoop, Enqueue, Sweep;
    match a
    case SubmitS(tag, queuedAt, times) => SubmitSyncFrame(y.s, tag, queuedAt, times);
    case ReleaseS(id, ok, doneAt, times) => ModeOfRow(y.s, y.now, id);
    case Cancel(moduleId) => SweepFrame(y.s.q, LANES, OfModule(moduleId));
    case _ =>
  }

  /** After a stop nothing event-driven is admitted or selected any more; what is in flight may still complete. */
  lemma {:induction false} NothingAfterStop(y: Sys, acts: seq<Action>)
    requires SysInv(y) && Run(y, acts) && y.s.pump.stopped && y.s.mode == AsyncMode
    ensures var z := Exec(y, acts);
      z.s.q.submitted == y.s.q.submitted && OnlyEnds(y.s.q.trace, z.s.q.trace)
    decreases |acts|
  {
    hide SysInv, Next, Enabled;
    if acts != [] {
      StepInv(y, acts[0]);
      StoppedStep(y, acts[0]);
      NothingAfterStop(Next(y, acts[0]), acts[1..]);
    }
  }

  // ---------------------------------------------------------------- circuit breaker

  /** Closed means fewer failures in a row than the threshold; a half-open probe is alone. */
  lemma BreakerSafety(c: Config, hook: bool, t0: nat, acts: seq<Action>)
    requires t0 > 0 && Run(Start(c, hook, t0), acts)
    ensures var s := Exec(Start(c, hook, t0), acts).s;
      && |s.q.lanes| == LANES
      && (c.threshold > 0 && s.b.circuit == Closed ==> s.b.streak < c.threshold)
      && (s.b.circuit == HalfOpen && s.b.probe ==> Depth(s.q.lanes) + s.q.inflight <= 1)
  {
    ReachedConfig(c, hook, t0, acts);
    ReachedInv(c, hook, t0, acts);
    hide Queues, Accounts, History, ModeInv, Bounds;
  }

  /** A submission is admitted only by a circuit that is not open, and by a half-open one only when idle. */
  ghost predicate Admitted(s: Sched, t: Sched, now: nat)
    requires |s.q.lanes| == LANES
  {
    && t.b.circuit == UpdateCircuit(s.cfg, s.b, now).circuit
    && t.b.openedAt == s.b.openedAt
    && (t.q.submitted != s.q.submitted ==>
          && t.b.circuit != Open
          && (t.b.circuit == HalfOpen ==> t.b.probe && s.q.inflight == 0 && Depth(s.q.lanes) == 0))
  }

  lemma SubmitAsyncAdmits(s: Sched, tag: Tag, now: nat)
    requires Shaped(s.q)
    ensures var (t, v) := SubmitAsync(s, tag, now);
      if v in {BadPriority, Stopped, WrongMode} then t == s else Admitted(s, t, now)
  {
    hide Enqueue;
  }

  lemma SubmitSyncAdmits(s: Sched, tag: Tag, queuedAt: nat, times: seq<nat>)
    requires Shaped(s.q) && times != []
    ensures var (t, v) := SubmitSync(s, tag, queuedAt, times);
      if v in {BadPriority, WrongMode} then t == s else Admitted(s, t, times[0])
  {
    hide Enqueue, SelectLoop;
  }

  /** What one step may do to the circuit. */
  ghost predicate CircuitMove(y: Sys, z: Sys)
    requires |y.s.q.lanes| == LANES
  {
    && y.now <= z.now
    && y.s.b.openedAt <= z.s.b.openedAt
    && (y.s.b.circuit == Open && z.s.b.circuit != Open ==>
          z.now >= y.s.b.openedAt + y.s.cfg.openMs * NS_PER_MS)
    && (z.s.q.submitted != y.s.q.submitted ==>
          && z.s.b.circuit != Open
          && (z.s.b.circuit == HalfOpen ==>
                z.s.b.probe && y.s.q.inflight == 0 && Depth(y.s.q.lanes) == 0))
  }

  /**
   Nothing is admitted while the circuit is open; it leaves Open only after the
   configured open time; and a half-open circuit admits only when nothing is outstanding.
   */
  lemma BreakerStep(c: Config, hook: bool, t0: nat, acts: seq<Action>, a: Action)
    requires t0 > 0 && Run(Start(c, hook, t0), acts) && Enabled(Exec(Start(c, hook, t0), acts), a)
    ensures var y := Exec(Start(c, hook, t0), acts);
      && Shaped(y.s.q)
      && var z := Next(y, a);
         && (y.s.b.circuit == Open && z.s.b.circuit != Open ==>
               z.now >= y.s.b.openedAt + AtLeast(c.openMs, 0) * NS_PER_MS)
         && (z.s.q.submitted != y.s.q.submitted ==>
               && z.s.b.circuit != Open
               && (z.s.b.circuit == HalfOpen ==> z.s.b.probe && y.s.q.inflight == 0 && Depth(y.s.q.lanes) == 0))
  {
    hide Run, Exec, Next, Enabled, SysInv;
    ReachedInv(c, hook, t0, acts);
    ReachedConfig(c, hook, t0, acts);
    StepMove(Exec(Start(c, hook, t0), acts), a);
  }

  lemma StepMove(y: Sys, a: Action)
    requires SysInv(y) && Enabled(y, a)
    ensures Shaped(y.s.q) && CircuitMove(y, Next(y, a))
  {
    ShapedFromInv(y.s, y.now);
    hide SysInv, Enabled, Next, CircuitMove;
    if a.SubmitA? || a.SubmitS? { SubmitMove(y, a); }
    else if a.ReleaseS? { ReleaseMove(y, a.id, a.ok, a.doneAt, a.times); }
    else if a.Select? { SelectMove(y, a.times); }
    else if a.Cancel? { CancelMove(y, a.moduleId); }
    else { OtherMove(y, a); }
  }

  lemma SubmitMove(y: Sys, a: Action)
    requires SysInv(y) && Enabled(y, a) && (a.SubmitA? || a.SubmitS?)
    ensures Shaped(y.s.q) && CircuitMove(y, Next(y, a))
  {
    assert Inv(y.s, y.now);
    hide SysInv, Inv, SubmitAsync, SubmitSync, Readings;
    ShapedFromInv(y.s, y.now);
    if a.SubmitA? {
      SubmitAsyncAdmits(y.s, a.tag, y.now);
    } else {
      FirstReading(y, a.times);
      SubmitSyncAdmits(y.s, a.tag, a.queuedAt, a.times);
    }
  }

  lemma ReleaseMove(y: Sys, id: nat, ok: bool, doneAt: nat, times: seq<nat>)
    requires SysInv(y) && Enabled(y, ReleaseS(id, ok, doneAt, times))
    ensures Shaped(y.s.q) && CircuitMove(y, Next(y, ReleaseS(id, ok, doneAt, times)))
  {
    assert Inv(y.s, y.now) && y.s.b.openedAt <= y.now;
    hide SysInv, Inv, SelectLoop, Readings, Queues, Advanced;
    ShapedFromInv(y.s, y.now);
    FirstReading(y, times);
    RetireQueues(y.s.q, id, doneAt);
    SelectLoopFrame(y.s.cfg, Retire(y.s.q, id, doneAt), times[1..]);
  }

  lemma SelectMove(y: Sys, times: seq<nat>)
    requires SysInv(y) && Enabled(y, Select(times))
    ensures Shaped(y.s.q) && CircuitMove(y, Next(y, Select(times)))
  {
    assert Inv(y.s, y.now) && y.s.b.openedAt <= y.now;
    hide SysInv, Inv, SelectLoop, Readings, Queues, Advanced;
    ShapedFromInv(y.s, y.now);
    FirstReading(y, times);
    SelectLoopFrame(y.s.cfg, y.s.q, times[1..]);
  }

  lemma CancelFrame(q: Queue, moduleId: string)
    requires Shaped(q)
    ensures CancelModule(q, moduleId).submitted == q.submitted
  {
    hide Sweep, Advanced, Shaped;
    SweepFrame(q, LANES, OfModule(moduleId));
  }

  lemma CancelMove(y: Sys, moduleId: string)
    requires SysInv(y)
    ensures Shaped(y.s.q) && CircuitMove(y, Next(y, Cancel(moduleId)))
  {
    hide SysInv, CancelModule, UpdateCircuit;
    assert Inv(y.s, y.now) by { InvOf(y); }
    ShapedFromInv(y.s, y.now);
    hide Inv;
    CancelFrame(y.s.q, moduleId);
  }

  lemma InvOf(y: Sys)
    requires SysInv(y)
    ensures Inv(y.s, y.now)
  {
    hide Inv, NoStall, PumpInv, LaunchInv, QuietInv;
  }

  lemma OtherMove(y: Sys, a: Action)
    requires SysInv(y) && Enabled(y, a)
    requires !(a.SubmitA? || a.SubmitS? || a.ReleaseS? || a.Select? || a.Cancel?)
    ensures Shaped(y.s.q) && CircuitMove(y, Next(y, a))
  {
    ShapedFromInv(y.s, y.now);
    assert y.s.b.openedAt <= y.now;
    hide SysInv, Inv;
  }

  lemma FirstReading(y: Sys, times: seq<nat>)
    requires Readings(y, times)
    ensures times != [] && y.now <= times[0] <= LastTime(times, y.now)
  {
    TailSorted(times, y.now);
  }

  /** Over every run the circuit stays open at least the configured time after the failure that opened it. */
  lemma OpenLasts(c: Config, hook: bool, t0: nat, acts: seq<Action>, more: seq<Action>)
    requires t0 > 0 && Run(Start(c, hook, t0), acts) && Run(Exec(Start(c, hook, t0), acts), more)
    requires Exec(Start(c, hook, t0), acts).s.b.circuit == Open
    ensures var y := Exec(Start(c, hook, t0), acts);
      var z := Exec(y, more);
      z.s.b.circuit == Open || z.now >= y.s.b.openedAt + AtLeast(c.openMs, 0) * NS_PER_MS
  {
    hide Run, Exec, SysInv;
    ReachedInv(c, hook, t0, acts);
    ReachedConfig(c, hook, t0, acts);
    OpenKept(Exec(Start(c, hook, t0), acts), more);
  }

  lemma {:induction false} OpenKept(y: Sys, acts: seq<Action>)
    requires SysInv(y) && Run(y, acts) && y.s.b.circuit == Open
    ensures var z := Exec(y, acts);
      z.s.b.circuit == Open || z.now >= y.s.b.openedAt + y.s.cfg.openMs * NS_PER_MS
    decreases |acts|
  {
    hide SysInv, Next, Enabled;
    if acts != [] {
      var z := Next(y, acts[0]);
      StepInv(y, acts[0]);
      StepMove(y, acts[0]);
      RunConfig(y, [acts[0]]);
      if z.s.b.circuit == Open {
        OpenKept(z, acts[1..]);
      } else {
        RunTime(z, acts[1..]);
      }
    }
  }

  lemma {:induction false} RunTime(y: Sys, acts: seq<Action>)
    requires SysInv(y) && Run(y, acts)
    ensures y.now <= Exec(y, acts).now
    decreases |acts|
  {
    hide SysInv, Next, Enabled;
    if acts != [] {
      StepInv(y, acts[0]);
      CoreStep(y, acts[0]);
      RunTime(Next(y, acts[0]), acts[1..]);
    }
  }

  /** The step that ends a request: a first completion, or the end of a blocking request. */
  ghost predicate Ends(y: Sys, a: Action)
  {
    a.ReleaseS? || (a.CompleteA? && a.id < |y.s.q.table| && y.s.q.table[a.id].stage != Finished)
  }

  /** Failures since the last success of a run, when `before` of them came before it. */
  ghost function FailuresInARow(y: Sys, acts: seq<Action>, before: nat): nat
    requires Run(y, acts)
    decreases |acts|
  {
    if acts == [] then before
    else
      var n := if !Ends(y, acts[0]) then before else if acts[0].ok then 0 else before + 1;
      FailuresInARow(Next(y, acts[0]), acts[1..], n)
  }

  lemma StreakStep(y: Sys, a: Action)
    requires Shaped(y.s.q) && Enabled(y, a)
    ensures Next(y, a).s.b.streak == if !Ends(y, a) then y.s.b.streak else if a.ok then 0 else y.s.b.streak + 1
  {
    hide Shaped, SelectLoop, Enqueue, Sweep, Retire, Admission;
  }

  /** The error streak is the number of failures since the last success, over any run. */
  lemma {:induction false} StreakCounts(y: Sys, acts: seq<Action>)
    requires Run(y, acts)
    ensures Exec(y, acts).s.b.streak == FailuresInARow(y, acts, y.s.b.streak)
    decreases |acts|
  {
    hide Next, Enabled, Ends;
    if acts != [] {
      StreakStep(y, acts[0]);
      StreakCounts(Next(y, acts[0]), acts[1..]);
    }
  }

  /**
   In any state of any run in which the circuit is half-open, the failure of a request,
   event-driven or blocking,
   reopens it exactly when the failures since the last success of the run, with this
   one, reach the threshold; otherwise it stays half-open. A success that arrived while
   the circuit was open counts, so a failed probe need not reopen it.
   */
  lemma FailedProbeReopens(c: Config, hook: bool, t0: nat, acts: seq<Action>, a: Action)
    requires t0 > 0 && Run(Start(c, hook, t0), acts) && c.threshold > 0
    requires var y := Exec(Start(c, hook, t0), acts);
      y.s.b.circuit == HalfOpen && Enabled(y, a) && Ends(y, a) && !a.ok
    ensures var y := Exec(Start(c, hook, t0), acts);
      && Shaped(y.s.q)
      && var z := Next(y, a);
         && (z.s.b.circuit == Open <==> FailuresInARow(Start(c, hook, t0), acts, 0) + 1 >= c.threshold)
         && z.s.b.circuit in {Open, HalfOpen}
  {
    ReachedInv(c, hook, t0, acts);
    StartInv(c, hook, t0);
    RunConfig(Start(c, hook, t0), acts);
    StreakCounts(Start(c, hook, t0), acts);
    hide Run, Exec, FailuresInARow;
    var y := Exec(Start(c, hook, t0), acts);
    ShapedFromInv(y.s, y.now);
    hide SysInv, Shaped, Retire, SelectLoop;
  }
}
