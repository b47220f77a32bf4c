/**
 The scheduler under every interleaving of its callers: blocking and
 event-driven submitters, completions on any thread (also duplicate ones and
 ones that re-enter the pump), gap timers, cancellation and shutdown.

 A step is one locked section or one move of the pump between two of them.
 A thread that has left a locked section and still has to call pump is counted
 in `owed`; a gap timer is `armed` and, once its callback runs, `fired`.
 */
module SchedulerSystem {
  import opened SchedulerModel
  import opened SchedulerInvariant
  import opened SchedulerPreservation

  // Where the one running pump is: before its selection, running its batch
  // (and arming a timer after it), or before the check for another round.
  datatype Phase = Idle | AtSelect | AtRun(toRun: seq<nat>, delayMs: nat) | AtFinish

  datatype Sys = Sys(
    s: Sched,
    now: nat,
    phase: Phase,
    owed: nat,
    armed: nat,
    fired: nat,
    invoked: set<nat>)    // requests whose work has been started, so done() may be called

  datatype Action =
    | Wait(ns: nat)
    | SubmitA(tag: Tag)
    | CallPump
    | TimerFires
    | CallTimerPump
    | Select(times: seq<nat>)
    | Invoke
    | ArmTimer
    | FinishRound
    | CompleteA(id: nat, ok: bool)
    | Stop
    | Stats
    | SubmitS(tag: Tag, queuedAt: nat, times: seq<nat>)
    | ReleaseS(id: nat, ok: bool, doneAt: nat, times: seq<nat>)
    | Cancel(moduleId: string)

  /** Enough clock readings for a locked section, none earlier than now. */
  ghost predicate Readings(y: Sys, times: seq<nat>)
  {
    |times| > y.s.cfg.maxInflight && times != [] && Sorted(times, y.now)
  }

  ghost predicate Enabled(y: Sys, a: Action)
  {
    match a
    case Wait(_) => true
    case SubmitA(_) => true
    case CallPump => y.owed > 0
    case TimerFires => y.armed > 0
    case CallTimerPump => y.fired > 0
    case Select(times) => y.phase == AtSelect && Readings(y, times)
    case Invoke => y.phase.AtRun? && y.phase.toRun != []
    case ArmTimer => y.phase.AtRun? && y.phase.toRun == []
    case FinishRound => y.phase == AtFinish
    case CompleteA(id, _) => id in y.invoked && id < |y.s.q.table|
    case Stop => true
    case Stats => true
    case SubmitS(_, queuedAt, times) => Readings(y, times)
    case ReleaseS(id, _, doneAt, times) =>
      && Readings(y, times)
      && doneAt <= times[0]
      && id < |y.s.q.table|
      && y.s.q.table[id].stage == InFlight
      && !y.s.q.table[id].isAsync
    case Cancel(_) => true
  }

  ghost function EnterPump(y: Sys, fromTimer: bool): Sys
  {
    var (m, entered) := PumpEnter(y.s.pump, fromTimer);
    y.(s := y.s.(pump := m), phase := if entered then AtSelect else y.phase)
  }

  ghost function Next(y: Sys, a: Action): (z: Sys)
    requires Shaped(y.s.q) && Enabled(y, a)
    ensures Shaped(z.s.q)
  {
    match a
    case Wait(ns) => y.(now := y.now + ns)
    case SubmitA(tag) =>
      var (t, v) := SubmitAsync(y.s, tag, y.now);
      y.(s := t, owed := if v == Accepted then y.owed + 1 else y.owed)
    case CallPump => EnterPump(y.(owed := y.owed - 1), false)
    case TimerFires => y.(armed := y.armed - 1, fired := y.fired + 1)
    case CallTimerPump => EnterPump(y.(fired := y.fired - 1), true)
    case Select(times) =>
      var (t, r) := SelectAsync(y.s, times);
      y.(s := t, phase := AtRun(r.toRun, r.delayMs), now := LastTime(times, y.now))
    case Invoke =>
      y.(phase := AtRun(y.phase.toRun[1..], y.phase.delayMs), invoked := y.invoked + {y.phase.toRun[0]})
    case ArmTimer =>
      y.(phase := AtFinish, armed := if y.phase.delayMs > 0 then y.armed + 1 else y.armed)
    case FinishRound =>
      var (m, again) := PumpFinish(y.s.pump);
      y.(s := y.s.(pump := m), phase := if again then AtSelect else Idle)
    case CompleteA(id, ok) =>
      var (t, first) := CompleteAsync(y.s, id, ok, y.now);
      y.(s := t, owed := if first then y.owed + 1 else y.owed)
    case Stop => y.(s := y.s.(pump := y.s.pump.(stopped := true)))
    case Stats => y.(s := y.s.(b := UpdateCircuit(y.s.cfg, y.s.b, y.now)))
    case SubmitS(tag, queuedAt, times) =>
      y.(s := SubmitSync(y.s, tag, queuedAt, times).0, now := LastTime(times, y.now))
    case ReleaseS(id, ok, doneAt, times) =>
      y.(s := ReleaseSync(y.s, id, ok, doneAt, times), now := LastTime(times, y.now))
    case Cancel(moduleId) => y.(s := y.s.(q := CancelModule(y.s.q, moduleId)))
  }

  // ---------------------------------------------------------------- runs

  ghost function Start(c: Config, hook: bool, now: nat): Sys
  {
    Sys(Initial(c, hook), now, Idle, 0, 0, 0, {})
  }

  /** Each action of the run is enabled where it happens. */
  ghost predicate Run(y: Sys, acts: seq<Action>)
    decreases |acts|
  {
    acts == [] || (Shaped(y.s.q) && Enabled(y, acts[0]) && Run(Next(y, acts[0]), acts[1..]))
  }

  ghost function Exec(y: Sys, acts: seq<Action>): Sys
    requires Run(y, acts)
    decreases |acts|
  {
    if acts == [] then y else Exec(Next(y, acts[0]), acts[1..])
  }

  // ---------------------------------------------------------------- system invariant

  /** The pump flags say where the pump is; each pending gap delay has exactly one timer. */
  ghost predicate PumpInv(y: Sys)
  {
    && (y.phase == Idle <==> !y.s.pump.pumping)
    && (y.s.pump.repump ==> y.s.pump.pumping)
    && (if y.phase.AtRun? && y.phase.delayMs > 0 then 1 else 0) + y.armed + y.fired
       == (if y.s.pump.delayScheduled then 1 else 0)
  }

  ghost predicate Launched(table: seq<Rec>, id: nat)
  {
    id < |table| && table[id].stage in {InFlight, Finished}
  }

  /** Work is started only for selected requests. */
  ghost predicate LaunchInv(y: Sys)
  {
    && (forall id :: id in y.invoked ==> Launched(y.s.q.table, id))
    && (y.phase.AtRun? ==> forall k :: 0 <= k < |y.phase.toRun| ==> Launched(y.s.q.table, y.phase.toRun[k]))
  }

  /** The event-driven machinery stands still unless the scheduler is in event-driven mode. */
  ghost predicate QuietInv(y: Sys)
  {
    y.s.mode != AsyncMode ==> y.phase == Idle && y.owed == 0 && y.armed == 0 && y.fired == 0 && y.invoked == {}
  }

  /** Somebody will look at the queue again. */
  ghost predicate Wake(y: Sys)
  {
    y.phase == AtSelect || (y.phase != Idle && y.s.pump.repump) || y.owed > 0 || y.s.pump.delayScheduled
  }

  ghost predicate Serviceable(y: Sys)
    requires |y.s.q.lanes| == LANES
  {
    Depth(y.s.q.lanes) > 0 && y.s.q.inflight < y.s.cfg.maxInflight
  }

  ghost predicate NoStall(y: Sys)
    requires |y.s.q.lanes| == LANES
  {
    && (y.s.mode == AsyncMode && !y.s.pump.stopped && Serviceable(y) ==> Wake(y))
    && (y.s.mode == SyncMode ==> !Serviceable(y))
  }

  ghost predicate SysInv(y: Sys)
  {
    Inv(y.s, y.now) && PumpInv(y) && LaunchInv(y) && QuietInv(y) && NoStall(y)
  }

  // ---------------------------------------------------------------- preservation

  lemma LaterInv(s: Sched, before: nat, now: nat)
    requires Inv(s, before) && before <= now
    ensures Inv(s, now)
  {
    AdvancedModes(s.mode, s.q, s.q, InFlight, before, now);
    hide QueueInv, ModeInv;
  }

  lemma CancelInv(s: Sched, moduleId: string, now: nat)
    requires Inv(s, now)
    ensures var t := CancelModule(s.q, moduleId);
      && Inv(s.(q := t), now)
      && t.inflight == s.q.inflight && Depth(t.lanes) <= Depth(s.q.lanes) && Advanced(s.q.table, t.table, Cancelled)
  {
    hide Queues, Accounts, History, ModeInv, Sweep, Advanced, Bounds;
    SweepInv(s.cfg, s.q, LANES, OfModule(moduleId), s.b.completed + s.b.failed, EnforcedGap(s.cfg, s.hook, s.mode));
    SweepFrame(s.q, LANES, OfModule(moduleId));
    AdvancedModes(s.mode, s.q, CancelModule(s.q, moduleId), Cancelled, now, now);
  }

  lemma CoreStep(y: Sys, a: Action)
    requires SysInv(y) && Enabled(y, a)
    ensures Inv(Next(y, a).s, Next(y, a).now)
    ensures y.now <= Next(y, a).now
  {
    hide QueueInv, ModeInv, NoStall, PumpInv, Sorted;
    assert a.Select? || a.SubmitS? || a.ReleaseS? ==> y.now <= LastTime(a.times, y.now) by {
      if a.Select? || a.SubmitS? || a.ReleaseS? { TailSorted(a.times, y.now); }
    }
    assert Shaped(y.s.q) by { ShapedFromInv(y.s, y.now); }
    match a
    case Wait(ns) => LaterInv(y.s, y.now, y.now + ns);
    case SubmitA(tag) => SubmitAsyncInv(y.s, tag, y.now, y.now);
    case Select(times) => SelectAsyncInv(y.s, times, y.now);
    case CompleteA(id, ok) => CompleteAsyncInv(y.s, id, ok, y.now, y.now);
    case SubmitS(tag, queuedAt, times) => SubmitSyncInv(y.s, tag, queuedAt, times, y.now);
    case ReleaseS(id, ok, doneAt, times) =>
      ModeOfRow(y.s, y.now, id);
      ReleaseSyncInv(y.s, id, ok, doneAt, times, y.now);
    case Cancel(moduleId) => CancelInv(y.s, moduleId, y.now);
    case CallPump =>
    case TimerFires =>
    case CallTimerPump =>
    case Invoke =>
    case ArmTimer =>
    case FinishRound =>
    case Stop =>
    case Stats =>
  }

  lemma ShapedFromInv(s: Sched, now: nat)
    requires Inv(s, now)
    ensures Shaped(s.q) && Queues(s.q.lanes, s.q.table)
  {
  }

  lemma ModeOfRow(s: Sched, now: nat, id: nat)
    requires Inv(s, now) && id < |s.q.table|
    ensures s.mode == (if s.q.table[id].isAsync then AsyncMode else SyncMode)
  {
  }

  /** A request only moves forward, keeps its tag, and is never cancelled when event-driven. */
  ghost predicate Grown(before: seq<Rec>, after: seq<Rec>)
  {
    && |before| <= |after|
    && forall id :: 0 <= id < |before| ==>
         && after[id].(stage := Waiting) == before[id].(stage := Waiting)
         && (before[id].stage == Waiting ==> after[id].stage in {Waiting, InFlight, Finished} || !before[id].isAsync)
         && (before[id].stage == InFlight ==> after[id].stage in {InFlight, Finished})
         && (before[id].stage in {Finished, Cancelled} ==> after[id].stage == before[id].stage)
  }

  lemma SubmitSyncTable(y: Sys, tag: Tag, queuedAt: nat, times: seq<nat>)
    requires SysInv(y) && Enabled(y, SubmitS(tag, queuedAt, times))
    ensures Grown(y.s.q.table, SubmitSync(y.s, tag, queuedAt, times).0.q.table)
  {
    hide Accounts, History, ModeInv, NoStall, PumpInv, Queues, Enqueue, SelectLoop, Bounds, Advanced, Grown;
    var s := y.s;
    var tab := s.q.table;
    if SubmitSync(s, tag, queuedAt, times).1 == Accepted {
      EnqueueInv(s.cfg, s.q, tag, queuedAt, false, s.b.completed + s.b.failed, EnforcedGap(s.cfg, s.hook, s.mode));
      var u := Enqueue(s.q, tag, queuedAt, false);
      var v := SelectLoop(s.cfg, u, times[1..]).0;
      SelectLoopFrame(s.cfg, u, times[1..]);
      AdvancedGrows(tab, u.table, Cancelled);
      AdvancedGrows(u.table, v.table, InFlight);
      GrownTrans(tab, u.table, v.table);
    } else {
      GrownSame(tab);
    }
  }

  lemma GrownSame(table: seq<Rec>)
    ensures Grown(table, table)
  {
  }

  lemma TableStep(y: Sys, a: Action)
    requires SysInv(y) && Enabled(y, a)
    ensures Grown(y.s.q.table, Next(y, a).s.q.table)
  {
    hide Accounts, History, ModeInv, NoStall, PumpInv, Queues, Enqueue, SelectLoop, Sweep, Bounds, Advanced;
    var s := y.s;
    var tab, ended := s.q.table, s.b.completed + s.b.failed;
    match a
    case SubmitA(tag) =>
      if SubmitAsync(s, tag, y.now).1 == Accepted {
        EnqueueInv(s.cfg, s.q, tag, y.now, true, ended, EnforcedGap(s.cfg, s.hook, s.mode));
        AdvancedGrows(tab, Enqueue(s.q, tag, y.now, true).table, Cancelled);
      }
    case Select(times) =>
      SelectLoopFrame(s.cfg, s.q, times[1..]);
      AdvancedGrows(tab, SelectLoop(s.cfg, s.q, times[1..]).0.table, InFlight);
    case SubmitS(tag, queuedAt, times) =>
      SubmitSyncTable(y, tag, queuedAt, times);
      hide SubmitSync;
    case ReleaseS(id, ok, doneAt, times) =>
      var u := Retire(s.q, id, doneAt);
      var v := SelectLoop(s.cfg, u, times[1..]).0;
      RetireQueues(s.q, id, doneAt);
      SelectLoopFrame(s.cfg, u, times[1..]);
      AdvancedGrows(u.table, v.table, InFlight);
      GrownTrans(tab, u.table, v.table);
    case Cancel(moduleId) =>
      SweepFrame(s.q, LANES, OfModule(moduleId));
      AdvancedGrows(tab, Sweep(s.q, LANES, OfModule(moduleId)).table, Cancelled);
    case _ =>
  }

  /** What a selection says about the pump: only a held gap schedules a delay. */
  lemma SelectAsyncPump(s: Sched, times: seq<nat>)
    requires Shaped(s.q) && times != []
    ensures var (t, r) := SelectAsync(s, times);
      && t.cfg == s.cfg && t.mode == s.mode && t.hook == s.hook && t.b == s.b
      && t.pump == s.pump.(delayScheduled := t.pump.delayScheduled)
      && (r.delayMs > 0 <==> t.pump.delayScheduled && !s.pump.delayScheduled)
      && (s.pump.delayScheduled ==> t.pump.delayScheduled)
      && (r.delayMs > 0 ==> r.toRun == [])
  {
    hide SelectLoop;
  }

  lemma PumpStep(y: Sys, a: Action)
    requires SysInv(y) && Enabled(y, a)
    ensures PumpInv(Next(y, a)) && QuietInv(Next(y, a))
  {
    hide Accounts, History, ModeInv, NoStall, Queues, Enqueue, SelectLoop, Sweep, Bounds, LaunchInv;
    match a
    case Select(times) => SelectAsyncPump(y.s, times); hide SelectAsync;
    case _ =>
  }

  lemma LaunchedGrows(before: seq<Rec>, after: seq<Rec>)
    requires Grown(before, after)
    ensures forall id :: Launched(before, id) ==> Launched(after, id)
  {
  }

  lemma AdvancedGrows(before: seq<Rec>, after: seq<Rec>, to: Stage)
    requires Advanced(before, after, to) && to in {InFlight, Cancelled}
    ensures Grown(before, after)
  {
  }

  lemma GrownTrans(a: seq<Rec>, b: seq<Rec>, c: seq<Rec>)
    requires Grown(a, b) && Grown(b, c)
    ensures Grown(a, c)
  {
    forall id | 0 <= id < |a|
      ensures c[id].(stage := Waiting) == a[id].(stage := Waiting)
           && (a[id].stage == Waiting ==> c[id].stage in {Waiting, InFlight, Finished} || !a[id].isAsync)
    {
      assert b[id].(stage := Waiting) == a[id].(stage := Waiting) && b[id].isAsync == a[id].isAsync;
    }
  }

  lemma LaunchStep(y: Sys, a: Action)
    requires SysInv(y) && Enabled(y, a)
    ensures LaunchInv(Next(y, a))
  {
    hide Accounts, History, ModeInv, NoStall, Queues, Enqueue, SelectLoop, Sweep, Bounds, PumpInv, QuietInv, Grown;
    TableStep(y, a);
    LaunchedGrows(y.s.q.table, Next(y, a).s.q.table);
    match a
    case Select(times) => SelectLoopFrame(y.s.cfg, y.s.q, times[1..]);
    case _ =>
  }

  /** A full round of selection leaves nothing serviceable, unless a delay is scheduled or work is stopped. */
  lemma SelectServes(s: Sched, times: seq<nat>, before: nat)
    requires Inv(s, before) && times != [] && |times| > s.cfg.maxInflight && Sorted(times, before)
    requires s.mode != SyncMode
    ensures var t := SelectAsync(s, times).0;
      t.pump.stopped || t.pump.delayScheduled || Depth(t.q.lanes) == 0 || t.q.inflight >= s.cfg.maxInflight
  {
    hide Queues, Accounts, History, ModeInv, SelectLoop, Bounds;
    if !s.pump.stopped && !GapHolds(s.cfg, s.hook, s.q, times[0]) {
      SelectLoopInv(s.cfg, s.q, times[1..], times[0], s.b.completed + s.b.failed, EnforcedGap(s.cfg, s.hook, s.mode));
    }
  }

  lemma SubmitSyncServes(s: Sched, tag: Tag, queuedAt: nat, times: seq<nat>, before: nat)
    requires Inv(s, before) && times != [] && |times| > s.cfg.maxInflight && Sorted(times, before)
    requires s.mode == SyncMode ==> Depth(s.q.lanes) == 0 || s.q.inflight >= s.cfg.maxInflight
    ensures var t := SubmitSync(s, tag, queuedAt, times).0;
      t.mode == SyncMode ==> Depth(t.q.lanes) == 0 || t.q.inflight >= s.cfg.maxInflight
  {
    hide Queues, Accounts, History, ModeInv, SelectLoop, Enqueue, Bounds;
    var (t, v) := SubmitSync(s, tag, queuedAt, times);
    if v == Accepted {
      FixMode(s, SyncMode, before, before);
      EnqueueInv(s.cfg, s.q, tag, queuedAt, false, s.b.completed + s.b.failed, 0);
      SelectLoopInv(s.cfg, Enqueue(s.q, tag, queuedAt, false), times[1..], times[0], s.b.completed + s.b.failed, 0);
    } else if v !in {BadPriority, WrongMode} && s.mode == Unset {
      EmptyQueue(s, before);
    }
  }

  lemma EmptyQueue(s: Sched, now: nat)
    requires Inv(s, now) && s.mode == Unset
    ensures Depth(s.q.lanes) == 0
  {
    assert LaneOk(s.q.lanes[0], s.q.table, 0) && LaneOk(s.q.lanes[1], s.q.table, 1)
        && LaneOk(s.q.lanes[2], s.q.table, 2) && LaneOk(s.q.lanes[3], s.q.table, 3);
  }

  lemma ReleaseSyncServes(s: Sched, id: nat, ok: bool, doneAt: nat, times: seq<nat>, before: nat)
    requires Inv(s, before) && times != [] && |times| > s.cfg.maxInflight && Sorted(times, before)
    requires id < |s.q.table| && s.q.table[id].stage == InFlight && s.mode == SyncMode
    ensures var t := ReleaseSync(s, id, ok, doneAt, times);
      Depth(t.q.lanes) == 0 || t.q.inflight >= s.cfg.maxInflight
  {
    hide Queues, Accounts, History, ModeInv, SelectLoop, Bounds;
    var ended := s.b.completed + s.b.failed;
    RetireInv(s.cfg, s.q, id, doneAt, ended, 0);
    SelectLoopInv(s.cfg, Retire(s.q, id, doneAt), times[1..], times[0], ended + 1, 0);
  }

  lemma NoStallStep(y: Sys, a: Action)
    requires SysInv(y) && Enabled(y, a)
    ensures NoStall(Next(y, a))
  {
    hide Accounts, History, ModeInv, Queues, Enqueue, SelectLoop, Sweep, Bounds, LaunchInv, SubmitSync, ReleaseSync;
    match a
    case SubmitA(tag) => if y.s.mode == Unset { EmptyQueue(y.s, y.now); }
    case Select(times) =>
      SelectServes(y.s, times, y.now);
      SelectAsyncPump(y.s, times);
      hide SelectAsync;
    case SubmitS(tag, queuedAt, times) =>
      SubmitSyncServes(y.s, tag, queuedAt, times, y.now);
      SubmitSyncFrame(y.s, tag, queuedAt, times);
    case ReleaseS(id, ok, doneAt, times) =>
      ModeOfRow(y.s, y.now, id);
      ReleaseSyncServes(y.s, id, ok, doneAt, times, y.now);
      ReleaseSyncFrame(y.s, id, ok, doneAt, times);
    case Cancel(moduleId) => CancelInv(y.s, moduleId, y.now);
    case _ =>
  }

  lemma SubmitSyncFrame(s: Sched, tag: Tag, queuedAt: nat, times: seq<nat>)
    requires Shaped(s.q) && times != []
    ensures var (t, v) := SubmitSync(s, tag, queuedAt, times);
      && t.cfg == s.cfg && t.pump == s.pump && t.hook == s.hook
      && (if v in {BadPriority, WrongMode} then t == s else t.mode == SyncMode && s.mode != AsyncMode)
  {
    hide SelectLoop, Enqueue;
  }

  lemma ReleaseSyncFrame(s: Sched, id: nat, ok: bool, doneAt: nat, times: seq<nat>)
    requires Shaped(s.q) && times != [] && id < |s.q.table|
    ensures var t := ReleaseSync(s, id, ok, doneAt, times);
      t.cfg == s.cfg && t.pump == s.pump && t.hook == s.hook && t.mode == s.mode
  {
    hide SelectLoop;
  }

  lemma StepInv(y: Sys, a: Action)
    requires SysInv(y) && Enabled(y, a)
    ensures SysInv(Next(y, a))
  {
    CoreStep(y, a);
    PumpStep(y, a);
    LaunchStep(y, a);
    NoStallStep(y, a);
    hide Inv, PumpInv, LaunchInv, QuietInv, NoStall, Next, Enabled;
  }

  /** Every state of every run from the start satisfies the invariant. */
  lemma {:induction false} RunInv(y: Sys, acts: seq<Action>)
    requires SysInv(y) && Run(y, acts)
    ensures SysInv(Exec(y, acts))
    decreases |acts|
  {
    hide SysInv, Next, Enabled;
    if acts != [] {
      StepInv(y, acts[0]);
      RunInv(Next(y, acts[0]), acts[1..]);
    }
  }

  lemma StartInv(c: Config, hook: bool, now: nat)
    requires now > 0
    ensures SysInv(Start(c, hook, now))
  {
    InitialInv(c, hook, now);
  }
}
