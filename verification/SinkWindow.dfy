/**
 The sink window: a staged image of a register range, flushed as a whole by at
 most one asynchronous write at a time, with a generation counter against lost
 updates.
 */
module SinkWindow {

  const NS_PER_MS: nat := 1_000_000

  datatype Config = Config(startAddress: int, size: nat, debounceMs: int, keepAliveMs: int, initial: seq<bv16>)

  // The fields guarded by the window's mutex.
  datatype Image = Image(
    snapshot: seq<bv16>,
    dirty: bool,
    force: bool,
    generation: nat,
    dirtyAt: nat,
    lastFlushAt: nat)

  // ---------------------------------------------------------------- the locked sections as functions

  function InitialSnapshot(c: Config): (r: seq<bv16>)
    ensures |r| == c.size
  {
    seq(c.size, i requires 0 <= i < c.size => if i < |c.initial| then c.initial[i] else 0)
  }

  function InitialImage(c: Config): Image
  {
    Image(InitialSnapshot(c), false, false, 0, 0, 0)
  }

  function Merge(cur: bv16, value: bv16, mask: bv16): bv16
  {
    (cur & !mask) | (value & mask)
  }

  predicate InWindow(c: Config, address: int)
  {
    0 <= address - c.startAddress < c.size
  }

  /** Stage one register under a mask; tells whether the image changed. */
  function StageRegister(c: Config, w: Image, address: int, value: bv16, mask: bv16, now: nat): (Image, bool)
    requires |w.snapshot| == c.size
  {
    if !InWindow(c, address) then (w, false)
    else
      var i := address - c.startAddress;
      var next := Merge(w.snapshot[i], value, mask);
      if next == w.snapshot[i] then (w, false)
      else (w.(snapshot := w.snapshot[i := next],
               generation := w.generation + 1,
               dirty := true,
               dirtyAt := if w.dirty then w.dirtyAt else now), true)
  }

  function ForceFlush(w: Image): Image
  {
    w.(force := true, generation := w.generation + 1)
  }

  /** Whole milliseconds between two clock readings, truncated toward zero. */
  function ElapsedMs(now: nat, since: nat): int
  {
    if now >= since then (now - since) / NS_PER_MS else -((since - now) / NS_PER_MS)
  }

  predicate FlushDue(c: Config, w: Image, now: nat)
  {
    || w.force
    || (w.dirty && ElapsedMs(now, w.dirtyAt) >= c.debounceMs)
    || (c.keepAliveMs > 0 && ElapsedMs(now, w.lastFlushAt) >= c.keepAliveMs)
  }

  function MarkFlushed(w: Image, ok: bool, gen: nat, now: nat): Image
  {
    if !ok || w.generation != gen then w
    else w.(dirty := false, force := false, lastFlushAt := now)
  }

  // ---------------------------------------------------------------- the object

  class Window {
    const cfg: Config
    var snapshot: seq<bv16>
    var dirty: bool
    var force: bool
    var generation: nat
    var dirtyAt: nat
    var lastFlushAt: nat

    ghost function View(): Image
      reads this
    {
      Image(snapshot, dirty, force, generation, dirtyAt, lastFlushAt)
    }

    ghost predicate Valid()
      reads this
    {
      |snapshot| == cfg.size
    }

    constructor (c: Config)
      ensures Valid() && cfg == c && View() == InitialImage(c)
      ensures forall k :: 0 <= k < c.size ==> snapshot[k] == if k < |c.initial| then c.initial[k] else 0
      ensures !dirty && !force
    {
      cfg := c;
      dirty, force, generation, dirtyAt, lastFlushAt := false, false, 0, 0, 0;
      var image := seq(c.size, i => 0 as bv16);
      var populate := if |c.initial| < c.size then |c.initial| else c.size;
      var i := 0;
      while i < populate
        invariant 0 <= i <= populate && |image| == c.size
        invariant forall k :: 0 <= k < c.size ==> image[k] == if k < i then c.initial[k] else 0
      {
        image := image[i := c.initial[i]];
        i := i + 1;
      }
      snapshot := image;
    }

    method StageRegisterLocked(address: int, value: bv16, mask: bv16, now: nat) returns (changed: bool)
      requires Valid()
      modifies this
      ensures Valid()
      ensures View() == StageRegister(cfg, old(View()), address, value, mask, now).0
      ensures changed == StageRegister(cfg, old(View()), address, value, mask, now).1
    {
      hide Merge;
      var i := address - cfg.startAddress;
      if i < 0 || i >= cfg.size { return false; }
      var cur := snapshot[i];
      var next := Merge(cur, value, mask);
      if next == cur { return false; }
      snapshot := snapshot[i := next];
      generation := generation + 1;
      if !dirty { dirty, dirtyAt := true, now; }
      return true;
    }

    method ForceFlushLocked()
      requires Valid()
      modifies this`force, this`generation
      ensures View() == ForceFlush(old(View()))
    {
      force := true;
      generation := generation + 1;
    }

    method DecideFlush(now: nat) returns (flush: bool, values: seq<bv16>, gen: nat)
      requires Valid()
      ensures flush == FlushDue(cfg, View(), now)
      ensures flush ==> values == snapshot && gen == generation
    {
      flush, values, gen := false, [], 0;
      if force {
        flush := true;
      } else if dirty {
        if ElapsedMs(now, dirtyAt) >= cfg.debounceMs { flush := true; }
      }
      if !flush && cfg.keepAliveMs > 0 {
        if ElapsedMs(now, lastFlushAt) >= cfg.keepAliveMs { flush := true; }
      }
      if flush { values, gen := snapshot, generation; }
    }

    method MarkFlushedLocked(ok: bool, gen: nat, now: nat)
      requires Valid()
      modifies this`dirty, this`force, this`lastFlushAt
      ensures View() == MarkFlushed(old(View()), ok, gen, now)
    {
      if !ok { return; }
      if generation != gen { return; }
      dirty, force, lastFlushAt := false, false, now;
    }
  }
}

/** The window under every interleaving of stagers, ticks, failed writes and late completions. */
module SinkWindowSystem {
  import opened SinkWindow

  // One run of driveTick and of the completion it leads to: outside, holding
  // the in-flight flag before its decision, with a decided write before its
  // submission, with the write outstanding, or about to give the flag back.
  datatype Worker = Resting | Claimed | Decided(values: seq<bv16>, gen: nat) | Writing(values: seq<bv16>, gen: nat) | Leaving

  datatype Times = Times(
    pending: bool,        // a register changed since the last clean acknowledgement
    since: nat,           // when the first such change was staged
    forced: bool,         // a flush was forced since the last clean acknowledgement
    cleanAt: nat,         // the last clean acknowledgement or start of the module
    touched: bool)        // a register changed or a flush was forced since the last decision

  datatype Ack = Ack(values: seq<bv16>, gen: nat)

  datatype Sys = Sys(
    w: Image,
    now: nat,
    started: bool,
    inFlight: bool,
    workers: seq<Worker>,
    acks: seq<Ack>,       // history: the acknowledged writes
    forcedAt: nat,        // history: the generation of the latest force flush
    h: Times)             // history

  datatype Action =
    | Wait(ns: nat)
    | Stage(address: int, value: bv16, mask: bv16)
    | Force
    | StartModule
    | StopModule
    | Tick(i: nat)                          // the compare-and-swap of driveTick
    | Decide(i: nat, reading: nat)
    | Submit(i: nat, accepted: bool)
    | Complete(i: nat, ok: bool)
    | Leave(i: nat)

  ghost predicate Enabled(c: Config, y: Sys, a: Action)
  {
    match a
    case Tick(i) => i < |y.workers| && y.workers[i] == Resting && y.started
    case Decide(i, reading) => i < |y.workers| && y.workers[i] == Claimed && reading <= y.now
    case Submit(i, _) => i < |y.workers| && y.workers[i].Decided?
    case Complete(i, _) => i < |y.workers| && y.workers[i].Writing?
    case Leave(i) => i < |y.workers| && y.workers[i] == Leaving
    case _ => true
  }

  function Changed(h: Times, now: nat): Times
  {
    Times(true, if h.pending then h.since else now, h.forced, h.cleanAt, true)
  }

  ghost function Next(c: Config, y: Sys, a: Action): Sys
    requires |y.w.snapshot| == c.size && Enabled(c, y, a)
  {
    match a
    case Wait(ns) => y.(now := y.now + ns)
    case Stage(address, value, mask) =>
      var t := StageRegister(c, y.w, address, value, mask, y.now).0;
      var changed := t.snapshot != y.w.snapshot;
      y.(w := t, h := if changed then Changed(y.h, y.now) else y.h)
    case Force => y.(w := ForceFlush(y.w), forcedAt := ForceFlush(y.w).generation, h := y.h.(forced := true, touched := true))
    case StartModule => y.(started := true, w := y.w.(lastFlushAt := y.now), h := y.h.(cleanAt := y.now))
    case StopModule => y.(started := false)
    case Tick(i) => if y.inFlight then y else y.(inFlight := true, workers := y.workers[i := Claimed])
    case Decide(i, reading) =>
      if FlushDue(c, y.w, reading)
      then y.(workers := y.workers[i := Decided(y.w.snapshot, y.w.generation)], h := y.h.(touched := false))
      else y.(workers := y.workers[i := Leaving])
    case Submit(i, accepted) =>
      y.(workers := y.workers[i := if accepted then Writing(y.workers[i].values, y.workers[i].gen) else Leaving])
    case Complete(i, ok) =>
      y.(w := MarkFlushed(y.w, ok, y.workers[i].gen, y.now),
         workers := y.workers[i := Leaving],
         acks := if ok then y.acks + [Ack(y.workers[i].values, y.workers[i].gen)] else y.acks,
         h := if ok && !y.h.touched then Times(false, y.h.since, false, y.now, false) else y.h)
    case Leave(i) => y.(inFlight := false, workers := y.workers[i := Resting])
  }

  ghost function Start(c: Config, n: nat, now: nat): Sys
  {
    Sys(InitialImage(c), now, false, false, seq(n, i => Resting), [], 0, Times(false, 0, false, 0, false))
  }

  ghost predicate Run(c: Config, y: Sys, acts: seq<Action>)
    decreases |acts|
  {
    acts == [] || (|y.w.snapshot| == c.size && Enabled(c, y, acts[0]) && Run(c, Next(c, y, acts[0]), acts[1..]))
  }

  ghost function Exec(c: Config, y: Sys, acts: seq<Action>): Sys
    requires Run(c, y, acts)
    decreases |acts|
  {
    if acts == [] then y else Exec(c, Next(c, y, acts[0]), acts[1..])
  }

  /** What the device was last told, or the initial image. */
  ghost function Acknowledged(c: Config, acks: seq<Ack>): seq<bv16>
  {
    if acks == [] then InitialSnapshot(c) else acks[|acks| - 1].values
  }

  ghost predicate HasWrite(k: Worker)
  {
    k.Decided? || k.Writing?
  }

  /** A pending write carries the current image as long as nothing was staged or forced since. */
  ghost predicate WriteOk(w: Image, k: Worker)
  {
    HasWrite(k) ==>
      && k.gen <= w.generation
      && (k.gen == w.generation || !w.dirty ==> k.values == w.snapshot)
      && (k.gen < w.generation ==> w.dirty || w.force)
  }

  ghost predicate OneHolder(inFlight: bool, workers: seq<Worker>)
  {
    && (forall i :: 0 <= i < |workers| && workers[i] != Resting ==> inFlight)
    && (forall i, j :: 0 <= i < j < |workers| && workers[i] != Resting ==> workers[j] == Resting)
  }

  /** Some acknowledged write was decided at generation `gen` or later. */
  ghost predicate Honoured(acks: seq<Ack>, gen: nat)
  {
    exists k :: 0 <= k < |acks| && acks[k].gen >= gen
  }

  ghost predicate Inv(c: Config, y: Sys)
  {
    && |y.w.snapshot| == c.size
    && OneHolder(y.inFlight, y.workers)
    && (forall i :: 0 <= i < |y.workers| ==> WriteOk(y.w, y.workers[i]))
    && (!y.w.dirty ==> y.w.snapshot == Acknowledged(c, y.acks))
    && y.forcedAt <= y.w.generation
    && (!y.w.force && y.forcedAt > 0 ==> Honoured(y.acks, y.forcedAt))
  }

  lemma HolderMoves(inFlight: bool, workers: seq<Worker>, i: nat, k: Worker)
    requires OneHolder(inFlight, workers) && i < |workers| && workers[i] != Resting
    ensures OneHolder(true, workers[i := k])
    ensures k == Resting ==> OneHolder(false, workers[i := k])
  {
  }

  lemma CompleteInv(c: Config, y: Sys, i: nat, ok: bool)
    requires Inv(c, y) && Enabled(c, y, Complete(i, ok))
    ensures Inv(c, Next(c, y, Complete(i, ok)))
  {
    hide Merge, InitialSnapshot;
    var z := Next(c, y, Complete(i, ok));
    HolderMoves(y.inFlight, y.workers, i, Leaving);
    assert WriteOk(y.w, y.workers[i]);
    if ok {
      assert z.acks[|y.acks|].gen == y.workers[i].gen;
      if Honoured(y.acks, y.forcedAt) {
        var k :| 0 <= k < |y.acks| && y.acks[k].gen >= y.forcedAt;
        assert z.acks[k].gen >= y.forcedAt;
      }
    }
  }

  lemma StageInv(c: Config, y: Sys, a: Action)
    requires Inv(c, y) && a.Stage?
    ensures Inv(c, Next(c, y, a))
  {
    hide Merge, InitialSnapshot, Honoured, Acknowledged, OneHolder;
  }

  /** A step that leaves the image and the acknowledgements alone. */
  lemma MoveInv(c: Config, y: Sys, z: Sys)
    requires Inv(c, y) && z.w == y.w.(lastFlushAt := z.w.lastFlushAt) && z.acks == y.acks && z.forcedAt == y.forcedAt
    requires OneHolder(z.inFlight, z.workers) && forall i :: 0 <= i < |z.workers| ==> WriteOk(y.w, z.workers[i])
    ensures Inv(c, z)
  {
    hide InitialSnapshot, Honoured, Acknowledged, OneHolder;
  }

  lemma StepInv(c: Config, y: Sys, a: Action)
    requires Inv(c, y) && Enabled(c, y, a)
    ensures Inv(c, Next(c, y, a))
  {
    var z := Next(c, y, a);
    if a.Complete? {
      CompleteInv(c, y, a.i, a.ok);
    } else if a.Stage? {
      StageInv(c, y, a);
    } else if a.Force? {
      hide InitialSnapshot, Honoured, Acknowledged, OneHolder;
    } else {
      WorkerMoves(c, y, a);
      hide Inv, OneHolder, WriteOk, FlushDue;
      MoveInv(c, y, z);
    }
  }

  lemma WorkerMoves(c: Config, y: Sys, a: Action)
    requires Inv(c, y) && Enabled(c, y, a) && !a.Complete? && !a.Stage? && !a.Force?
    ensures var z := Next(c, y, a);
      OneHolder(z.inFlight, z.workers) && forall i :: 0 <= i < |z.workers| ==> WriteOk(y.w, z.workers[i])
  {
    hide InitialSnapshot, FlushDue, Honoured, Acknowledged;
    var z := Next(c, y, a);
    match a
    case Submit(i, accepted) => HolderMoves(y.inFlight, y.workers, i, z.workers[i]); assert WriteOk(y.w, y.workers[i]);
    case Decide(i, reading) => HolderMoves(y.inFlight, y.workers, i, z.workers[i]);
    case Leave(i) => HolderMoves(y.inFlight, y.workers, i, Resting);
    case _ =>
  }

  lemma {:induction false} RunInv(c: Config, y: Sys, acts: seq<Action>)
    requires Inv(c, y) && Run(c, y, acts)
    ensures Inv(c, Exec(c, y, acts))
    decreases |acts|
  {
    if acts != [] {
      StepInv(c, y, acts[0]);
      RunInv(c, Next(c, y, acts[0]), acts[1..]);
    }
  }

  /**
   No lost update: in every run at most one write is decided or outstanding;
   whenever the window is clean its image is the last acknowledged one; and a
   cleared force flag means that a write decided after the force was acknowledged.
   */
  lemma NoLostUpdate(c: Config, n: nat, now: nat, acts: seq<Action>)
    requires Run(c, Start(c, n, now), acts)
    ensures var y := Exec(c, Start(c, n, now), acts);
      && (forall i, j :: 0 <= i < j < |y.workers| ==> !(HasWrite(y.workers[i]) && HasWrite(y.workers[j])))
      && (!y.w.dirty ==> y.w.snapshot == Acknowledged(c, y.acks))
      && (!y.w.force && y.forcedAt > 0 ==> exists k :: 0 <= k < |y.acks| && y.acks[k].gen >= y.forcedAt)
  {
    RunInv(c, Start(c, n, now), acts);
  }

  // ---------------------------------------------------------------- what happens during a write

  /** The action forces a flush or changes a staged register. */
  ghost predicate Touches(c: Config, y: Sys, a: Action)
    requires |y.w.snapshot| == c.size
  {
    a.Force? || (a.Stage? && StageRegister(c, y.w, a.address, a.value, a.mask, y.now).0.snapshot != y.w.snapshot)
  }

  ghost function TouchCount(c: Config, y: Sys, acts: seq<Action>): nat
    requires Run(c, y, acts)
    decreases |acts|
  {
    if acts == [] then 0
    else (if Touches(c, y, acts[0]) then 1 else 0) + TouchCount(c, Next(c, y, acts[0]), acts[1..])
  }

  lemma StageGeneration(c: Config, w: Image, address: int, value: bv16, mask: bv16, now: nat)
    requires |w.snapshot| == c.size
    ensures var t := StageRegister(c, w, address, value, mask, now).0;
      t.generation == w.generation + if t.snapshot != w.snapshot then 1 else 0
  {
    hide Merge;
  }

  lemma StepGeneration(c: Config, y: Sys, a: Action)
    requires |y.w.snapshot| == c.size && Enabled(c, y, a)
    ensures Next(c, y, a).w.generation == y.w.generation + if Touches(c, y, a) then 1 else 0
  {
    if a.Stage? { StageGeneration(c, y.w, a.address, a.value, a.mask, y.now); }
    hide Merge, FlushDue, StageRegister;
  }

  /** The generation counts the touches. */
  lemma {:induction false} GenerationCounts(c: Config, y: Sys, acts: seq<Action>)
    requires Run(c, y, acts)
    ensures Exec(c, y, acts).w.generation == y.w.generation + TouchCount(c, y, acts)
    decreases |acts|
  {
    hide Next, Enabled, Touches;
    if acts != [] {
      StepGeneration(c, y, acts[0]);
      GenerationCounts(c, Next(c, y, acts[0]), acts[1..]);
    }
  }

  ghost predicate NoDecision(acts: seq<Action>, i: nat)
  {
    forall k :: 0 <= k < |acts| && acts[k].Decide? ==> acts[k].i != i
  }

  ghost predicate Carries(k: Worker, l: Worker)
  {
    HasWrite(l) ==> HasWrite(k) && k.values == l.values && k.gen == l.gen
  }

  /** Without a new decision a pending write is the one decided before. */
  lemma {:induction false} SameWrite(c: Config, y: Sys, acts: seq<Action>, i: nat)
    requires Run(c, y, acts) && NoDecision(acts, i) && i < |y.workers|
    ensures |Exec(c, y, acts).workers| == |y.workers| && Carries(y.workers[i], Exec(c, y, acts).workers[i])
    decreases |acts|
  {
    hide Next, Enabled;
    if acts != [] {
      var z := Next(c, y, acts[0]);
      WriteCarries(c, y, acts[0], i);
      assert NoDecision(acts[1..], i);
      SameWrite(c, z, acts[1..], i);
    }
  }

  lemma WriteCarries(c: Config, y: Sys, a: Action, i: nat)
    requires |y.w.snapshot| == c.size && Enabled(c, y, a) && i < |y.workers| && !(a.Decide? && a.i == i)
    ensures var z := Next(c, y, a); |z.workers| == |y.workers| && Carries(y.workers[i], z.workers[i])
  {
    hide StageRegister, FlushDue, MarkFlushed, ForceFlush;
  }

  /**
   An acknowledged write leaves the window clean exactly when no register was changed
   and no flush forced between the decision of the write and its acknowledgement,
   whatever else happened meanwhile.
   */
  lemma AckCleansIff(c: Config, y: Sys, i: nat, reading: nat, acts: seq<Action>)
    requires Inv(c, y) && Enabled(c, y, Decide(i, reading)) && FlushDue(c, y.w, reading)
    requires Run(c, Next(c, y, Decide(i, reading)), acts) && NoDecision(acts, i)
    requires var x := Exec(c, Next(c, y, Decide(i, reading)), acts); i < |x.workers| && x.workers[i].Writing?
    ensures var decided := Next(c, y, Decide(i, reading));
      var x := Exec(c, decided, acts);
      && |x.w.snapshot| == c.size
      && var z := Next(c, x, Complete(i, true));
         !z.w.dirty && !z.w.force <==> TouchCount(c, decided, acts) == 0
  {
    var decided := Next(c, y, Decide(i, reading));
    var x := Exec(c, decided, acts);
    StepInv(c, y, Decide(i, reading));
    hide Inv, Run, Exec, FlushDue, TouchCount;
    RunInv(c, decided, acts);
    GenerationCounts(c, decided, acts);
    SameWrite(c, decided, acts, i);
    InvWrite(c, x, i);
  }

  lemma InvWrite(c: Config, y: Sys, i: nat)
    requires Inv(c, y) && i < |y.workers|
    ensures |y.w.snapshot| == c.size && WriteOk(y.w, y.workers[i])
  {
  }

  // ---------------------------------------------------------------- a due flush

  /** A flush is due for what was staged or forced, keep-alive aside. */
  ghost predicate Pressing(c: Config, y: Sys)
  {
    y.w.force || (y.w.dirty && ElapsedMs(y.now, y.w.dirtyAt) >= c.debounceMs)
  }

  lemma ElapsedGrows(a: nat, b: nat, since: nat)
    requires a <= b
    ensures ElapsedMs(a, since) <= ElapsedMs(b, since)
  {
  }

  lemma PressingStep(c: Config, y: Sys, a: Action)
    requires Inv(c, y) && Enabled(c, y, a) && Pressing(c, y)
    ensures var z := Next(c, y, a); Pressing(c, z) || |z.acks| > |y.acks|
  {
    var z := Next(c, y, a);
    if a.Wait? {
      ElapsedGrows(y.now, z.now, y.w.dirtyAt);
    }
    hide Merge, InitialSnapshot, ElapsedMs, Honoured, Acknowledged, OneHolder;
  }

  lemma AcksGrow(c: Config, y: Sys, a: Action)
    requires |y.w.snapshot| == c.size && Enabled(c, y, a)
    ensures y.acks <= Next(c, y, a).acks
  {
    hide Merge, FlushDue;
  }

  lemma {:induction false} AcksKept(c: Config, y: Sys, acts: seq<Action>)
    requires Inv(c, y) && Run(c, y, acts)
    ensures y.acks <= Exec(c, y, acts).acks
    decreases |acts|
  {
    hide Next, Enabled;
    if acts != [] {
      StepInv(c, y, acts[0]);
      AcksGrow(c, y, acts[0]);
      AcksKept(c, Next(c, y, acts[0]), acts[1..]);
    }
  }

  /**
   Debouncing is bounded: once a flush is due it stays due, however often the window is
   staged again and whatever writes fail, until a write is acknowledged.
   */
  lemma {:induction false} DueUntilAcknowledged(c: Config, y: Sys, acts: seq<Action>)
    requires Inv(c, y) && Run(c, y, acts) && Pressing(c, y)
    ensures var z := Exec(c, y, acts);
      && y.acks <= z.acks
      && (|z.acks| == |y.acks| ==> Pressing(c, z) && FlushDue(c, z.w, z.now))
    decreases |acts|
  {
    AcksKept(c, y, acts);
    hide Inv, Next, Enabled;
    if acts != [] {
      var z := Next(c, y, acts[0]);
      StepInv(c, y, acts[0]);
      PressingStep(c, y, acts[0]);
      AcksKept(c, z, acts[1..]);
      InvSize(c, y);
      AcksGrow(c, y, acts[0]);
      if Pressing(c, z) {
        DueUntilAcknowledged(c, z, acts[1..]);
      }
    }
  }

  lemma InvSize(c: Config, y: Sys)
    requires Inv(c, y)
    ensures |y.w.snapshot| == c.size
  {
  }

  // ---------------------------------------------------------------- when a flush is decided

  /** The window's own notes of time are those of the history. */
  ghost predicate Timed(y: Sys)
  {
    && y.w.dirty == y.h.pending && (y.h.pending ==> y.w.dirtyAt == y.h.since)
    && y.w.force == y.h.forced && y.w.lastFlushAt == y.h.cleanAt
    && (forall i :: 0 <= i < |y.workers| && HasWrite(y.workers[i]) ==> (y.h.touched <==> y.workers[i].gen != y.w.generation))
  }

  lemma StageTimed(c: Config, y: Sys, a: Action)
    requires Inv(c, y) && Timed(y) && a.Stage?
    ensures Timed(Next(c, y, a))
  {
    forall i | 0 <= i < |y.workers| ensures WriteOk(y.w, y.workers[i]) {}
    hide Merge, Acknowledged, OneHolder, Honoured;
  }

  lemma StepTimed(c: Config, y: Sys, a: Action)
    requires Inv(c, y) && Timed(y) && Enabled(c, y, a)
    ensures Timed(Next(c, y, a))
  {
    if a.Stage? {
      StageTimed(c, y, a);
    } else {
      forall i | 0 <= i < |y.workers| ensures WriteOk(y.w, y.workers[i]) {}
      hide Merge, FlushDue, Acknowledged, Honoured, StageRegister;
    }
  }

  lemma {:induction false} RunTimed(c: Config, y: Sys, acts: seq<Action>)
    requires Inv(c, y) && Timed(y) && Run(c, y, acts)
    ensures Timed(Exec(c, y, acts)) && Inv(c, Exec(c, y, acts))
    decreases |acts|
  {
    hide Inv, Timed, Next, Enabled;
    if acts != [] {
      StepInv(c, y, acts[0]);
      StepTimed(c, y, acts[0]);
      RunTimed(c, Next(c, y, acts[0]), acts[1..]);
    }
  }

  /** At least `ms` whole milliseconds lie between, counted toward zero. */
  predicate Passed(now: nat, since: nat, ms: int)
  {
    if ms > 0 then now - since >= ms * NS_PER_MS else now - since > (ms - 1) * NS_PER_MS
  }

  lemma PassedIsElapsed(now: nat, since: nat, ms: int)
    ensures Passed(now, since, ms) <==> ElapsedMs(now, since) >= ms
  {
  }

  /**
   In every run a tick decides a write if and only if a forced flush is not yet
   acknowledged, or a register change has been pending for the debounce time since the
   first one, or keep-alive is on and its period has passed since the last clean
   acknowledgement or the start of the module. It takes the present image.
   */
  lemma DecideExact(c: Config, n: nat, now: nat, acts: seq<Action>, i: nat, reading: nat)
    requires Run(c, Start(c, n, now), acts) && Enabled(c, Exec(c, Start(c, n, now), acts), Decide(i, reading))
    ensures var y := Exec(c, Start(c, n, now), acts);
      && |y.w.snapshot| == c.size
      && Next(c, y, Decide(i, reading)).workers[i] ==
           if y.h.forced || (y.h.pending && Passed(reading, y.h.since, c.debounceMs))
              || (c.keepAliveMs > 0 && Passed(reading, y.h.cleanAt, c.keepAliveMs))
           then Decided(y.w.snapshot, y.w.generation) else Leaving
  {
    var y := Exec(c, Start(c, n, now), acts);
    assert Timed(Start(c, n, now)) && Inv(c, Start(c, n, now));
    hide Run, Exec;
    RunTimed(c, Start(c, n, now), acts);
    PassedIsElapsed(reading, y.h.since, c.debounceMs);
    PassedIsElapsed(reading, y.h.cleanAt, c.keepAliveMs);
    hide ElapsedMs, Passed, InitialSnapshot, Acknowledged, OneHolder, Honoured;
  }

  // ---------------------------------------------------------------- the flag is given back

  ghost predicate Held(y: Sys)
  {
    y.inFlight ==> exists i :: 0 <= i < |y.workers| && y.workers[i] != Resting
  }

  lemma StepHeld(c: Config, y: Sys, a: Action)
    requires Inv(c, y) && Held(y) && Enabled(c, y, a)
    ensures Held(Next(c, y, a))
  {
    hide StageRegister, FlushDue, MarkFlushed, ForceFlush, Acknowledged, Honoured, WriteOk;
    var z := Next(c, y, a);
    if a.Decide? || a.Submit? || a.Complete? || (a.Tick? && !y.inFlight) {
      assert z.workers[a.i] != Resting;
    }
  }

  lemma {:induction false} RunHeld(c: Config, y: Sys, acts: seq<Action>)
    requires Inv(c, y) && Held(y) && Run(c, y, acts)
    ensures Held(Exec(c, y, acts)) && Inv(c, Exec(c, y, acts))
    decreases |acts|
  {
    hide Inv, Held, Next, Enabled;
    if acts != [] {
      StepInv(c, y, acts[0]);
      StepHeld(c, y, acts[0]);
      RunHeld(c, Next(c, y, acts[0]), acts[1..]);
    }
  }

  /** In every run the in-flight flag is set exactly while one tick or its write is under way, so a later tick gets its turn. */
  lemma FlagIsHeld(c: Config, n: nat, now: nat, acts: seq<Action>)
    requires Run(c, Start(c, n, now), acts)
    ensures var y := Exec(c, Start(c, n, now), acts);
      y.inFlight <==> exists i :: 0 <= i < |y.workers| && y.workers[i] != Resting
  {
    assert Inv(c, Start(c, n, now)) && Held(Start(c, n, now));
    hide Run, Exec;
    RunHeld(c, Start(c, n, now), acts);
  }
}
