/** The log dispatch queue: a bounded queue of records and one thread that hands batches to the sinks. */
module Logger {

  datatype Level = Trace | Debug | Info | Warn | Error | Critical

  /** A system record has a level; an operation record is audit data and has none. */
  datatype Content = SystemRecord(level: Level) | OperationRecord

  predicate IsDroppable(e: Content)
  {
    e.SystemRecord? && (e.level.Trace? || e.level.Debug?)
  }

  /** Audit data and records from Info upwards. */
  predicate Protected(e: Content)
  {
    e.OperationRecord? || e.level.Info? || e.level.Warn? || e.level.Error? || e.level.Critical?
  }

  datatype Record = Record(id: nat, content: Content)

  datatype Write = Write(sink: nat, rec: Record)

  /** What the locked section of an enqueue does with a record. */
  datatype Admission = Refused | Dropped | Blocked | Queued

  function Admit(cap: nat, depth: nat, stopping: bool, r: Record): Admission
  {
    if stopping then Refused
    else if depth < cap then Queued
    else if IsDroppable(r.content) then Dropped
    else Blocked
  }

  function Row(r: Record, sinks: seq<nat>): (w: seq<Write>)
    ensures |w| == |sinks|
  {
    seq(|sinks|, j requires 0 <= j < |sinks| => Write(sinks[j], r))
  }

  /** The writes of a batch: record by record, each to all sinks in order. */
  function Product(batch: seq<Record>, sinks: seq<nat>): seq<Write>
  {
    if batch == [] then [] else Product(batch[..|batch| - 1], sinks) + Row(batch[|batch| - 1], sinks)
  }

  function Without(sinks: seq<nat>, x: nat): (r: seq<nat>)
    ensures x !in r && forall y :: y in r ==> y in sinks
  {
    if sinks == [] then []
    else (if sinks[0] == x then [] else [sinks[0]]) + Without(sinks[1..], x)
  }

  class Dispatch {
    const cap: nat
    var queue: seq<Record>
    var stopping: bool
    var processing: bool
    var dropped: nat

    constructor (maxQueueDepth: int)
      ensures cap == (if maxQueueDepth > 1 then maxQueueDepth else 1)
      ensures queue == [] && !stopping && !processing && dropped == 0
    {
      cap := if maxQueueDepth > 1 then maxQueueDepth else 1;
      queue, stopping, processing, dropped := [], false, false, 0;
    }

    /** One pass of an enqueue through the lock; a blocked record comes again when there is room. */
    method EnqueueLocked(r: Record) returns (a: Admission)
      modifies this`queue, this`dropped
      ensures a == Admit(cap, old(|queue|), stopping, r)
      ensures queue == old(queue) + if a.Queued? then [r] else []
      ensures dropped == old(dropped) + if a.Dropped? then 1 else 0
    {
      if stopping { return Refused; }
      if |queue| >= cap {
        if IsDroppable(r.content) {
          dropped := dropped + 1;
          return Dropped;
        }
        return Blocked;
      }
      queue := queue + [r];
      return Queued;
    }

    method TakeLocked() returns (batch: seq<Record>)
      modifies this`queue, this`processing
      ensures batch == old(queue) && queue == []
      ensures processing == (old(processing) || old(queue) != [])
    {
      batch := queue;
      if queue != [] {
        queue := [];
        processing := true;
      }
    }

    /** The delivery loops of one batch. */
    method Deliver(batch: seq<Record>, sinks: seq<nat>) returns (writes: seq<Write>)
      ensures writes == Product(batch, sinks)
    {
      writes := [];
      for i := 0 to |batch|
        invariant writes == Product(batch[..i], sinks)
      {
        ghost var before := writes;
        for j := 0 to |sinks|
          invariant writes == before + Row(batch[i], sinks)[..j]
        {
          writes := writes + [Write(sinks[j], batch[i])];
        }
        assert Row(batch[i], sinks)[..|sinks|] == Row(batch[i], sinks);
        assert batch[..i + 1][..i] == batch[..i];
      }
      assert batch[..|batch|] == batch;
    }
  }

  /** Removing a sink erases every occurrence of it. */
  method EraseSink(sinks: seq<nat>, x: nat) returns (r: seq<nat>)
    ensures r == Without(sinks, x)
  {
    hide Without;
    r := [];
    WithoutNone(x);
    for i := 0 to |sinks|
      invariant r == Without(sinks[..i], x)
    {
      WithoutExact(sinks[..i], [sinks[i]], x, sinks[i]);
      assert sinks[..i + 1] == sinks[..i] + [sinks[i]];
      if sinks[i] != x { r := r + [sinks[i]]; }
    }
    assert sinks[..|sinks|] == sinks;
  }

  lemma WithoutNone(x: nat)
    ensures Without([], x) == []
  {
  }

  /** Removing a sink takes exactly its occurrences and keeps the others in order. */
  lemma WithoutExact(a: seq<nat>, b: seq<nat>, x: nat, y: nat)
    ensures Without([y], x) == if y == x then [] else [y]
    ensures Without(a + b, x) == Without(a, x) + Without(b, x)
  {
    assert [y][1..] == [] && Without([], x) == [];
    WithoutConcat(a, b, x);
  }

  lemma {:induction false} WithoutConcat(a: seq<nat>, b: seq<nat>, x: nat)
    ensures Without(a + b, x) == Without(a, x) + Without(b, x)
    decreases |a|
  {
    if a == [] {
      assert a + b == b && Without(a, x) == [];
    } else {
      assert (a + b)[0] == a[0] && (a + b)[1..] == a[1..] + b;
      WithoutConcat(a[1..], b, x);
    }
  }

  /** Each record is written once to each place of the sink list, in queue order. */
  lemma {:induction false} ProductAt(batch: seq<Record>, sinks: seq<nat>, i: nat, j: nat)
    requires i < |batch| && j < |sinks|
    ensures |Product(batch, sinks)| == |batch| * |sinks|
    ensures 0 <= i * |sinks| + j < |batch| * |sinks|
    ensures Product(batch, sinks)[i * |sinks| + j] == Write(sinks[j], batch[i])
    decreases |batch|
  {
    var n := |batch| - 1;
    var m := |sinks|;
    var front := batch[..n];
    assert |batch| * m == n * m + m;
    if n > 0 {
      ProductAt(front, sinks, if i < n then i else 0, j);
    } else {
      assert Product(front, sinks) == [];
    }
    if i < n {
      assert front[i] == batch[i];
    }
  }

  lemma {:induction false} ProductSinks(batch: seq<Record>, sinks: seq<nat>, w: Write)
    requires w in Product(batch, sinks)
    ensures w.sink in sinks && w.rec in batch
    decreases |batch|
  {
    var n := |batch| - 1;
    if w in Product(batch[..n], sinks) {
      ProductSinks(batch[..n], sinks, w);
    }
  }
}

/** Producers, the dispatch thread, flushers, sink changes and stopping, in every interleaving. */
module LoggerSystem {
  import opened Logger

  datatype Batch = Batch(recs: seq<Record>, sinks: seq<nat>)

  // The dispatch thread: waiting for records, about to copy the sink list,
  // delivering, and the same again for the tail after stopping, or ended.
  datatype Phase = Waiting | Copying(tail: bool) | Delivering(tail: bool, n: nat) | TailTake | Ended

  // A thread inside flush, and what it came for; `mark` is the number of
  // records queued before its call.
  datatype Waiter = Flush(mark: nat) | Remove(mark: nat, sink: nat)

  datatype Sys = Sys(
    queue: seq<Record>,
    stopping: bool,
    processing: bool,
    phase: Phase,
    batch: seq<Record>,
    local: seq<nat>,
    sinks: seq<nat>,
    blocked: seq<Record>,       // producers waiting for room
    waiters: seq<Waiter>,
    writes: seq<Write>,         // history: every write to a sink
    log: seq<Batch>,            // history: the finished batches
    enqueued: seq<Record>,      // history: every queued record
    offered: seq<Record>,       // history: every record offered before stopping
    dropped: set<Record>,       // history
    abandoned: set<Record>,     // history: blocked records given up on stopping
    marks: seq<nat>)            // history: marks of the flushes that returned before stopping

  datatype Action =
    | Log(content: Content) | Resume(i: nat) | Stop
    | Take | Copy | WriteOne | Finish | TakeTail
    | AddSink(x: nat) | RemoveSink(x: nat) | StartFlush | Return(i: nat)
    | OwnRemove(x: nat) | OwnFlush    // removeSink and flush called on the dispatch thread

  function Start(): Sys
  {
    Sys([], false, false, Waiting, [], [], [], [], [], [], [], [], [], {}, {}, [])
  }

  function Remainder<T>(s: seq<T>, i: nat): seq<T>
    requires i < |s|
  {
    s[..i] + s[i + 1..]
  }

  /** The dispatch thread is inside a sink: in the write made last, or in the flush of the sinks at the end. */
  predicate InsideSink(s: Sys)
  {
    s.phase.Delivering? && (s.phase.n > 0 || s.phase.tail)
  }

  predicate Enabled(cap: nat, s: Sys, a: Action)
  {
    match a
    case Log(_) => true
    case Resume(i) => i < |s.blocked| && (s.stopping || |s.queue| < cap)
    case Stop => true
    case Take => s.phase.Waiting? && (s.stopping || s.queue != [])
    case Copy => s.phase.Copying?
    case WriteOne => s.phase.Delivering? && s.phase.n < |Product(s.batch, s.local)|
    case Finish => s.phase.Delivering? && s.phase.n == |Product(s.batch, s.local)|
    case TakeTail => s.phase.TailTake?
    case AddSink(_) => true
    case RemoveSink(_) => true
    case StartFlush => true
    case Return(i) => i < |s.waiters| && (s.stopping || (s.queue == [] && !s.processing))
    case OwnRemove(_) => InsideSink(s)
    case OwnFlush => InsideSink(s)
  }

  function Offer(cap: nat, s: Sys, r: Record): Sys
  {
    match Admit(cap, |s.queue|, s.stopping, r)
    case Refused => s
    case Dropped => s.(offered := s.offered + [r], dropped := s.dropped + {r})
    case Blocked => s.(offered := s.offered + [r], blocked := s.blocked + [r])
    case Queued => s.(offered := s.offered + [r], queue := s.queue + [r], enqueued := s.enqueued + [r])
  }

  function Next(cap: nat, s: Sys, a: Action): Sys
    requires Enabled(cap, s, a)
  {
    match a
    case Log(content) => Offer(cap, s, Record(|s.offered|, content))
    case Resume(i) =>
      var r := s.blocked[i];
      if s.stopping then s.(blocked := Remainder(s.blocked, i), abandoned := s.abandoned + {r})
      else s.(blocked := Remainder(s.blocked, i), queue := s.queue + [r], enqueued := s.enqueued + [r])
    case Stop => s.(stopping := true)
    case Take =>
      if s.queue == [] then s.(phase := TailTake)
      else s.(batch := s.queue, queue := [], processing := true, phase := Copying(false))
    case Copy => s.(local := s.sinks, phase := Delivering(s.phase.tail, 0))
    case WriteOne =>
      s.(writes := s.writes + [Product(s.batch, s.local)[s.phase.n]], phase := s.phase.(n := s.phase.n + 1))
    case Finish =>
      var t := s.(log := s.log + [Batch(s.batch, s.local)], batch := []);
      if s.phase.tail then t.(phase := Ended) else t.(processing := false, phase := Waiting)
    case TakeTail => s.(batch := s.queue, queue := [], phase := Copying(true))
    case AddSink(x) => s.(sinks := s.sinks + [x])
    case RemoveSink(x) => s.(sinks := Without(s.sinks, x), waiters := s.waiters + [Remove(|s.enqueued|, x)])
    case StartFlush => s.(waiters := s.waiters + [Flush(|s.enqueued|)])
    case Return(i) =>
      var w := s.waiters[i];
      var t := s.(waiters := Remainder(s.waiters, i));
      if s.stopping then t else t.(marks := s.marks + [w.mark])
    case OwnRemove(x) => s.(sinks := Without(s.sinks, x))
    case OwnFlush => s
  }

  predicate Run(cap: nat, s: Sys, run: seq<Action>)
    decreases |run|
  {
    run == [] || (Enabled(cap, s, run[0]) && Run(cap, Next(cap, s, run[0]), run[1..]))
  }

  function Exec(cap: nat, s: Sys, run: seq<Action>): Sys
    requires Run(cap, s, run)
    decreases |run|
  {
    if run == [] then s else Exec(cap, Next(cap, s, run[0]), run[1..])
  }

  // ---------------------------------------------------------------- the invariant

  /** The records of the finished batches, in order. */
  function Records(log: seq<Batch>): seq<Record>
  {
    if log == [] then [] else Records(log[..|log| - 1]) + log[|log| - 1].recs
  }

  /** The writes of the finished batches, in order. */
  function Delivered(log: seq<Batch>): seq<Write>
  {
    if log == [] then [] else Delivered(log[..|log| - 1]) + Product(log[|log| - 1].recs, log[|log| - 1].sinks)
  }

  predicate Shaped(s: Sys)
  {
    && (s.processing <==> (s.phase.Copying? || s.phase.Delivering?) && !s.phase.tail)
    && (!s.processing ==> s.batch == [])
    && (s.phase.TailTake? || s.phase.Ended? || (!s.phase.Waiting? && s.phase.tail) ==> s.stopping && s.queue == [])
    && (s.phase.Delivering? ==> s.phase.n <= |Product(s.batch, s.local)|)
  }

  /** The writes of the batch being delivered that are already made. */
  function Begun(phase: Phase, writes: seq<Write>): seq<Write>
  {
    if phase.Delivering? && phase.n <= |writes| then writes[..phase.n] else []
  }

  predicate InOrder(s: Sys)
  {
    s.enqueued == Records(s.log) + s.batch + s.queue
  }

  predicate Written(s: Sys)
  {
    s.writes == Delivered(s.log) + Begun(s.phase, Product(s.batch, s.local))
  }

  predicate Fifo(s: Sys)
  {
    InOrder(s) && Written(s)
  }

  ghost predicate OnceOnly(a: seq<Record>, b: seq<Record>)
  {
    forall r :: multiset(a)[r] + multiset(b)[r] <= 1
  }

  /** Every offered record is queued once, blocked, dropped as droppable, or abandoned after stopping. */
  ghost predicate Kept(s: Sys)
  {
    && OnceOnly(s.enqueued, s.blocked)
    && (forall r :: r in s.enqueued || r in s.blocked || r in s.dropped || r in s.abandoned ==> r.id < |s.offered|)
    && (forall k :: 0 <= k < |s.offered| ==> s.offered[k].id == k && Present(s, s.offered[k]))
    && (forall r :: r in s.dropped ==> IsDroppable(r.content))
    && (s.abandoned != {} ==> s.stopping)
  }

  predicate Present(s: Sys, r: Record)
  {
    r in s.enqueued || r in s.blocked || r in s.dropped || r in s.abandoned
  }

  predicate Settled(s: Sys)
  {
    && (forall k :: 0 <= k < |s.marks| ==> s.marks[k] <= |Records(s.log)|)
    && (forall k :: 0 <= k < |s.waiters| ==> s.waiters[k].mark <= |s.enqueued|)
  }

  ghost predicate Inv(cap: nat, s: Sys)
  {
    |s.queue| <= cap && Shaped(s) && Fifo(s) && Kept(s) && Settled(s)
  }

  // ---------------------------------------------------------------- preservation

  lemma RecordsSnoc(log: seq<Batch>, b: Batch)
    ensures Records(log + [b]) == Records(log) + b.recs
    ensures Delivered(log + [b]) == Delivered(log) + Product(b.recs, b.sinks)
  {
    assert (log + [b])[..|log|] == log;
  }

  lemma StepShaped(cap: nat, s: Sys, a: Action)
    requires cap > 0 && |s.queue| <= cap && Shaped(s) && Enabled(cap, s, a)
    ensures Shaped(Next(cap, s, a)) && |Next(cap, s, a).queue| <= cap
  {
    hide Product, Without;
  }

  lemma StepInOrder(cap: nat, s: Sys, a: Action)
    requires Shaped(s) && InOrder(s) && Enabled(cap, s, a)
    ensures InOrder(Next(cap, s, a))
  {
    if a.Finish? {
      RecordsSnoc(s.log, Batch(s.batch, s.local));
    }
    hide Product, Records, Delivered, Without, Remainder;
  }

  lemma FinishWritten(cap: nat, s: Sys)
    requires Written(s) && Enabled(cap, s, Finish)
    ensures Written(Next(cap, s, Finish))
  {
    RecordsSnoc(s.log, Batch(s.batch, s.local));
    hide Product, Records, Delivered;
    var p := Product(s.batch, s.local);
    assert p[..|p|] == p;
    var t := Next(cap, s, Finish);
    assert Begun(t.phase, Product(t.batch, t.local)) == [];
  }

  lemma WriteWritten(cap: nat, s: Sys)
    requires Written(s) && Enabled(cap, s, WriteOne)
    ensures Written(Next(cap, s, WriteOne))
  {
    hide Product, Records, Delivered;
    var p := Product(s.batch, s.local);
    assert p[..s.phase.n + 1] == p[..s.phase.n] + [p[s.phase.n]];
  }

  /** Outside a delivery, nothing is begun. */
  lemma QuietWritten(s: Sys, t: Sys)
    requires Written(s) && t.writes == s.writes && t.log == s.log
    requires !s.phase.Delivering? && (t.phase.Delivering? ==> t.phase.n == 0)
    ensures Written(t)
  {
    hide Product, Records, Delivered;
    assert Begun(t.phase, Product(t.batch, t.local)) == [];
  }

  lemma StepWritten(cap: nat, s: Sys, a: Action)
    requires Shaped(s) && Written(s) && Enabled(cap, s, a)
    ensures Written(Next(cap, s, a))
  {
    match a
    case Finish => FinishWritten(cap, s);
    case WriteOne => WriteWritten(cap, s);
    case _ =>
      var t := Next(cap, s, a);
      hide Product, Delivered, Without, Remainder, Begun;
      if !s.phase.Delivering? { QuietWritten(s, t); }
  }

  lemma StepFifo(cap: nat, s: Sys, a: Action)
    requires Shaped(s) && Fifo(s) && Enabled(cap, s, a)
    ensures Fifo(Next(cap, s, a))
  {
    hide Shaped, Enabled, Next, InOrder, Written;
    StepInOrder(cap, s, a);
    StepWritten(cap, s, a);
  }

  lemma MoveOne(from: seq<Record>, i: nat, to: seq<Record>, r: Record)
    requires i < |from|
    ensures multiset(to + [from[i]])[r] + multiset(Remainder(from, i))[r] == multiset(to)[r] + multiset(from)[r]
    ensures r in from <==> r == from[i] || r in Remainder(from, i)
  {
    assert from == from[..i] + [from[i]] + from[i + 1..];
    assert multiset(from) == multiset(from[..i]) + multiset{from[i]} + multiset(from[i + 1..]);
    assert multiset(Remainder(from, i)) == multiset(from[..i]) + multiset(from[i + 1..]);
    assert r in from <==> r in multiset(from);
    assert r in Remainder(from, i) <==> r in multiset(Remainder(from, i));
  }

  lemma OnceAfter(a: seq<Record>, b: seq<Record>, r: Record)
    requires OnceOnly(a, b) && r !in a && r !in b
    ensures OnceOnly(a + [r], b) && OnceOnly(a, b + [r])
  {
    assert multiset(a)[r] == 0 && multiset(b)[r] == 0;
    assert multiset(a + [r]) == multiset(a) + multiset{r} && multiset(b + [r]) == multiset(b) + multiset{r};
    forall x ensures multiset(a + [r])[x] + multiset(b)[x] <= 1 && multiset(a)[x] + multiset(b + [r])[x] <= 1 {
      assert multiset(a)[x] + multiset(b)[x] <= 1;
    }
  }

  lemma OfferPresent(cap: nat, s: Sys, r: Record)
    requires !s.stopping
    ensures forall x :: Present(Offer(cap, s, r), x) <==> Present(s, x) || x == r
    ensures var t := Offer(cap, s, r); t.offered == s.offered + [r] && t.abandoned == s.abandoned
  {
  }

  lemma OfferOnce(cap: nat, s: Sys, r: Record)
    requires OnceOnly(s.enqueued, s.blocked) && r !in s.enqueued && r !in s.blocked
    requires forall x :: x in s.dropped ==> IsDroppable(x.content)
    ensures var t := Offer(cap, s, r); OnceOnly(t.enqueued, t.blocked) && forall x :: x in t.dropped ==> IsDroppable(x.content)
  {
    OnceAfter(s.enqueued, s.blocked, r);
    hide OnceOnly, IsDroppable;
  }

  lemma OfferKept(cap: nat, s: Sys, content: Content)
    requires Kept(s)
    ensures Kept(Offer(cap, s, Record(|s.offered|, content)))
  {
    var r := Record(|s.offered|, content);
    var t := Offer(cap, s, r);
    if s.stopping {
      assert t == s;
    } else {
      assert r !in s.enqueued && r !in s.blocked;
      OfferOnce(cap, s, r);
      OfferPresent(cap, s, r);
      KeptFrom(s, t, r);
    }
  }

  lemma KeptFrom(s: Sys, t: Sys, r: Record)
    requires Kept(s) && r.id == |s.offered| && t.offered == s.offered + [r] && t.abandoned == s.abandoned && !s.stopping
    requires OnceOnly(t.enqueued, t.blocked) && forall x :: x in t.dropped ==> IsDroppable(x.content)
    requires forall x :: Present(t, x) <==> Present(s, x) || x == r
    ensures Kept(t)
  {
    hide OnceOnly, IsDroppable;
    forall x | Present(t, x) ensures x.id < |t.offered| {
      assert x == r || Present(s, x);
    }
    forall k | 0 <= k < |t.offered| ensures t.offered[k].id == k && Present(t, t.offered[k]) {
      if k < |s.offered| { assert Present(s, s.offered[k]); }
    }
  }

  lemma ResumeKept(cap: nat, s: Sys, i: nat)
    requires Kept(s) && Enabled(cap, s, Resume(i))
    ensures Kept(Next(cap, s, Resume(i)))
  {
    var t := Next(cap, s, Resume(i));
    forall x: Record ensures multiset(t.enqueued)[x] + multiset(t.blocked)[x] <= 1 && (Present(s, x) <==> Present(t, x)) {
      MoveOne(s.blocked, i, s.enqueued, x);
      hide Remainder;
      assert multiset(s.enqueued)[x] + multiset(s.blocked)[x] <= 1;
      assert multiset(s.enqueued + [s.blocked[i]])[x] >= multiset(s.enqueued)[x];
    }
    hide Remainder;
    forall k | 0 <= k < |t.offered| ensures t.offered[k].id == k && Present(t, t.offered[k]) {
      assert Present(s, s.offered[k]);
    }
    forall x | Present(t, x) ensures x.id < |t.offered| {
      assert Present(s, x);
    }
  }

  lemma SameKept(s: Sys, t: Sys)
    requires Kept(s)
    requires t.enqueued == s.enqueued && t.blocked == s.blocked && t.dropped == s.dropped && t.abandoned == s.abandoned
    requires t.offered == s.offered && (s.stopping ==> t.stopping)
    ensures Kept(t)
  {
    forall k | 0 <= k < |t.offered| ensures t.offered[k].id == k && Present(t, t.offered[k]) {
      assert Present(s, s.offered[k]);
    }
  }

  lemma StepKept(cap: nat, s: Sys, a: Action)
    requires Kept(s) && Enabled(cap, s, a)
    ensures Kept(Next(cap, s, a))
  {
    match a
    case Log(content) => OfferKept(cap, s, content);
    case Resume(i) => ResumeKept(cap, s, i);
    case _ =>
      hide Kept, Product, Without, Remainder;
      SameKept(s, Next(cap, s, a));
  }

  lemma StepSettled(cap: nat, s: Sys, a: Action)
    requires Shaped(s) && Fifo(s) && Settled(s) && Enabled(cap, s, a)
    ensures Settled(Next(cap, s, a))
  {
    match a
    case Finish =>
      RecordsSnoc(s.log, Batch(s.batch, s.local));
      hide Records, Product, Delivered;
    case Return(i) =>
      hide Records, Product, Delivered;
    case _ =>
      hide Records, Product, Delivered;
  }

  lemma StepInv(cap: nat, s: Sys, a: Action)
    requires cap > 0 && Inv(cap, s) && Enabled(cap, s, a)
    ensures Inv(cap, Next(cap, s, a))
  {
    hide Shaped, Fifo, Kept, Settled, Next, Enabled;
    StepShaped(cap, s, a);
    StepFifo(cap, s, a);
    StepKept(cap, s, a);
    StepSettled(cap, s, a);
  }

  lemma {:induction false} RunInv(cap: nat, s: Sys, run: seq<Action>)
    requires cap > 0 && Inv(cap, s) && Run(cap, s, run)
    ensures Inv(cap, Exec(cap, s, run))
    decreases |run|
  {
    hide Inv, Next, Enabled;
    if run != [] {
      StepInv(cap, s, run[0]);
      RunInv(cap, Next(cap, s, run[0]), run[1..]);
    }
  }

  lemma Reached(cap: nat, run: seq<Action>)
    requires cap > 0 && Run(cap, Start(), run)
    ensures Inv(cap, Exec(cap, Start(), run))
  {
    assert Inv(cap, Start());
    hide Inv, Run, Exec;
    RunInv(cap, Start(), run);
  }

  // ---------------------------------------------------------------- theorems

  /**
   The queue keeps its capacity. A protected record offered before stopping is queued
   or its producer still waits; it is given up only after stopping, and never dropped.
   */
  lemma ProtectedNeverDropped(cap: nat, run: seq<Action>, k: nat)
    requires cap > 0 && Run(cap, Start(), run) && k < |Exec(cap, Start(), run).offered|
    ensures var s := Exec(cap, Start(), run);
            var r := s.offered[k];
            && |s.queue| <= cap
            && (Protected(r.content) ==> r !in s.dropped)
            && (Protected(r.content) && !s.stopping ==> r in s.enqueued || r in s.blocked)
            && (r in s.enqueued || r in s.blocked || r in s.dropped || (r in s.abandoned && s.stopping))
  {
    Reached(cap, run);
    var s := Exec(cap, Start(), run);
    hide Run, Exec, Fifo, Settled, Shaped;
    assert Present(s, s.offered[k]);
  }

  /**
   What happens to a record that is offered: nothing after stopping; with room it joins
   the end of the queue; without room it is dropped if it is a system record below Info,
   and otherwise its producer waits.
   */
  lemma OfferExact(cap: nat, s: Sys, content: Content)
    ensures var r := Record(|s.offered|, content);
            Next(cap, s, Log(content)) ==
              if s.stopping then s
              else if |s.queue| < cap then s.(offered := s.offered + [r], queue := s.queue + [r], enqueued := s.enqueued + [r])
              else if Protected(content) then s.(offered := s.offered + [r], blocked := s.blocked + [r])
              else s.(offered := s.offered + [r], dropped := s.dropped + {r})
  {
  }

  /**
   Records reach the sinks in queue order, each once for every place in the sink list
   of its batch: the writes are those of the finished batches and of the begun one,
   whose records are a prefix of what was queued.
   */
  lemma FifoDelivery(cap: nat, run: seq<Action>)
    requires cap > 0 && Run(cap, Start(), run)
    ensures var s := Exec(cap, Start(), run);
            && s.enqueued == Records(s.log) + s.batch + s.queue
            && (forall r :: multiset(s.enqueued)[r] <= 1)
            && Delivered(s.log) <= s.writes <= Delivered(s.log) + Product(s.batch, s.local)
            && (s.phase.Ended? ==> s.enqueued == Records(s.log) && s.writes == Delivered(s.log))
  {
    Reached(cap, run);
    var s := Exec(cap, Start(), run);
    hide Run, Exec, Settled, Records, Delivered;
    if s.phase.Ended? {
      assert s.batch == [] && s.queue == [];
    }
  }

  // ---------------------------------------------------------------- flushing

  /** Every queued record has been written to all the sinks of its batch. */
  predicate AllDelivered(s: Sys)
  {
    var log := s.log + [Batch(s.batch, s.local)];
    (s.phase.Delivering? || s.batch == []) && s.enqueued == Records(log) && s.writes == Delivered(log)
  }

  /** What is left of the batch: writes to make, or records before the sinks are known. */
  function Left(s: Sys): int
  {
    if s.phase.Delivering? then |Product(s.batch, s.local)| - s.phase.n else |s.batch|
  }

  lemma DeliveredExact(cap: nat, s: Sys)
    requires Inv(cap, s)
    ensures AllDelivered(s) <==> s.queue == [] && Left(s) == 0
  {
    RecordsSnoc(s.log, Batch(s.batch, s.local));
    assert s.batch == [] ==> Product(s.batch, s.local) == [];
    hide Product, Records, Delivered, Kept, Settled;
    var p := Product(s.batch, s.local);
    var recs := Records(s.log) + s.batch;
    assert s.enqueued == recs + s.queue;
    assert |s.enqueued| == |recs| + |s.queue|;
    assert s.queue == [] ==> s.enqueued == recs;
    if s.phase.Delivering? {
      assert |s.writes| == |Delivered(s.log)| + s.phase.n;
      assert s.phase.n == |p| ==> p[..s.phase.n] == p;
    }
  }

  /**
   Exactly when a flush or removal that returns has seen everything delivered: always
   if it comes from another thread before stopping; on the dispatch thread itself, or
   once stopping, only if nothing is queued and nothing of the batch is left.
   */
  lemma FlushExact(cap: nat, run: seq<Action>, a: Action)
    requires cap > 0 && Run(cap, Start(), run) && (a.Return? || a.OwnFlush? || a.OwnRemove?)
    requires Enabled(cap, Exec(cap, Start(), run), a)
    ensures var s := Exec(cap, Start(), run);
            AllDelivered(s) <==> (a.Return? && !s.stopping) || (s.queue == [] && Left(s) == 0)
  {
    hide Inv, Run, Exec, Enabled, Next, AllDelivered, Left;
    Reached(cap, run);
    var s := Exec(cap, Start(), run);
    DeliveredExact(cap, s);
    if a.Return? && !s.stopping {
      ReturnSeesNothingLeft(cap, s, a.i);
    }
  }

  /** Before stopping a waiter returns only when nothing is queued or in hand. */
  lemma ReturnSeesNothingLeft(cap: nat, s: Sys, i: nat)
    requires Inv(cap, s) && Enabled(cap, s, Return(i)) && !s.stopping
    ensures s.queue == [] && Left(s) == 0
  {
    hide Kept, Fifo, Settled, Records, Delivered, Product;
  }

  /** A flush of another thread that returns before stopping has delivered all that is queued. */
  lemma FlushDelivers(cap: nat, run: seq<Action>, i: nat)
    requires cap > 0 && Run(cap, Start(), run)
    requires var s := Exec(cap, Start(), run); !s.stopping && Enabled(cap, s, Return(i))
    ensures var s := Exec(cap, Start(), run);
            s.waiters[i].mark <= |s.enqueued| && s.enqueued == Records(s.log) && s.writes == Delivered(s.log)
  {
    Reached(cap, run);
    var s := Exec(cap, Start(), run);
    hide Run, Exec, Kept, Records, Delivered, Product;
    assert s.batch == [] && s.queue == [];
  }

  /** What such a flush waited for stays delivered. */
  lemma FlushedForGood(cap: nat, run: seq<Action>, k: nat)
    requires cap > 0 && Run(cap, Start(), run) && k < |Exec(cap, Start(), run).marks|
    ensures var s := Exec(cap, Start(), run);
            s.marks[k] <= |Records(s.log)| && Records(s.log) <= s.enqueued
  {
    Reached(cap, run);
    hide Run, Exec, Kept, Records, Delivered, Product;
  }

  // ---------------------------------------------------------------- removing a sink

  predicate NeverAdded(run: seq<Action>, x: nat)
  {
    forall k :: 0 <= k < |run| ==> run[k] != AddSink(x)
  }

  /** A write of the batch being delivered that is still to come goes to the sink. */
  predicate Pending(s: Sys, x: nat)
  {
    s.phase.Delivering? && exists k :: s.phase.n <= k < |Product(s.batch, s.local)| && Product(s.batch, s.local)[k].sink == x
  }

  predicate Unwritten(before: seq<Write>, after: seq<Write>, x: nat)
  {
    before <= after && forall k :: |before| <= k < |after| ==> after[k].sink != x
  }

  /** Nothing is written to the sink from here on, unless it is added again. */
  ghost predicate Silent(cap: nat, s: Sys, x: nat)
  {
    forall more :: Run(cap, s, more) && NeverAdded(more, x) ==> Unwritten(s.writes, Exec(cap, s, more).writes, x)
  }

  lemma CopyPending(s: Sys, x: nat)
    requires x !in s.sinks
    ensures forall w :: w in Product(s.batch, s.sinks) ==> w.sink != x
  {
    forall w | w in Product(s.batch, s.sinks) ensures w.sink != x { ProductSinks(s.batch, s.sinks, w); }
  }

  lemma QuietStep(cap: nat, s: Sys, a: Action, x: nat)
    requires Shaped(s) && x !in s.sinks && !Pending(s, x) && Enabled(cap, s, a) && a != AddSink(x) && !a.Copy? && !a.WriteOne?
    ensures var t := Next(cap, s, a); x !in t.sinks && !Pending(t, x) && t.writes == s.writes
  {
    hide Product, Without, Remainder, Admit;
  }

  lemma WriteStep(cap: nat, s: Sys, x: nat)
    requires !Pending(s, x) && Enabled(cap, s, WriteOne)
    ensures var t := Next(cap, s, WriteOne); !Pending(t, x) && Unwritten(s.writes, t.writes, x)
  {
    hide Product;
    var p := Product(s.batch, s.local);
    assert p[s.phase.n].sink != x;
  }

  lemma StepUnwritten(cap: nat, s: Sys, a: Action, x: nat)
    requires Shaped(s) && x !in s.sinks && !Pending(s, x) && Enabled(cap, s, a) && a != AddSink(x)
    ensures var t := Next(cap, s, a); x !in t.sinks && !Pending(t, x) && Unwritten(s.writes, t.writes, x)
  {
    if a.Copy? {
      CopyPending(s, x);
      hide Product;
      var p := Product(s.batch, s.sinks);
      forall k | 0 <= k < |p| ensures p[k].sink != x { assert p[k] in p; }
    } else if a.WriteOne? {
      WriteStep(cap, s, x);
      hide Product;
    } else {
      QuietStep(cap, s, a, x);
    }
  }

  lemma {:induction false} RunUnwritten(cap: nat, s: Sys, run: seq<Action>, x: nat)
    requires cap > 0 && Inv(cap, s) && Run(cap, s, run) && x !in s.sinks && !Pending(s, x) && NeverAdded(run, x)
    ensures Unwritten(s.writes, Exec(cap, s, run).writes, x)
    decreases |run|
  {
    hide Shaped, Fifo, Kept, Settled, Next, Enabled, Pending;
    if run != [] {
      var t := Next(cap, s, run[0]);
      StepInv(cap, s, run[0]);
      StepUnwritten(cap, s, run[0], x);
      assert NeverAdded(run[1..], x);
      RunUnwritten(cap, t, run[1..], x);
    }
  }

  function WriteSome(m: nat): (run: seq<Action>)
    ensures |run| == m && forall k :: 0 <= k < m ==> run[k] == WriteOne
  {
    if m == 0 then [] else [WriteOne] + WriteSome(m - 1)
  }

  /** The delivery can go on by itself. */
  lemma {:induction false} DeliverOn(cap: nat, s: Sys, m: nat)
    requires s.phase.Delivering? && s.phase.n + m <= |Product(s.batch, s.local)|
    ensures Run(cap, s, WriteSome(m))
    ensures Exec(cap, s, WriteSome(m)).writes == s.writes + Product(s.batch, s.local)[s.phase.n..s.phase.n + m]
    decreases m
  {
    hide Product;
    if m > 0 {
      var t := Next(cap, s, WriteOne);
      assert WriteSome(m)[0] == WriteOne && WriteSome(m)[1..] == WriteSome(m - 1);
      DeliverOn(cap, t, m - 1);
    }
  }

  /** A sink that is not registered stays silent exactly when no write to it is still to come. */
  lemma SilentExact(cap: nat, s: Sys, x: nat)
    requires cap > 0 && Inv(cap, s) && x !in s.sinks
    ensures Silent(cap, s, x) <==> !Pending(s, x)
  {
    hide Inv, Run, Exec, Product;
    if !Pending(s, x) {
      forall more | Run(cap, s, more) && NeverAdded(more, x) ensures Unwritten(s.writes, Exec(cap, s, more).writes, x) {
        RunUnwritten(cap, s, more, x);
      }
    } else {
      var p := Product(s.batch, s.local);
      var k :| s.phase.n <= k < |p| && p[k].sink == x;
      var m := k - s.phase.n + 1;
      DeliverOn(cap, s, m);
      var after := Exec(cap, s, WriteSome(m)).writes;
      assert after[|s.writes| + m - 1] == p[k];
      assert !Unwritten(s.writes, after, x);
      assert NeverAdded(WriteSome(m), x);
    }
  }

  /** The step by which a removal returns to its caller, and the sink that it removed. */
  predicate Removes(cap: nat, s: Sys, a: Action, x: nat)
  {
    && Enabled(cap, s, a)
    && if a.Return? then s.waiters[a.i].Remove? && s.waiters[a.i].sink == x && x !in s.sinks else a == OwnRemove(x)
  }

  /**
   When the removal of a sink has returned, exactly when is that sink silent for good,
   unless it is added again: always if the removal came from another thread before
   stopping; on the dispatch thread itself, or once stopping, only if no write of the
   batch being delivered that is still to come names it.
   */
  lemma RemovedStaysSilent(cap: nat, run: seq<Action>, a: Action, x: nat)
    requires cap > 0 && Run(cap, Start(), run) && Removes(cap, Exec(cap, Start(), run), a, x)
    ensures var s := Exec(cap, Start(), run);
            Silent(cap, Next(cap, s, a), x) <==> (a.Return? && !s.stopping) || !Pending(s, x)
  {
    Reached(cap, run);
    var s := Exec(cap, Start(), run);
    StepInv(cap, s, a);
    RemovalStep(cap, s, a, x);
    hide Run, Exec, Inv, Silent, Next, Pending;
    SilentExact(cap, Next(cap, s, a), x);
  }

  lemma RemovalStep(cap: nat, s: Sys, a: Action, x: nat)
    requires Shaped(s) && Removes(cap, s, a, x)
    ensures var t := Next(cap, s, a); x !in t.sinks && (Pending(t, x) <==> Pending(s, x) && !(a.Return? && !s.stopping))
  {
    hide Product, Without, Remainder;
  }

  // ---------------------------------------------------------------- a sink that removes itself

  lemma {:induction false} RunAppend(cap: nat, s: Sys, r1: seq<Action>, r2: seq<Action>)
    requires Run(cap, s, r1) && Run(cap, Exec(cap, s, r1), r2)
    ensures Run(cap, s, r1 + r2) && Exec(cap, s, r1 + r2) == Exec(cap, Exec(cap, s, r1), r2)
    decreases |r1|
  {
    hide Next, Enabled;
    if r1 == [] {
      assert r1 + r2 == r2;
    } else {
      assert (r1 + r2)[0] == r1[0] && (r1 + r2)[1..] == r1[1..] + r2;
      RunAppend(cap, Next(cap, s, r1[0]), r1[1..], r2);
    }
  }

  lemma RunOneMore(cap: nat, s: Sys, run: seq<Action>, a: Action)
    requires Run(cap, s, run) && Enabled(cap, Exec(cap, s, run), a)
    ensures Run(cap, s, run + [a]) && Exec(cap, s, run + [a]) == Next(cap, Exec(cap, s, run), a)
  {
    hide Next, Enabled;
    var t := Exec(cap, s, run);
    assert [a][1..] == [];
    assert Run(cap, Next(cap, t, a), []) && Run(cap, t, [a]) && Exec(cap, t, [a]) == Exec(cap, Next(cap, t, a), []);
    RunAppend(cap, s, run, [a]);
  }

  lemma NoSteps(cap: nat, s: Sys)
    ensures Run(cap, s, []) && Exec(cap, s, []) == s
  {
  }

  /** The dispatch thread by itself: take, copy the sinks, make all the writes, finish. */
  function Cycle(n: nat): seq<Action>
  {
    [Take] + [Copy] + WriteSome(n) + [Finish]
  }

  /** One cycle of the waiting dispatch thread delivers everything that is queued to all registered sinks, and it waits again. */
  lemma CycleDelivers(cap: nat, s: Sys)
    requires s.phase == Waiting && s.queue != []
    ensures var n := |Product(s.queue, s.sinks)|;
            && Run(cap, s, Cycle(n))
            && var t := Exec(cap, s, Cycle(n));
               && t.queue == [] && t.phase == Waiting && !t.processing && t.batch == []
               && t.writes == s.writes + Product(s.queue, s.sinks)
               && t.log == s.log + [Batch(s.queue, s.sinks)]
  {
    hide Run, Exec, Product;
    var p := Product(s.queue, s.sinks);
    var r0: seq<Action> := [];
    assert Run(cap, s, r0) && Exec(cap, s, r0) == s by { NoSteps(cap, s); }
    RunOneMore(cap, s, r0, Take);
    assert r0 + [Take] == [Take];
    RunOneMore(cap, s, [Take], Copy);
    var u := Exec(cap, s, [Take] + [Copy]);
    assert u.phase == Delivering(false, 0) && u.batch == s.queue && u.local == s.sinks;
    DeliverOn(cap, u, |p|);
    assert p[0..|p|] == p;
    RunAppend(cap, s, [Take] + [Copy], WriteSome(|p|));
    DeliverKeeps(cap, u, |p|);
    RunOneMore(cap, s, [Take] + [Copy] + WriteSome(|p|), Finish);
  }

  lemma {:induction false} DeliverKeeps(cap: nat, s: Sys, m: nat)
    requires s.phase.Delivering? && s.phase.n + m <= |Product(s.batch, s.local)| && Run(cap, s, WriteSome(m))
    ensures var t := Exec(cap, s, WriteSome(m)); t == s.(writes := t.writes, phase := s.phase.(n := s.phase.n + m))
    decreases m
  {
    hide Product;
    if m > 0 {
      assert WriteSome(m)[0] == WriteOne && WriteSome(m)[1..] == WriteSome(m - 1);
      DeliverKeeps(cap, Next(cap, s, WriteOne), m - 1);
    }
  }

  lemma TwoRecords(a: Record, b: Record, x: nat)
    ensures Product([a, b], [x]) == [Write(x, a), Write(x, b)]
  {
    assert [a, b][..1] == [a] && [a][..0] == [];
    assert Product([a], [x]) == Row(a, [x]) == [Write(x, a)];
    assert Row(b, [x]) == [Write(x, b)];
  }

  /** Two records are being delivered to sink 7, which is inside its first write. */
  lemma InsideFirstWrite()
    ensures var run := [AddSink(7)] + [Log(OperationRecord)] + [Log(OperationRecord)] + [Take] + [Copy] + [WriteOne];
            && Run(2, Start(), run)
            && var s := Exec(2, Start(), run);
               && s.phase == Delivering(false, 1) && s.sinks == [7] && s.local == [7] && !s.stopping
               && s.batch == [Record(0, OperationRecord), Record(1, OperationRecord)] && s.writes == [Write(7, Record(0, OperationRecord))]
  {
    hide Run, Exec, Product;
    var r0: seq<Action> := [];
    assert Run(2, Start(), r0) && Exec(2, Start(), r0) == Start() by { NoSteps(2, Start()); }
    RunOneMore(2, Start(), r0, AddSink(7));
    assert r0 + [AddSink(7)] == [AddSink(7)];
    RunOneMore(2, Start(), [AddSink(7)], Log(OperationRecord));
    RunOneMore(2, Start(), [AddSink(7)] + [Log(OperationRecord)], Log(OperationRecord));
    RunOneMore(2, Start(), [AddSink(7)] + [Log(OperationRecord)] + [Log(OperationRecord)], Take);
    RunOneMore(2, Start(), [AddSink(7)] + [Log(OperationRecord)] + [Log(OperationRecord)] + [Take], Copy);
    var s := Exec(2, Start(), [AddSink(7)] + [Log(OperationRecord)] + [Log(OperationRecord)] + [Take] + [Copy]);
    assert s.batch == [Record(0, OperationRecord), Record(1, OperationRecord)] && s.local == [7];
    TwoRecords(Record(0, OperationRecord), Record(1, OperationRecord), 7);
    RunOneMore(2, Start(), [AddSink(7)] + [Log(OperationRecord)] + [Log(OperationRecord)] + [Take] + [Copy], WriteOne);
  }

  /**
   A sink that removes itself in its first write is written once more after the removal
   has returned, and a flush that it calls there returns with a record undelivered.
   */
  lemma SelfRemovalWrittenAgain()
    ensures var run := [AddSink(7)] + [Log(OperationRecord)] + [Log(OperationRecord)] + [Take] + [Copy] + [WriteOne];
            && Run(2, Start(), run)
            && var s := Exec(2, Start(), run);
               && Enabled(2, s, OwnFlush) && !AllDelivered(s)
               && Enabled(2, s, OwnRemove(7))
               && var t := Next(2, s, OwnRemove(7));
                  && 7 !in t.sinks && Enabled(2, t, WriteOne)
                  && Next(2, t, WriteOne).writes == s.writes + [Write(7, Record(1, OperationRecord))]
  {
    InsideFirstWrite();
    var run := [AddSink(7)] + [Log(OperationRecord)] + [Log(OperationRecord)] + [Take] + [Copy] + [WriteOne];
    FlushExact(2, run, OwnFlush);
    TwoRecords(Record(0, OperationRecord), Record(1, OperationRecord), 7);
    hide Run, Exec, Product, AllDelivered;
  }
}
