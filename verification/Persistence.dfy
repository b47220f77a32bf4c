/**
 The bounded queue in front of the database: telemetry, operation and system rows
 share one capacity, and make room for each other by rank. A row is the number of
 the push that brought it.
 */
module Persistence {

  datatype Queue = Queue(telemetry: seq<nat>, ops: seq<nat>, system: seq<nat>, dropped: nat, running: bool)

  datatype Kind = Telemetry | Operation | System

  function Depth(q: Queue): nat
  {
    |q.telemetry| + |q.ops| + |q.system|
  }

  /** Room for a row of a kind: the queue after an eviction, or nothing if the row is refused. */
  datatype Room = Room(q: Queue, admitted: bool)

  function MakeRoomForTelemetry(q: Queue, max: nat): Room
  {
    if Depth(q) < max then Room(q, true)
    else if q.telemetry == [] then Room(q.(dropped := q.dropped + 1), false)
    else Room(q.(telemetry := q.telemetry[1..], dropped := q.dropped + 1), true)
  }

  function MakeRoomForSystem(q: Queue, max: nat): Room
  {
    if Depth(q) < max then Room(q, true)
    else if q.telemetry != [] then Room(q.(telemetry := q.telemetry[1..], dropped := q.dropped + 1), true)
    else if q.system == [] then Room(q.(dropped := q.dropped + 1), false)
    else Room(q.(system := q.system[1..], dropped := q.dropped + 1), true)
  }

  function MakeRoomForOperation(q: Queue, max: nat): Queue
  {
    if Depth(q) < max then q
    else
      var r := q.(dropped := q.dropped + 1);
      if q.telemetry != [] then r.(telemetry := q.telemetry[1..])
      else if q.system != [] then r.(system := q.system[1..])
      else if q.ops != [] then r.(ops := q.ops[1..])
      else r
  }

  function Push(q: Queue, max: nat, k: Kind, row: nat): Queue
  {
    if !q.running then q
    else match k
      case Telemetry =>
        var r := MakeRoomForTelemetry(q, max);
        if r.admitted then r.q.(telemetry := r.q.telemetry + [row]) else r.q
      case Operation =>
        var r := MakeRoomForOperation(q, max);
        r.(ops := r.ops + [row])
      case System =>
        var r := MakeRoomForSystem(q, max);
        if r.admitted then r.q.(system := r.q.system + [row]) else r.q
  }

  function Rows(q: Queue, k: Kind): seq<nat>
  {
    match k
    case Telemetry => q.telemetry
    case Operation => q.ops
    case System => q.system
  }

  // ---------------------------------------------------------------- who makes room

  /** A push never takes the queue over its capacity. */
  lemma PushBounded(q: Queue, max: nat, k: Kind, row: nat)
    requires max > 0 && Depth(q) <= max
    ensures Depth(Push(q, max, k, row)) <= max
  {
  }

  /** The only operation row ever evicted is the oldest, by a newer one, when every queued row is an operation. */
  lemma OperationsLast(q: Queue, max: nat, k: Kind, row: nat)
    requires max > 0 && Depth(q) <= max
    ensures var after := Push(q, max, k, row);
            if q.running && k == Operation && Depth(q) == max && q.telemetry == [] && q.system == []
            then after.ops == q.ops[1..] + [row]
            else after.ops == q.ops + if q.running && k == Operation then [row] else []
  {
  }

  /** A system row is evicted or refused only when no telemetry is queued. */
  lemma SystemBeforeOperations(q: Queue, max: nat, k: Kind, row: nat)
    requires max > 0 && Depth(q) <= max && q.telemetry != []
    ensures Push(q, max, k, row).system == q.system + if q.running && k == System then [row] else []
  {
  }

  /** Exactly one row is counted as dropped when a full running queue gets a push, and none otherwise. */
  lemma DropExact(q: Queue, max: nat, k: Kind, row: nat)
    requires max > 0 && Depth(q) <= max
    ensures var after := Push(q, max, k, row);
            && after.dropped == q.dropped + (if q.running && Depth(q) == max then 1 else 0)
            && Depth(after) + after.dropped == Depth(q) + q.dropped + (if q.running then 1 else 0)
  {
  }

  // ---------------------------------------------------------------- the object

  class BoundedQueue {
    const maxQueuedRows: nat
    var telemetry: seq<nat>
    var ops: seq<nat>
    var system: seq<nat>
    var droppedRows: nat
    var running: bool

    ghost function View(): Queue
      reads this
    {
      Queue(telemetry, ops, system, droppedRows, running)
    }

    constructor (max: nat)
      ensures maxQueuedRows == max && View() == Queue([], [], [], 0, true)
    {
      maxQueuedRows, telemetry, ops, system, droppedRows, running := max, [], [], [], 0, true;
    }

    function QueueDepth(): nat
      reads this
    {
      |telemetry| + |ops| + |system|
    }

    method RoomForTelemetry() returns (admitted: bool)
      modifies this`telemetry, this`droppedRows
      ensures Room(View(), admitted) == MakeRoomForTelemetry(old(View()), maxQueuedRows)
    {
      if QueueDepth() < maxQueuedRows { return true; }
      droppedRows := droppedRows + 1;
      if telemetry == [] { return false; }
      telemetry := telemetry[1..];
      return true;
    }

    method RoomForSystem() returns (admitted: bool)
      modifies this`telemetry, this`system, this`droppedRows
      ensures Room(View(), admitted) == MakeRoomForSystem(old(View()), maxQueuedRows)
    {
      if QueueDepth() < maxQueuedRows { return true; }
      droppedRows := droppedRows + 1;
      if telemetry != [] {
        telemetry := telemetry[1..];
        return true;
      }
      if system == [] { return false; }
      system := system[1..];
      return true;
    }

    method RoomForOperation()
      modifies this`telemetry, this`system, this`ops, this`droppedRows
      ensures View() == MakeRoomForOperation(old(View()), maxQueuedRows)
    {
      if QueueDepth() < maxQueuedRows { return; }
      droppedRows := droppedRows + 1;
      if telemetry != [] {
        telemetry := telemetry[1..];
      } else if system != [] {
        system := system[1..];
      } else if ops != [] {
        ops := ops[1..];
      }
    }

    method PushTelemetry(row: nat)
      modifies this
      ensures View() == Push(old(View()), maxQueuedRows, Telemetry, row)
    {
      if !running { return; }
      var admitted := RoomForTelemetry();
      if !admitted { return; }
      telemetry := telemetry + [row];
    }

    method PushOperation(row: nat)
      modifies this
      ensures View() == Push(old(View()), maxQueuedRows, Operation, row)
    {
      if !running { return; }
      RoomForOperation();
      ops := ops + [row];
    }

    method PushSystem(row: nat)
      modifies this
      ensures View() == Push(old(View()), maxQueuedRows, System, row)
    {
      if !running { return; }
      var admitted := RoomForSystem();
      if !admitted { return; }
      system := system + [row];
    }

    /** The worker takes the three queues and the drop count in one locked step. */
    method Take() returns (t: seq<nat>, o: seq<nat>, s: seq<nat>, dropped: nat)
      modifies this
      ensures t == old(telemetry) && o == old(ops) && s == old(system) && dropped == old(droppedRows)
      ensures View() == Queue([], [], [], 0, old(running))
    {
      t, telemetry := telemetry, [];
      o, ops := ops, [];
      s, system := system, [];
      dropped, droppedRows := droppedRows, 0;
    }
  }
}

/** Producers, the worker with its retained batch, failing inserts and shutdown, in every interleaving. */
module PersistenceSystem {
  import opened Persistence

  datatype Three = Three(telemetry: seq<nat>, ops: seq<nat>, system: seq<nat>)

  // The worker: at the top of its loop, about to insert each of the three
  // batches, judging the outcome, sleeping before a retry, or ended.
  datatype Worker = Top | Inserting(k: Kind, ok: bool) | Judging(ok: bool) | Sleeping | Ended(failed: bool)

  datatype Sys = Sys(
    q: Queue,
    batch: Three,
    stored: Three,
    worker: Worker,
    reported: nat,      // history: drops that the worker took over and logged
    unreported: nat,    // history: drops that the worker took over and did not log
    lostLogged: nat,    // history: rows logged as lost by a failed final flush
    pushed: nat,        // history: pushes while running
    gone: set<nat>)     // history: the rows evicted or refused

  datatype Action = DoPush(k: Kind) | Stop | Swap | Again | Insert(works: bool) | Judge | Wake

  function Of(t: Three, k: Kind): seq<nat>
  {
    match k
    case Telemetry => t.telemetry
    case Operation => t.ops
    case System => t.system
  }

  function Set(t: Three, k: Kind, rows: seq<nat>): Three
  {
    match k
    case Telemetry => t.(telemetry := rows)
    case Operation => t.(ops := rows)
    case System => t.(system := rows)
  }

  const NONE: Three := Three([], [], [])

  function Sizes(t: Three): nat
  {
    |t.telemetry| + |t.ops| + |t.system|
  }

  /** The worker's retained batches and the tables that it inserts into. */
  class BatchWriter {
    var batch: Three
    var stored: Three

    constructor (b: Three)
      ensures batch == b && stored == NONE
    {
      batch, stored := b, NONE;
    }

    /** Insert all rows of one batch or none; an empty batch needs no insert. */
    method InsertAll(k: Kind, works: bool) returns (ok: bool)
      modifies this
      ensures ok == (Of(old(batch), k) == [] || works)
      ensures batch == if ok then Set(old(batch), k, []) else old(batch)
      ensures stored == if ok then Set(old(stored), k, Of(old(stored), k) + Of(old(batch), k)) else old(stored)
    {
      var rows := Of(batch, k);
      if rows == [] {
        assert Of(stored, k) + rows == Of(stored, k);
        return true;
      }
      var list: seq<nat> := [];
      for i := 0 to |rows|
        invariant list == rows[..i]
      {
        list := list + [rows[i]];
      }
      assert list == rows;
      if !works { return false; }
      stored := Set(stored, k, Of(stored, k) + list);
      batch := Set(batch, k, []);
      return true;
    }

    /** All three inserts are tried; what fails stays in its batch, and nothing is lost, doubled or reordered. */
    method FlushBatch(worksTelemetry: bool, worksOperation: bool, worksSystem: bool) returns (ok: bool)
      modifies this
      ensures ok <==> batch == NONE
      ensures forall k :: Of(stored, k) + Of(batch, k) == old(Of(stored, k) + Of(batch, k))
      ensures forall k :: Of(batch, k) == [] || Of(batch, k) == old(Of(batch, k))
    {
      var t := InsertAll(Telemetry, worksTelemetry);
      var o := InsertAll(Operation, worksOperation);
      var s := InsertAll(System, worksSystem);
      ok := t && o && s;
    }
  }

  function Start(): Sys
  {
    Sys(Queue([], [], [], 0, true), NONE, NONE, Top, 0, 0, 0, 0, {})
  }

  predicate Enabled(s: Sys, a: Action)
  {
    match a
    case DoPush(_) => true
    case Stop => true
    case Swap => s.worker.Top? && s.batch == NONE
    case Again => s.worker.Top? && s.batch != NONE
    case Insert(_) => s.worker.Inserting?
    case Judge => s.worker.Judging?
    case Wake => s.worker.Sleeping?
  }

  /** The rows that a push removes from the queue or turns away. */
  function Lost(q: Queue, max: nat, k: Kind, row: nat): set<nat>
  {
    var after := Push(q, max, k, row);
    set x | x in q.telemetry + q.ops + q.system + [row] && x !in after.telemetry + after.ops + after.system
  }

  function Next(max: nat, s: Sys, a: Action): Sys
    requires Enabled(s, a)
  {
    match a
    case DoPush(k) =>
      if !s.q.running then s
      else s.(q := Push(s.q, max, k, s.pushed), pushed := s.pushed + 1, gone := s.gone + Lost(s.q, max, k, s.pushed))
    case Stop => s.(q := s.q.(running := false))
    case Swap =>
      if s.q.running && Depth(s.q) == 0 then s
      else
        var taken := s.(q := Queue([], [], [], 0, s.q.running), batch := Three(s.q.telemetry, s.q.ops, s.q.system));
        if !s.q.running && taken.batch == NONE
        then taken.(worker := Ended(false), unreported := s.unreported + s.q.dropped)
        else taken.(worker := Inserting(Telemetry, true), reported := s.reported + s.q.dropped)
    case Again => s.(worker := Inserting(Telemetry, true))
    case Insert(works) =>
      var k := s.worker.k;
      var rows := Of(s.batch, k);
      var ok := rows == [] || works;
      var after := if rows != [] && works
                   then s.(batch := Set(s.batch, k, []), stored := Set(s.stored, k, Of(s.stored, k) + rows))
                   else s;
      after.(worker := if k == Telemetry then Inserting(Operation, s.worker.ok && ok)
                       else if k == Operation then Inserting(System, s.worker.ok && ok)
                       else Judging(s.worker.ok && ok))
    case Judge =>
      if s.worker.ok then s.(worker := Top)
      else if !s.q.running then s.(worker := Ended(true), lostLogged := Sizes(s.batch))
      else s.(worker := Sleeping)
    case Wake => s.(worker := Top)
  }

  function Exec(max: nat, s: Sys, run: seq<Action>): Sys
    requires Run(max, s, run)
    decreases |run|
  {
    if run == [] then s else Exec(max, Next(max, s, run[0]), run[1..])
  }

  predicate Run(max: nat, s: Sys, run: seq<Action>)
    decreases |run|
  {
    run == [] || (Enabled(s, run[0]) && Run(max, Next(max, s, run[0]), run[1..]))
  }

  // ---------------------------------------------------------------- the invariant

  /** All rows of a kind that are not gone, in the order in which they will reach the table. */
  function Line(s: Sys, k: Kind): seq<nat>
  {
    Of(s.stored, k) + Of(s.batch, k) + Rows(s.q, k)
  }

  predicate Ascending(rows: seq<nat>, bound: nat)
  {
    && (forall i, j :: 0 <= i < j < |rows| ==> rows[i] < rows[j])
    && (forall i :: 0 <= i < |rows| ==> rows[i] < bound)
  }

  ghost predicate Ordered(s: Sys)
  {
    forall k :: Ascending(Line(s, k), s.pushed)
  }

  ghost predicate Somewhere(s: Sys, x: nat)
  {
    exists k :: x in Line(s, k)
  }

  /** Every push is in exactly one line or gone. */
  ghost predicate Accounted(s: Sys)
  {
    && (forall x :: x in s.gone ==> x < s.pushed && !Somewhere(s, x))
    && (forall x: nat :: x < s.pushed ==> x in s.gone || Somewhere(s, x))
    && (forall x, k, m :: x in Line(s, k) && x in Line(s, m) ==> k == m)
  }

  /** All drops counted so far. */
  function Drops(s: Sys): nat
  {
    s.q.dropped + s.reported + s.unreported
  }

  predicate Counted(s: Sys)
  {
    s.pushed == |Line(s, Telemetry)| + |Line(s, Operation)| + |Line(s, System)| + Drops(s)
  }

  predicate Phased(s: Sys)
  {
    match s.worker
    case Top => true
    case Inserting(k, ok) =>
      (match k
       case Telemetry => ok
       case Operation => ok <==> s.batch.telemetry == []
       case System => ok <==> s.batch.telemetry == [] && s.batch.ops == [])
    case Judging(ok) => ok <==> s.batch == NONE
    case Sleeping => s.batch != NONE
    case Ended(failed) =>
      !s.q.running && (if failed then s.batch != NONE && s.lostLogged == Sizes(s.batch) else s.batch == NONE && Depth(s.q) == 0)
  }

  /** A queue that dropped since it was last taken is still full; so the worker logs every drop that it takes over. */
  predicate Full(max: nat, s: Sys)
  {
    (s.q.dropped > 0 ==> Depth(s.q) == max) && s.unreported == 0 && (s.worker != Ended(true) ==> s.lostLogged == 0)
  }

  ghost predicate Inv(max: nat, s: Sys)
  {
    Depth(s.q) <= max && Ordered(s) && Accounted(s) && Counted(s) && Phased(s) && Full(max, s)
  }

  // ---------------------------------------------------------------- preservation

  /** A step that keeps every line, and the history, keeps the accounts. */
  lemma SameLines(s: Sys, t: Sys)
    requires forall k :: Line(t, k) == Line(s, k)
    requires t.pushed == s.pushed && t.gone == s.gone && Drops(t) == Drops(s)
    requires Ordered(s) && Accounted(s) && Counted(s)
    ensures Ordered(t) && Accounted(t) && Counted(t)
  {
    hide Line, Ascending;
    forall x ensures Somewhere(t, x) == Somewhere(s, x) {
      if k :| x in Line(s, k) { assert x in Line(t, k); }
      if k :| x in Line(t, k) { assert x in Line(s, k); }
    }
    assert forall k :: Ascending(Line(s, k), s.pushed);
    forall k ensures Ascending(Line(t, k), t.pushed) { assert Ascending(Line(s, k), s.pushed); }
  }

  lemma SwapLines(max: nat, s: Sys)
    requires Enabled(s, Swap)
    ensures forall k :: Line(Next(max, s, Swap), k) == Line(s, k)
  {
    forall k ensures Line(Next(max, s, Swap), k) == Line(s, k) {
      match k
      case Telemetry =>
      case Operation =>
      case System =>
    }
  }

  lemma InsertLines(max: nat, s: Sys, works: bool)
    requires Enabled(s, Insert(works))
    ensures forall k :: Line(Next(max, s, Insert(works)), k) == Line(s, k)
  {
    var t := Next(max, s, Insert(works));
    forall k ensures Line(t, k) == Line(s, k) {
      match k
      case Telemetry => assert t.stored.telemetry + t.batch.telemetry == s.stored.telemetry + s.batch.telemetry;
      case Operation => assert t.stored.ops + t.batch.ops == s.stored.ops + s.batch.ops;
      case System => assert t.stored.system + t.batch.system == s.stored.system + s.batch.system;
    }
  }

  /** What a push does to the rows of a kind: maybe the front goes, maybe the new row comes. */
  predicate Shift(before: seq<nat>, after: seq<nat>, row: nat, cut: bool, add: bool)
  {
    && (cut ==> before != [])
    && after == (if cut then before[1..] else before) + (if add then [row] else [])
  }

  /** Which kind gives a row up: its front, or the pushed row itself. */
  datatype Drop = NoDrop | Front(victim: Kind) | Refused

  function DropOf(q: Queue, max: nat, k: Kind): Drop
  {
    if Depth(q) < max then NoDrop
    else if q.telemetry != [] then Front(Telemetry)
    else match k
      case Telemetry => Refused
      case System => if q.system != [] then Front(System) else Refused
      case Operation => if q.system != [] then Front(System) else if q.ops != [] then Front(Operation) else NoDrop
  }

  lemma PushShifts(q: Queue, max: nat, k: Kind, row: nat, m: Kind)
    requires q.running && max > 0 && Depth(q) <= max
    ensures var d := DropOf(q, max, k);
            Shift(Rows(q, m), Rows(Push(q, max, k, row), m), row, d == Front(m), m == k && !d.Refused?)
    ensures Push(q, max, k, row).dropped == q.dropped + if DropOf(q, max, k).NoDrop? then 0 else 1
  {
  }

  lemma PushOrdered(max: nat, s: Sys, k: Kind)
    requires max > 0 && Depth(s.q) <= max && s.q.running && Ordered(s)
    ensures Ordered(Next(max, s, DoPush(k)))
  {
    var t := Next(max, s, DoPush(k));
    forall m ensures Ascending(Line(t, m), t.pushed) {
      assert Ascending(Line(s, m), s.pushed);
      PushShifts(s.q, max, k, s.pushed, m);
      hide Push, Lost, Rows;
      var d := DropOf(s.q, max, k);
      assert t.stored == s.stored && t.batch == s.batch && t.q == Push(s.q, max, k, s.pushed) && t.pushed == s.pushed + 1;
      ShiftAscending(Of(s.stored, m) + Of(s.batch, m), Rows(s.q, m), Rows(t.q, m), s.pushed, d == Front(m), m == k && !d.Refused?);
    }
  }

  lemma ShiftAscending(head: seq<nat>, before: seq<nat>, after: seq<nat>, row: nat, cut: bool, add: bool)
    requires Shift(before, after, row, cut, add) && Ascending(head + before, row)
    ensures Ascending(head + after, row + 1)
  {
    var line, next := head + before, head + after;
    var gap := if cut then 1 else 0;
    var n := |head| + |before| - gap;
    assert |next| == n + if add then 1 else 0;
    forall i | 0 <= i < n ensures next[i] == line[if i < |head| then i else i + gap] {
    }
    assert add ==> next[n] == row;
  }

  lemma PushCounted(max: nat, s: Sys, k: Kind)
    requires max > 0 && Depth(s.q) <= max && s.q.running && Counted(s)
    ensures Counted(Next(max, s, DoPush(k))) && Depth(Next(max, s, DoPush(k)).q) <= max
  {
    PushBounded(s.q, max, k, s.pushed);
    DropExact(s.q, max, k, s.pushed);
    hide Push, Lost;
    var t := Next(max, s, DoPush(k));
    assert t.stored == s.stored && t.batch == s.batch;
  }

  /** A row is in the queue or not, after a push. */
  lemma PushMembers(q: Queue, max: nat, k: Kind, row: nat, m: Kind, x: nat)
    requires q.running && max > 0 && Depth(q) <= max
    requires Ascending(Rows(q, m), row)
    ensures var d := DropOf(q, max, k);
            x in Rows(Push(q, max, k, row), m) <==>
              (x in Rows(q, m) && !(d == Front(m) && x == Rows(q, m)[0])) || (x == row && m == k && !d.Refused?)
  {
    PushShifts(q, max, k, row, m);
    hide Push;
    var d := DropOf(q, max, k);
    var before, after := Rows(q, m), Rows(Push(q, max, k, row), m);
    hide DropOf, Rows;
    ShiftMembers(before, after, row, d == Front(m), m == k && !d.Refused?, x);
  }

  lemma ShiftMembers(before: seq<nat>, after: seq<nat>, row: nat, cut: bool, add: bool, x: nat)
    requires Shift(before, after, row, cut, add) && Ascending(before, row)
    ensures x in after <==> (x in before && !(cut && x == before[0])) || (x == row && add)
  {
    if cut {
      assert before == [before[0]] + before[1..];
    }
  }

  /** The row that a push loses: the victim's front, the pushed row, or none. */
  function LostRow(q: Queue, max: nat, k: Kind, row: nat): set<nat>
  {
    match DropOf(q, max, k)
    case NoDrop => {}
    case Front(m) => if Rows(q, m) != [] then {Rows(q, m)[0]} else {}
    case Refused => {row}
  }

  predicate In(q: Queue, x: nat)
  {
    x in Rows(q, Telemetry) || x in Rows(q, Operation) || x in Rows(q, System)
  }

  lemma InThree(q: Queue, x: nat)
    ensures x in q.telemetry + q.ops + q.system <==> In(q, x)
  {
  }

  lemma FrontIn(q: Queue, max: nat, k: Kind)
    ensures DropOf(q, max, k).Front? ==> Rows(q, DropOf(q, max, k).victim) != []
  {
  }

  /** The rows of the three queues are different. */
  ghost predicate Separate(q: Queue, row: nat)
  {
    && (forall m :: Ascending(Rows(q, m), row))
    && (forall x, m, n :: x in Rows(q, m) && x in Rows(q, n) ==> m == n)
  }

  lemma LostIsRow(q: Queue, max: nat, k: Kind, row: nat)
    requires q.running && max > 0 && Depth(q) <= max && Separate(q, row)
    ensures Lost(q, max, k, row) == LostRow(q, max, k, row)
  {
    var after := Push(q, max, k, row);
    var d := DropOf(q, max, k);
    forall x ensures x in Lost(q, max, k, row) <==> x in LostRow(q, max, k, row) {
      PushMembers(q, max, k, row, Telemetry, x);
      PushMembers(q, max, k, row, Operation, x);
      PushMembers(q, max, k, row, System, x);
      InThree(q, x);
      InThree(after, x);
      FrontIn(q, max, k);
      hide Push, DropOf;
      assert x in q.telemetry + q.ops + q.system + [row] <==> In(q, x) || x == row;
    }
  }

  lemma LinesSeparate(s: Sys)
    requires Ordered(s) && Accounted(s)
    ensures Separate(s.q, s.pushed)
  {
    forall m ensures Ascending(Rows(s.q, m), s.pushed) {
      assert Ascending(Line(s, m), s.pushed);
      var off := |Of(s.stored, m)| + |Of(s.batch, m)|;
      assert forall i :: 0 <= i < |Rows(s.q, m)| ==> Rows(s.q, m)[i] == Line(s, m)[off + i];
      hide Line, Rows;
    }
    forall x, m, n | x in Rows(s.q, m) && x in Rows(s.q, n) ensures m == n {
      assert x in Line(s, m) && x in Line(s, n);
    }
  }

  lemma ShiftLine(head: seq<nat>, before: seq<nat>, after: seq<nat>, row: nat, cut: bool, add: bool, x: nat)
    requires Shift(before, after, row, cut, add) && Ascending(head + before, row)
    ensures x in head + after <==> (x in head + before && !(cut && x == before[0])) || (x == row && add)
  {
    var line := head + before;
    assert before != [] ==> line[|head|] == before[0];
    if x in head {
      var i :| 0 <= i < |head| && head[i] == x;
      assert line[i] == x;
    }
    assert forall i :: 0 <= i < |before| ==> line[|head| + i] == before[i];
    ShiftMembers(before, after, row, cut, add, x);
  }

  /** Who is in a line after a push. */
  lemma PushLine(max: nat, s: Sys, k: Kind, m: Kind, x: nat)
    requires max > 0 && Depth(s.q) <= max && s.q.running && Ordered(s)
    ensures var d := DropOf(s.q, max, k);
            x in Line(Next(max, s, DoPush(k)), m) <==>
              (x in Line(s, m) && !(d == Front(m) && Rows(s.q, m) != [] && x == Rows(s.q, m)[0])) || (x == s.pushed && m == k && !d.Refused?)
  {
    assert Ascending(Line(s, m), s.pushed);
    PushShifts(s.q, max, k, s.pushed, m);
    FrontIn(s.q, max, k);
    var t := Next(max, s, DoPush(k));
    var d := DropOf(s.q, max, k);
    hide Push, Lost, Rows, DropOf;
    ShiftLine(Of(s.stored, m) + Of(s.batch, m), Rows(s.q, m), Rows(t.q, m), s.pushed, d == Front(m), m == k && !d.Refused?, x);
  }

  lemma NotYet(s: Sys, m: Kind)
    requires Ordered(s)
    ensures s.pushed !in Line(s, m)
  {
    assert Ascending(Line(s, m), s.pushed);
    hide Line;
  }

  lemma PushAccounted(max: nat, s: Sys, k: Kind)
    requires max > 0 && Depth(s.q) <= max && s.q.running && Ordered(s) && Accounted(s)
    ensures Accounted(Next(max, s, DoPush(k)))
  {
    var t := Next(max, s, DoPush(k));
    var d := DropOf(s.q, max, k);
    LinesSeparate(s);
    LostIsRow(s.q, max, k, s.pushed);
    FrontIn(s.q, max, k);
    if d.Front? { FrontInLine(s, d.victim); }
    forall x: nat, m ensures x in Line(t, m) <==>
      (x in Line(s, m) && !(d == Front(m) && Rows(s.q, m) != [] && x == Rows(s.q, m)[0])) || (x == s.pushed && m == k && !d.Refused?)
    {
      PushLine(max, s, k, m, x);
    }
    forall m ensures s.pushed !in Line(s, m) { NotYet(s, m); }
    hide Line, Push, Lost, DropOf, Rows, Separate, Ordered;
    assert t.gone == s.gone + LostRow(s.q, max, k, s.pushed) && t.pushed == s.pushed + 1;
    AccountsAfter(s, t, d, k, if d.Front? then Rows(s.q, d.victim)[0] else s.pushed);
  }

  lemma FrontInLine(s: Sys, m: Kind)
    requires Rows(s.q, m) != [] && Ordered(s)
    ensures Rows(s.q, m)[0] in Line(s, m) && Rows(s.q, m)[0] < s.pushed
  {
    hide Rows;
    assert Ascending(Line(s, m), s.pushed);
    assert Rows(s.q, m)[0] in Rows(s.q, m);
  }

  /** The accounts after a push, from who is in the lines; `lost` is the row that goes, if one does. */
  lemma AccountsAfter(s: Sys, t: Sys, d: Drop, k: Kind, lost: nat)
    requires Accounted(s) && t.pushed == s.pushed + 1
    requires t.gone == s.gone + if d.NoDrop? then {} else {lost}
    requires d.Refused? ==> lost == s.pushed
    requires d.Front? ==> lost in Line(s, d.victim) && lost < s.pushed
    requires forall x: nat, m :: x in Line(t, m) <==>
               (x in Line(s, m) && !(d == Front(m) && x == lost)) || (x == s.pushed && m == k && !d.Refused?)
    requires forall m :: s.pushed !in Line(s, m)
    ensures Accounted(t)
  {
    hide Line;
    forall x | x in t.gone ensures x < t.pushed && !Somewhere(t, x) {
      if x in s.gone {
        assert !Somewhere(s, x);
        assert forall m :: x !in Line(s, m);
      } else {
        assert x == lost;
        if d.Front? {
          assert forall m :: x in Line(s, m) ==> m == d.victim;
        }
      }
    }
    forall x: nat | x < t.pushed ensures x in t.gone || Somewhere(t, x) {
      if x == s.pushed {
        if !d.Refused? { assert x in Line(t, k); }
      } else if x !in s.gone {
        assert Somewhere(s, x);
        var m :| x in Line(s, m);
        if !(d == Front(m) && x == lost) { assert x in Line(t, m); }
      }
    }
  }

  lemma PushPhased(max: nat, s: Sys, k: Kind)
    requires max > 0 && Depth(s.q) <= max && Phased(s) && Full(max, s) && s.q.running
    ensures Phased(Next(max, s, DoPush(k))) && Full(max, Next(max, s, DoPush(k)))
  {
    RunningKept(s.q, max, k, s.pushed);
    DropExact(s.q, max, k, s.pushed);
    hide Push, Lost;
  }

  lemma RunningKept(q: Queue, max: nat, k: Kind, row: nat)
    ensures Push(q, max, k, row).running == q.running
  {
  }

  lemma StepInv(max: nat, s: Sys, a: Action)
    requires max > 0 && Inv(max, s) && Enabled(s, a)
    ensures Inv(max, Next(max, s, a))
  {
    var t := Next(max, s, a);
    match a
    case DoPush(k) =>
      if s.q.running {
        hide Next, Ordered, Accounted, Counted, Phased, Depth, Full;
        PushOrdered(max, s, k);
        PushAccounted(max, s, k);
        PushCounted(max, s, k);
        PushPhased(max, s, k);
      }
    case Swap =>
      SwapLines(max, s);
      hide Ordered, Accounted, Line;
      if !(s.q.running && Depth(s.q) == 0) { SameLines(s, t); }
    case Insert(works) =>
      InsertLines(max, s, works);
      hide Ordered, Accounted, Line;
      SameLines(s, t);
    case _ =>
      assert forall k :: Line(t, k) == Line(s, k);
      hide Ordered, Accounted, Line;
      SameLines(s, t);
  }

  lemma {:induction false} RunInv(max: nat, s: Sys, run: seq<Action>)
    requires max > 0 && Inv(max, s) && Run(max, s, run)
    ensures Inv(max, Exec(max, s, run))
    decreases |run|
  {
    hide Inv, Next, Enabled;
    if run != [] {
      StepInv(max, s, run[0]);
      RunInv(max, Next(max, s, run[0]), run[1..]);
    }
  }

  lemma Reached(max: nat, run: seq<Action>)
    requires max > 0 && Run(max, Start(), run)
    ensures Inv(max, Exec(max, Start(), run))
  {
    assert Inv(max, Start()) by { StartInv(max); }
    hide Inv, Run, Exec;
    RunInv(max, Start(), run);
  }

  lemma StartInv(max: nat)
    ensures Inv(max, Start())
  {
    var s := Start();
    assert forall k :: Line(s, k) == [];
  }

  // ---------------------------------------------------------------- theorems

  /**
   In every run the queue keeps its capacity, and the rows accepted while running are
   those queued, in the worker's batch, stored and dropped. Once the worker has ended
   without a failed final flush, they are those stored and dropped.
   */
  lemma RowsConserved(max: nat, run: seq<Action>)
    requires max > 0 && Run(max, Start(), run)
    ensures var s := Exec(max, Start(), run);
            && Depth(s.q) <= max
            && s.pushed == Depth(s.q) + Sizes(s.batch) + Sizes(s.stored) + Drops(s)
            && (s.worker == Ended(false) ==> s.pushed == Sizes(s.stored) + Drops(s))
  {
    Reached(max, run);
    var s := Exec(max, Start(), run);
    hide Run, Exec, Ordered, Accounted;
  }

  /**
   Once the worker has ended, what was accepted and neither stored nor dropped is lost:
   it is the retained batch and the queue. Something is lost exactly when the final flush
   failed, and more than was logged as lost exactly when rows were still queued then.
   */
  lemma FinalFlushExact(max: nat, run: seq<Action>)
    requires max > 0 && Run(max, Start(), run) && Exec(max, Start(), run).worker.Ended?
    ensures var s := Exec(max, Start(), run);
            var lost := s.pushed - Sizes(s.stored) - Drops(s);
            && lost == Sizes(s.batch) + Depth(s.q)
            && (lost == 0 <==> s.worker == Ended(false))
            && (lost > s.lostLogged <==> s.worker == Ended(true) && Depth(s.q) > 0)
  {
    Reached(max, run);
    var s := Exec(max, Start(), run);
    hide Run, Exec, Ordered, Accounted;
  }

  /** Every drop that the worker takes over is logged, and at a clean end that is every drop. */
  lemma DropsLogged(max: nat, run: seq<Action>)
    requires max > 0 && Run(max, Start(), run)
    ensures var s := Exec(max, Start(), run);
            s.unreported == 0 && (s.worker == Ended(false) ==> Drops(s) == s.reported)
  {
    Reached(max, run);
    hide Run, Exec, Ordered, Accounted, Counted;
  }

  /** Every table holds its rows in push order, each once, and no row that was dropped. */
  lemma StoredInOrder(max: nat, run: seq<Action>, k: Kind)
    requires max > 0 && Run(max, Start(), run)
    ensures var s := Exec(max, Start(), run);
            && Ascending(Of(s.stored, k), s.pushed)
            && forall x :: x in Of(s.stored, k) ==> x !in s.gone && x !in Of(s.batch, k) && x !in Rows(s.q, k)
  {
    Reached(max, run);
    var s := Exec(max, Start(), run);
    hide Run, Exec, Counted, Phased;
    var line := Line(s, k);
    assert Ascending(line, s.pushed);
    assert line == Of(s.stored, k) + (Of(s.batch, k) + Rows(s.q, k));
    hide Rows;
    PrefixAscending(Of(s.stored, k), Of(s.batch, k) + Rows(s.q, k), s.pushed);
    forall x | x in Of(s.stored, k) ensures x !in s.gone && x !in Of(s.batch, k) && x !in Rows(s.q, k) {
      assert x in Line(s, k);
      assert Somewhere(s, x);
    }
  }

  lemma PrefixAscending(a: seq<nat>, b: seq<nat>, bound: nat)
    requires Ascending(a + b, bound)
    ensures Ascending(a, bound)
    ensures forall x :: x in a ==> x !in b
  {
    var line := a + b;
    assert forall i :: 0 <= i < |a| ==> a[i] == line[i];
    assert forall i :: 0 <= i < |b| ==> b[i] == line[|a| + i];
  }

  /** Every accepted row is queued, in the batch, stored or dropped, and in one of them only. */
  lemma NoRowForgotten(max: nat, run: seq<Action>, x: nat)
    requires max > 0 && Run(max, Start(), run)
    ensures var s := Exec(max, Start(), run);
            && (x < s.pushed <==> x in s.gone || Somewhere(s, x))
            && !(x in s.gone && Somewhere(s, x))
            && (s.worker == Ended(false) && x < s.pushed && x !in s.gone ==> exists k :: x in Of(s.stored, k))
  {
    Reached(max, run);
    var s := Exec(max, Start(), run);
    hide Run, Exec, Counted, Start;
    if Somewhere(s, x) {
      var k :| x in Line(s, k);
      assert Ascending(Line(s, k), s.pushed);
      if s.worker == Ended(false) {
        assert Rows(s.q, k) == [] && Of(s.batch, k) == [];
        assert x in Of(s.stored, k);
      }
    }
  }

  /** Stored rows stay stored, in place: later steps only append to a table. */
  lemma {:induction false} TablesOnlyGrow(max: nat, s: Sys, run: seq<Action>, k: Kind)
    requires Run(max, s, run)
    ensures Of(s.stored, k) <= Of(Exec(max, s, run).stored, k)
    decreases |run|
  {
    if run != [] {
      var t := Next(max, s, run[0]);
      TablesOnlyGrow(max, t, run[1..], k);
      assert Of(s.stored, k) <= Of(t.stored, k);
      hide Next;
    }
  }

  lemma {:induction false} RunAppend(max: nat, s: Sys, r1: seq<Action>, r2: seq<Action>)
    requires Run(max, s, r1) && Run(max, Exec(max, s, r1), r2)
    ensures Run(max, s, r1 + r2) && Exec(max, s, r1 + r2) == Exec(max, Exec(max, s, r1), r2)
    decreases |r1|
  {
    hide Next, Enabled;
    if r1 == [] {
      assert r1 + r2 == r2;
    } else {
      assert (r1 + r2)[0] == r1[0] && (r1 + r2)[1..] == r1[1..] + r2;
      RunAppend(max, Next(max, s, r1[0]), r1[1..], r2);
    }
  }

  /** One more step at the end of a run. */
  lemma RunOneMore(max: nat, s: Sys, run: seq<Action>, a: Action)
    requires Run(max, s, run) && Enabled(Exec(max, s, run), a)
    ensures Run(max, s, run + [a]) && Exec(max, s, run + [a]) == Next(max, Exec(max, s, run), a)
  {
    hide Next, Enabled;
    var t := Exec(max, s, run);
    assert [a][1..] == [];
    assert Run(max, Next(max, t, a), []) && Run(max, t, [a]) && Exec(max, t, [a]) == Exec(max, Next(max, t, a), []);
    RunAppend(max, s, run, [a]);
  }

  /** A cycle of the worker with a working database. */
  const CYCLE: seq<Action> := [Swap] + [Insert(true)] + [Insert(true)] + [Insert(true)] + [Judge]

  function Appended(a: Three, q: Queue): Three
  {
    Three(a.telemetry + q.telemetry, a.ops + q.ops, a.system + q.system)
  }

  /** One cycle of the idle worker with a working database stores everything that is queued, and the worker is idle again. */
  lemma CycleStores(max: nat, s: Sys)
    requires s.worker == Top && s.batch == NONE && Depth(s.q) > 0
    ensures Run(max, s, CYCLE)
    ensures var t := Exec(max, s, CYCLE);
            && t.stored == Appended(s.stored, s.q) && Depth(t.q) == 0 && t.batch == NONE
            && t.worker == Top && t.reported == s.reported + s.q.dropped
  {
    hide Run, Exec;
    var r0: seq<Action> := [];
    assert Run(max, s, r0) && Exec(max, s, r0) == s by { NoSteps(max, s); }
    RunOneMore(max, s, r0, Swap);
    assert r0 + [Swap] == [Swap];
    RunOneMore(max, s, [Swap], Insert(true));
    RunOneMore(max, s, [Swap] + [Insert(true)], Insert(true));
    RunOneMore(max, s, [Swap] + [Insert(true)] + [Insert(true)], Insert(true));
    assert [] + s.q.telemetry == s.q.telemetry;
    RunOneMore(max, s, [Swap] + [Insert(true)] + [Insert(true)] + [Insert(true)], Judge);
  }

  const HALF: seq<Action> := [DoPush(Telemetry)] + [Swap] + [DoPush(Telemetry)] + [Stop]

  /** A row is in the worker's batch, another in the queue, and the queue is stopped. */
  lemma HalfWay()
    ensures Run(2, Start(), HALF)
    ensures var s := Exec(2, Start(), HALF);
            s.q == Queue([1], [], [], 0, false) && s.batch == Three([0], [], []) && s.worker == Inserting(Telemetry, true)
  {
    hide Lost, Run, Exec, Push;
    var r0: seq<Action> := [];
    assert Run(2, Start(), r0) && Exec(2, Start(), r0) == Start() by { NoSteps(2, Start()); }
    PushTelemetryAlone(Queue([], [], [], 0, true), 2, 0);
    PushTelemetryAlone(Queue([], [], [], 0, true), 2, 1);
    RunOneMore(2, Start(), r0, DoPush(Telemetry));
    assert r0 + [DoPush(Telemetry)] == [DoPush(Telemetry)];
    RunOneMore(2, Start(), [DoPush(Telemetry)], Swap);
    RunOneMore(2, Start(), [DoPush(Telemetry)] + [Swap], DoPush(Telemetry));
    RunOneMore(2, Start(), [DoPush(Telemetry)] + [Swap] + [DoPush(Telemetry)], Stop);
  }

  /**
   After a failed final flush more can be lost than the batch that is logged as lost:
   a row pushed during the last attempt stays behind in the queue.
   */
  lemma FailedFinalFlushLeavesRows()
    ensures var run := HALF + [Insert(false)] + [Insert(true)] + [Insert(true)] + [Judge];
            && Run(2, Start(), run)
            && Exec(2, Start(), run).worker == Ended(true)
            && Exec(2, Start(), run).batch.telemetry == [0]
            && Exec(2, Start(), run).q.telemetry == [1]
  {
    HalfWay();
    hide Lost, Run, Exec, Push, HALF, Start;
    RunOneMore(2, Start(), HALF, Insert(false));
    RunOneMore(2, Start(), HALF + [Insert(false)], Insert(true));
    RunOneMore(2, Start(), HALF + [Insert(false)] + [Insert(true)], Insert(true));
    RunOneMore(2, Start(), HALF + [Insert(false)] + [Insert(true)] + [Insert(true)], Judge);
  }

  lemma NoSteps(max: nat, s: Sys)
    ensures Run(max, s, []) && Exec(max, s, []) == s
  {
  }

  lemma PushTelemetryAlone(q: Queue, max: nat, row: nat)
    requires q.running && Depth(q) < max
    ensures Push(q, max, Telemetry, row) == q.(telemetry := q.telemetry + [row])
  {
  }
}
