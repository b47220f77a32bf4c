/** What acceptance says about the server side of the bridges and about their mirrors. */
module BridgeConfig {
  import opened Options
  import opened ConfigSchema
  import BridgeMirror
  import Requests

  /** The two areas of a bridge on its server: what operators write, and what is mirrored there. */
  datatype Area = WriteArea(i: nat) | MirrorArea(i: nat)

  predicate IsArea(s: Schema, x: Area)
  {
    x.i < |s.bridges|
  }

  function AreaStart(s: Schema, x: Area): int
    requires IsArea(s, x)
  {
    var b := s.bridges[x.i];
    if x.WriteArea? then b.writeStart else b.mirrorStart + b.offset
  }

  function AreaCount(s: Schema, x: Area): int
    requires IsArea(s, x)
  {
    var b := s.bridges[x.i];
    if x.WriteArea? then b.writeCount else b.mirrorCount
  }

  predicate InArea(s: Schema, x: Area, server: string, a: int)
    requires IsArea(s, x)
  {
    s.bridges[x.i].server == server && InRange(AreaStart(s, x), AreaCount(s, x), a)
  }

  /** No register of a server lies in two areas. */
  ghost predicate OneArea(s: Schema)
  {
    forall x, y, server, a :: IsArea(s, x) && IsArea(s, y) && x != y && InArea(s, x, server, a) ==> !InArea(s, y, server, a)
  }

  /** Validation's checks of the server side. */
  predicate ServerChecks(s: Schema)
  {
    && (forall i :: 0 <= i < |s.bridges| ==>
          var b := s.bridges[i]; !RangesOverlap(b.writeStart, b.writeCount, b.mirrorStart + b.offset, b.mirrorCount))
    && (forall i, j :: 0 <= i < j < |s.bridges| && s.bridges[i].server == s.bridges[j].server ==>
          ServerWindowsApart(s.bridges[i], s.bridges[j]))
  }

  predicate Overlapping(s: Schema, x: Area, y: Area)
    requires IsArea(s, x) && IsArea(s, y)
  {
    RangesOverlap(AreaStart(s, x), AreaCount(s, x), AreaStart(s, y), AreaCount(s, y))
  }

  lemma ChecksApart(s: Schema, x: Area, y: Area)
    requires ServerChecks(s) && IsArea(s, x) && IsArea(s, y) && x != y && s.bridges[x.i].server == s.bridges[y.i].server
    ensures !Overlapping(s, x, y)
  {
    if x.i < y.i {
      assert ServerWindowsApart(s.bridges[x.i], s.bridges[y.i]);
    } else if y.i < x.i {
      assert ServerWindowsApart(s.bridges[y.i], s.bridges[x.i]);
    }
  }

  lemma ApartFromAreas(s: Schema, x: Area, y: Area)
    requires OneArea(s) && IsArea(s, x) && IsArea(s, y) && x != y && s.bridges[x.i].server == s.bridges[y.i].server
    ensures !Overlapping(s, x, y)
  {
    OverlapIsSharing(AreaStart(s, x), AreaCount(s, x), AreaStart(s, y), AreaCount(s, y));
    var server := s.bridges[x.i].server;
    if a :| InRange(AreaStart(s, x), AreaCount(s, x), a) && InRange(AreaStart(s, y), AreaCount(s, y), a) {
      assert InArea(s, x, server, a) && InArea(s, y, server, a);
    }
  }

  /** The server checks pass exactly when no register of a server lies in two areas. */
  lemma ServerSideExact(s: Schema)
    ensures ServerChecks(s) <==> OneArea(s)
  {
    if ServerChecks(s) {
      forall x, y, server, a | IsArea(s, x) && IsArea(s, y) && x != y && InArea(s, x, server, a) ensures !InArea(s, y, server, a) {
        if s.bridges[y.i].server == server {
          ChecksApart(s, x, y);
          OverlapIsSharing(AreaStart(s, x), AreaCount(s, x), AreaStart(s, y), AreaCount(s, y));
        }
      }
    }
    if OneArea(s) {
      hide OneArea;
      forall i | 0 <= i < |s.bridges|
        ensures var b := s.bridges[i]; !RangesOverlap(b.writeStart, b.writeCount, b.mirrorStart + b.offset, b.mirrorCount)
      {
        ApartFromAreas(s, WriteArea(i), MirrorArea(i));
      }
      forall i, j | 0 <= i < j < |s.bridges| && s.bridges[i].server == s.bridges[j].server
        ensures ServerWindowsApart(s.bridges[i], s.bridges[j])
      {
        ApartFromAreas(s, WriteArea(i), WriteArea(j));
        ApartFromAreas(s, WriteArea(i), MirrorArea(j));
        ApartFromAreas(s, MirrorArea(i), WriteArea(j));
        ApartFromAreas(s, MirrorArea(i), MirrorArea(j));
      }
    }
  }

  lemma GraphOf(s: Schema)
    requires Accepted(s)
    ensures Graph(s)
  {
    hide Values, Limits, Apart, Graph, Distinct, ModuleIds, TransportIds;
  }

  /** In an accepted configuration no register of a server is written or mirrored by two areas. */
  lemma ServerSide(s: Schema)
    requires Accepted(s)
    ensures OneArea(s)
  {
    GraphOf(s);
    hide Accepted;
    forall i | 0 <= i < |s.bridges|
      ensures var b := s.bridges[i]; !RangesOverlap(b.writeStart, b.writeCount, b.mirrorStart + b.offset, b.mirrorCount)
    {
      assert BridgeRefs(s, s.bridges[i]);
    }
    forall i, j | 0 <= i < j < |s.bridges| && s.bridges[i].server == s.bridges[j].server
      ensures ServerWindowsApart(s.bridges[i], s.bridges[j])
    {
      assert BridgeApart(s, i);
      assert BridgePair(s.bridges[i], s.bridges[j]);
    }
    hide Graph, OneArea;
    ServerSideExact(s);
  }

  /** Every register of an area lies in a holding-register range that its server listens to. */
  lemma AreasListened(s: Schema, x: Area, a: int)
    requires Accepted(s) && IsArea(s, x) && InRange(AreaStart(s, x), AreaCount(s, x), a)
    requires FindTransport(s.transports, s.bridges[x.i].server).Some?
    ensures var t := FindTransport(s.transports, s.bridges[x.i].server).value;
            && t.kind.ModbusTcpServer?
            && exists k :: 0 <= k < |t.listen| && t.listen[k].table == HoldingRegisters && InRange(t.listen[k].start, t.listen[k].size, a)
  {
    GraphOf(s);
    hide Accepted;
    var b := s.bridges[x.i];
    assert BridgeRefs(s, b);
    var t := FindTransport(s.transports, b.server).value;
    hide Graph, FindTransport;
    assert Listened(t, AreaStart(s, x), AreaCount(s, x));
    var k :| 0 <= k < |t.listen| && t.listen[k].table == HoldingRegisters
             && t.listen[k].start <= AreaStart(s, x) && AreaStart(s, x) + AreaCount(s, x) <= t.listen[k].start + t.listen[k].size;
    assert InRange(t.listen[k].start, t.listen[k].size, a);
  }

  /** Every mirror of a known PLC has a poll of its holding registers whose full result covers the mirror. */
  lemma MirrorPolled(s: Schema, i: nat)
    requires Accepted(s) && i < |s.bridges| && s.bridges[i].mirrorCount > 0 && FindTransport(s.transports, s.bridges[i].plc).Some?
    ensures exists k :: 0 <= k < |s.polls| && Feeds(s.polls[k], s.bridges[i])
  {
    GraphOf(s);
    hide Accepted;
    assert BridgeRefs(s, s.bridges[i]);
    hide Graph, FindTransport;
    var k :| 0 <= k < |s.polls| && PollHolds(s.polls[k], s.bridges[i]);
    PollFeeds(s.polls[k], s.bridges[i]);
  }

  /** A full result of the poll gives the mirror all its registers. */
  ghost predicate Feeds(p: Poll, b: Bridge)
  {
    && p.transport == b.plc && CanonicalTable(p.table) == "HR"
    && forall values: seq<bv16> :: |values| >= p.count && b.mirrorCount >= 0 ==>
         BridgeMirror.MirrorSlice(b.mirrorStart, b.mirrorCount, p.start, values).Some?
  }

  lemma PollFeeds(p: Poll, b: Bridge)
    requires PollHolds(p, b) && b.mirrorCount > 0
    ensures Feeds(p, b)
  {
  }

  /** The PLC of a bridge, if known, is a Modbus client, so every forwarded write is on one and legal. */
  lemma ForwardsLegal(s: Schema, i: nat)
    requires Accepted(s) && i < |s.bridges| && FindTransport(s.transports, s.bridges[i].plc).Some?
    ensures OnClient(s, s.bridges[i].plc)
    ensures s.bridges[i].writeCount > 0 ==> Requests.ProtocolLegal(Requests.ForwardRequest(s.bridges[i]))
    ensures s.bridges[i].writeCount >= 0 && s.bridges[i].mirrorCount >= 0
  {
    GraphOf(s);
    ValuesOf(s);
    hide Accepted;
    var b := s.bridges[i];
    assert BridgeRefs(s, b) && BridgeValues(b);
    hide Graph, Values, FindTransport;
    if b.writeCount > 0 { Requests.ForwardLegal(b); }
    hide Requests.ProtocolLegal;
  }

  lemma ValuesOf(s: Schema)
    requires Accepted(s)
    ensures Values(s)
  {
    hide Values, Limits, Apart, Graph, Distinct, ModuleIds, TransportIds;
  }
}
