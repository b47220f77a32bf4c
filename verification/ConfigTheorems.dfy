/** What acceptance of a configuration says about the modules built from it. */
module ConfigTheorems {
  import opened Codec
  import opened Options
  import opened ConfigSchema
  import FieldLens
  import ScalarCodec

  // ---------------------------------------------------------------- tables

  /** On known tables, validation's names and the builders' tables agree on what is the same table. */
  lemma TableNames(t: string, u: string)
    requires KnownTable(t) && KnownTable(u)
    ensures CanonicalTable(t) == CanonicalTable(u) <==> TableFromString(t) == TableFromString(u)
  {
    TableName(t);
    TableName(u);
    assert "HR"[0] == 'H' && "IR"[0] == 'I' && "Coil"[0] == 'C' && "DI"[0] == 'D';
  }

  lemma TableName(t: string)
    requires KnownTable(t)
    ensures CanonicalTable(t) == match TableFromString(t)
                                 case HoldingRegisters => "HR"
                                 case InputRegisters => "IR"
                                 case Coils => "Coil"
                                 case DiscreteInputs => "DI"
  {
  }

  // ---------------------------------------------------------------- ownership

  /** The modules that keep rewriting the registers they claim. */
  datatype Owner = OfWindow(i: nat) | OfHeartbeat(i: nat) | OfBridge(i: nat)

  predicate IsOwner(s: Schema, o: Owner)
  {
    match o
    case OfWindow(i) => i < |s.windows|
    case OfHeartbeat(i) => i < |s.heartbeats|
    case OfBridge(i) => i < |s.bridges|
  }

  function ClaimOf(s: Schema, o: Owner): Claim
    requires IsOwner(s, o)
  {
    match o
    case OfWindow(i) => WindowClaim(s.windows[i])
    case OfHeartbeat(i) => HeartbeatClaim(s.heartbeats[i])
    case OfBridge(i) => ForwardClaim(s.bridges[i])
  }

  /** The claim names the register at an address of a transport's table. */
  predicate Holds(c: Claim, transport: string, table: RegisterType, a: int)
  {
    c.transport == transport && TableFromString(c.table) == table && InRange(c.start, c.count, a)
  }

  ghost predicate Share(c: Claim, d: Claim)
  {
    exists transport, table, a :: Holds(c, transport, table, a) && Holds(d, transport, table, a)
  }

  lemma ShareIsClash(c: Claim, d: Claim)
    requires KnownTable(c.table) && KnownTable(d.table)
    ensures Share(c, d) <==> Clash(c, d)
    ensures Clash(c, d) <==> Clash(d, c)
  {
    TableNames(c.table, d.table);
    hide CanonicalTable, TableFromString, KnownTable;
    OverlapIsSharing(c.start, c.count, d.start, d.count);
    if Clash(c, d) {
      var a :| InRange(c.start, c.count, a) && InRange(d.start, d.count, a);
      assert Holds(c, c.transport, TableFromString(c.table), a) && Holds(d, c.transport, TableFromString(c.table), a);
    }
    if Share(c, d) {
      var transport, table, a :| Holds(c, transport, table, a) && Holds(d, transport, table, a);
      assert InRange(c.start, c.count, a) && InRange(d.start, d.count, a);
    }
  }

  /** The range checks of validation that speak of two writers. */
  predicate OwnershipChecks(s: Schema)
  {
    && Apart(s)
    && (forall i :: 0 <= i < |s.bridges| ==> ForwardClear(s, s.bridges[i]))
    && (forall i, j :: 0 <= i < j < |s.bridges| ==> !Clash(ForwardClaim(s.bridges[i]), ForwardClaim(s.bridges[j])))
  }

  predicate ForwardClear(s: Schema, b: Bridge)
  {
    && ClearOfWindows(s, ForwardClaim(b))
    && ClearOfHeartbeats(s, ForwardClaim(b), |s.heartbeats|)
    && ClearOfCommands(s, ForwardClaim(b))
  }

  predicate TablesKnown(s: Schema)
  {
    && (forall i :: 0 <= i < |s.windows| ==> KnownTable(s.windows[i].table))
    && (forall i :: 0 <= i < |s.heartbeats| ==> KnownTable(s.heartbeats[i].table))
    && (forall i, k :: 0 <= i < |s.commands| && 0 <= k < |s.commands[i].writes| ==> KnownTable(s.commands[i].writes[k].table))
  }

  /** No register has two owners. */
  ghost predicate OneOwner(s: Schema)
  {
    forall o, p :: IsOwner(s, o) && IsOwner(s, p) && o != p ==> !Share(ClaimOf(s, o), ClaimOf(s, p))
  }

  /** No command writes a register that has an owner. */
  ghost predicate CommandsOutside(s: Schema)
  {
    forall o, i, k :: IsOwner(s, o) && 0 <= i < |s.commands| && 0 <= k < |s.commands[i].writes| ==>
      !Share(WriteClaim(s.commands[i], s.commands[i].writes[k]), ClaimOf(s, o))
  }

  lemma OwnerTable(s: Schema, o: Owner)
    requires TablesKnown(s) && IsOwner(s, o)
    ensures KnownTable(ClaimOf(s, o).table)
  {
    hide KnownTable;
    assert KnownTable("HR") by { HoldingKnown(); }
  }

  lemma HoldingKnown()
    ensures KnownTable("HR")
  {
  }

  lemma OwnersDoNotClash(s: Schema, o: Owner, p: Owner)
    requires OwnershipChecks(s) && TablesKnown(s) && IsOwner(s, o) && IsOwner(s, p) && o != p
    ensures !Clash(ClaimOf(s, o), ClaimOf(s, p))
  {
    OwnerTable(s, o);
    OwnerTable(s, p);
    hide KnownTable, Clash, WindowClaim, HeartbeatClaim, ForwardClaim, CommandApart, ClearOfCommands, Share, TablesKnown;
    ShareIsClash(ClaimOf(s, o), ClaimOf(s, p));
    match (o, p)
    case (OfWindow(i), OfWindow(j)) => assert WindowApart(s, i) && WindowApart(s, j);
    case (OfHeartbeat(i), OfHeartbeat(j)) => assert HeartbeatApart(s, i) && HeartbeatApart(s, j);
    case (OfHeartbeat(i), OfWindow(j)) => assert HeartbeatApart(s, i);
    case (OfWindow(i), OfHeartbeat(j)) => assert HeartbeatApart(s, j);
    case (OfBridge(i), _) => assert ForwardClear(s, s.bridges[i]);
    case (_, OfBridge(j)) => assert ForwardClear(s, s.bridges[j]);
  }

  lemma CommandsDoNotClash(s: Schema, o: Owner, i: nat, k: nat)
    requires OwnershipChecks(s) && TablesKnown(s) && IsOwner(s, o) && i < |s.commands| && k < |s.commands[i].writes|
    ensures !Clash(WriteClaim(s.commands[i], s.commands[i].writes[k]), ClaimOf(s, o))
  {
    OwnerTable(s, o);
    hide KnownTable, Clash, WindowClaim, HeartbeatClaim, ForwardClaim, Share;
    var c := s.commands[i];
    assert CommandApart(s, c);
    ShareIsClash(WriteClaim(c, c.writes[k]), ClaimOf(s, o));
    if o.OfBridge? {
      assert ForwardClear(s, s.bridges[o.i]);
      assert ClearOfWrites(c, ForwardClaim(s.bridges[o.i]));
    }
  }

  /**
   Validation's range checks pass exactly when every register has at most one owner
   and no command writes an owned register.
   */
  lemma OwnershipExact(s: Schema)
    requires TablesKnown(s)
    ensures OwnershipChecks(s) <==> OneOwner(s) && CommandsOutside(s)
  {
    hide KnownTable, Clash, Share, WindowClaim, HeartbeatClaim, ForwardClaim, WriteClaim;
    if OwnershipChecks(s) {
      forall o, p | IsOwner(s, o) && IsOwner(s, p) && o != p ensures !Share(ClaimOf(s, o), ClaimOf(s, p)) {
        OwnerTable(s, o);
        OwnerTable(s, p);
        ShareIsClash(ClaimOf(s, o), ClaimOf(s, p));
        OwnersDoNotClash(s, o, p);
      }
      forall o, i, k | IsOwner(s, o) && 0 <= i < |s.commands| && 0 <= k < |s.commands[i].writes|
        ensures !Share(WriteClaim(s.commands[i], s.commands[i].writes[k]), ClaimOf(s, o))
      {
        OwnerTable(s, o);
        WriteTable(s, i, k);
        ShareIsClash(WriteClaim(s.commands[i], s.commands[i].writes[k]), ClaimOf(s, o));
        CommandsDoNotClash(s, o, i, k);
      }
    }
    if OneOwner(s) && CommandsOutside(s) {
      ApartFromOwners(s);
      BridgesFromOwners(s);
    }
  }

  lemma WriteTable(s: Schema, i: nat, k: nat)
    requires TablesKnown(s) && i < |s.commands| && k < |s.commands[i].writes|
    ensures KnownTable(WriteClaim(s.commands[i], s.commands[i].writes[k]).table)
  {
    hide KnownTable;
  }

  /** Two different owners without a shared register pass the pairwise check. */
  lemma NoClash(s: Schema, o: Owner, p: Owner)
    requires TablesKnown(s) && OneOwner(s) && IsOwner(s, o) && IsOwner(s, p) && o != p
    ensures !Clash(ClaimOf(s, o), ClaimOf(s, p))
  {
    hide KnownTable, Clash, Share, WindowClaim, HeartbeatClaim, ForwardClaim;
    OwnerTable(s, o);
    OwnerTable(s, p);
    ShareIsClash(ClaimOf(s, o), ClaimOf(s, p));
  }

  lemma NoCommandClash(s: Schema, o: Owner, i: nat, k: nat)
    requires TablesKnown(s) && CommandsOutside(s) && IsOwner(s, o) && i < |s.commands| && k < |s.commands[i].writes|
    ensures var c := WriteClaim(s.commands[i], s.commands[i].writes[k]);
            !Clash(c, ClaimOf(s, o)) && !Clash(ClaimOf(s, o), c)
  {
    hide KnownTable, Clash, Share, WindowClaim, HeartbeatClaim, ForwardClaim;
    OwnerTable(s, o);
    WriteTable(s, i, k);
    ShareIsClash(WriteClaim(s.commands[i], s.commands[i].writes[k]), ClaimOf(s, o));
  }

  lemma ApartFromOwners(s: Schema)
    requires TablesKnown(s) && OneOwner(s) && CommandsOutside(s)
    ensures Apart(s)
  {
    hide KnownTable, TablesKnown, Clash, OneOwner, CommandsOutside, WindowClaim, HeartbeatClaim;
    forall i | 0 <= i < |s.windows| ensures WindowApart(s, i) {
      forall j | i < j < |s.windows| ensures !Clash(WindowClaim(s.windows[i]), WindowClaim(s.windows[j])) {
        NoClash(s, OfWindow(i), OfWindow(j));
      }
    }
    forall i | 0 <= i < |s.heartbeats| ensures HeartbeatApart(s, i) {
      forall j | 0 <= j < |s.windows| ensures !Clash(HeartbeatClaim(s.heartbeats[i]), WindowClaim(s.windows[j])) {
        NoClash(s, OfHeartbeat(i), OfWindow(j));
      }
      forall j | 0 <= j < i ensures !Clash(HeartbeatClaim(s.heartbeats[i]), HeartbeatClaim(s.heartbeats[j])) {
        NoClash(s, OfHeartbeat(i), OfHeartbeat(j));
      }
    }
    forall i | 0 <= i < |s.commands| ensures CommandApart(s, s.commands[i]) {
      CommandFromOwners(s, i);
    }
  }

  lemma CommandFromOwners(s: Schema, i: nat)
    requires TablesKnown(s) && CommandsOutside(s) && i < |s.commands|
    ensures CommandApart(s, s.commands[i])
  {
    hide KnownTable, TablesKnown, Clash, CommandsOutside, WindowClaim, HeartbeatClaim, WriteClaim;
    var c := s.commands[i];
    forall k | 0 <= k < |c.writes|
      ensures ClearOfWindows(s, WriteClaim(c, c.writes[k])) && ClearOfHeartbeats(s, WriteClaim(c, c.writes[k]), |s.heartbeats|)
    {
      forall j | 0 <= j < |s.windows| ensures !Clash(WriteClaim(c, c.writes[k]), WindowClaim(s.windows[j])) {
        NoCommandClash(s, OfWindow(j), i, k);
      }
      forall j | 0 <= j < |s.heartbeats| ensures !Clash(WriteClaim(c, c.writes[k]), HeartbeatClaim(s.heartbeats[j])) {
        NoCommandClash(s, OfHeartbeat(j), i, k);
      }
    }
  }

  lemma BridgesFromOwners(s: Schema)
    requires TablesKnown(s) && OneOwner(s) && CommandsOutside(s)
    ensures forall i :: 0 <= i < |s.bridges| ==> ForwardClear(s, s.bridges[i])
    ensures forall i, j :: 0 <= i < j < |s.bridges| ==> !Clash(ForwardClaim(s.bridges[i]), ForwardClaim(s.bridges[j]))
  {
    hide KnownTable, TablesKnown, Clash, OneOwner, CommandsOutside, WindowClaim, HeartbeatClaim, ForwardClaim, WriteClaim;
    forall i | 0 <= i < |s.bridges| ensures ForwardClear(s, s.bridges[i]) {
      var c := ForwardClaim(s.bridges[i]);
      forall j | 0 <= j < |s.windows| ensures !Clash(c, WindowClaim(s.windows[j])) {
        NoClash(s, OfBridge(i), OfWindow(j));
      }
      forall j | 0 <= j < |s.heartbeats| ensures !Clash(c, HeartbeatClaim(s.heartbeats[j])) {
        NoClash(s, OfBridge(i), OfHeartbeat(j));
      }
      forall j, k | 0 <= j < |s.commands| && 0 <= k < |s.commands[j].writes|
        ensures !Clash(c, WriteClaim(s.commands[j], s.commands[j].writes[k]))
      {
        NoCommandClash(s, OfBridge(i), j, k);
      }
    }
    forall i, j | 0 <= i < j < |s.bridges| ensures !Clash(ForwardClaim(s.bridges[i]), ForwardClaim(s.bridges[j])) {
      NoClash(s, OfBridge(i), OfBridge(j));
    }
  }

  lemma ValidTables(s: Schema)
    requires Values(s)
    ensures TablesKnown(s)
  {
    forall i, k | 0 <= i < |s.commands| && 0 <= k < |s.commands[i].writes| ensures KnownTable(s.commands[i].writes[k].table) {
      assert CommandValues(s.commands[i]);
      assert WriteValues(s.commands[i].writes[k]);
    }
    hide Blank, ValidRange;
  }

  lemma ValidChecks(s: Schema)
    requires Apart(s) && Graph(s)
    ensures OwnershipChecks(s)
  {
    hide Apart, ClearOfWindows, ClearOfHeartbeats, ClearOfCommands, Clash, BridgeEnds, RangesOverlap, CoveredByPoll, ServerWindowsApart;
    forall i | 0 <= i < |s.bridges| ensures ForwardClear(s, s.bridges[i]) {
      assert BridgeRefs(s, s.bridges[i]);
    }
    forall i, j | 0 <= i < j < |s.bridges| ensures !Clash(ForwardClaim(s.bridges[i]), ForwardClaim(s.bridges[j])) {
      assert BridgeApart(s, i);
      assert BridgePair(s.bridges[i], s.bridges[j]);
    }
  }

  /** In an accepted configuration every register has at most one owner, and commands write only unowned registers. */
  lemma SingleOwner(s: Schema)
    requires Accepted(s)
    ensures OneOwner(s) && CommandsOutside(s)
  {
    hide Limits, Distinct, ModuleIds, TransportIds;
    ValidTables(s);
    ValidChecks(s);
    hide Values, Apart, Graph, OwnershipChecks, TablesKnown, OneOwner, CommandsOutside;
    OwnershipExact(s);
  }

  // ---------------------------------------------------------------- which window a sink is resolved to

  /** The test that the datapoint builder makes for a sink without a named window. */
  predicate Matches(t: ScalarType, p: Sink, w: SinkWindow)
  {
    w.transport == p.port && TableFromString(w.table) == TableFromString(p.table) && SinkInside(t, p, w)
  }

  function FirstMatch(ws: seq<SinkWindow>, t: ScalarType, p: Sink): Option<SinkWindow>
  {
    if ws == [] then None else if Matches(t, p, ws[0]) then Some(ws[0]) else FirstMatch(ws[1..], t, p)
  }

  function Resolve(ws: seq<SinkWindow>, t: ScalarType, p: Sink): Option<SinkWindow>
  {
    if p.window != "" then FindWindow(ws, p.window) else FirstMatch(ws, t, p)
  }

  method ResolveWindow(ws: seq<SinkWindow>, t: ScalarType, p: Sink) returns (owner: Option<SinkWindow>)
    ensures owner == Resolve(ws, t, p)
  {
    hide Matches;
    for i := 0 to |ws|
      invariant Resolve(ws, t, p) == Resolve(ws[i..], t, p)
    {
      assert ws[i..][1..] == ws[i + 1..];
      if p.window != "" {
        if ws[i].moduleId == p.window { return Some(ws[i]); }
      } else if Matches(t, p, ws[i]) {
        return Some(ws[i]);
      }
    }
    return None;
  }

  lemma {:induction false} FirstMatchIsOnly(ws: seq<SinkWindow>, t: ScalarType, p: Sink, w: SinkWindow)
    requires w in ws && Matches(t, p, w)
    requires forall x :: x in ws && Matches(t, p, x) ==> x == w
    ensures FirstMatch(ws, t, p) == Some(w)
    decreases |ws|
  {
    hide Matches;
    if Matches(t, p, ws[0]) {
      assert ws[0] in ws;
    } else {
      assert w in ws[1..];
      FirstMatchIsOnly(ws[1..], t, p, w);
    }
  }

  lemma {:induction false} FindIsOnly(ws: seq<SinkWindow>, id: string, w: SinkWindow)
    requires w in ws && w.moduleId == id
    requires forall x :: x in ws && x.moduleId == id ==> x == w
    ensures FindWindow(ws, id) == Some(w)
    decreases |ws|
  {
    if ws[0].moduleId == id {
      assert ws[0] in ws;
    } else {
      assert w in ws[1..];
      FindIsOnly(ws[1..], id, w);
    }
  }

  lemma {:induction false} FoundWindow(ws: seq<SinkWindow>, id: string)
    requires FindWindow(ws, id).Some?
    ensures FindWindow(ws, id).value in ws && FindWindow(ws, id).value.moduleId == id
    decreases |ws|
  {
    if ws[0].moduleId != id {
      FoundWindow(ws[1..], id);
    }
  }

  /** Two windows that hold the same sink are one window. */
  lemma OneCover(s: Schema, t: ScalarType, p: Sink, i: nat, j: nat)
    requires Accepted(s) && i < |s.windows| && j < |s.windows|
    requires Matches(t, p, s.windows[i]) && Matches(t, p, s.windows[j])
    ensures i == j
  {
    hide Accepted, Share;
    WindowsOwnApart(s, i, j);
    MatchesShare(t, p, s.windows[i], s.windows[j]);
  }

  lemma WindowsOwnApart(s: Schema, i: nat, j: nat)
    requires Accepted(s) && i < |s.windows| && j < |s.windows|
    ensures i != j ==> !Share(WindowClaim(s.windows[i]), WindowClaim(s.windows[j]))
  {
    SingleOwner(s);
    hide Accepted, CommandsOutside, Share;
    assert IsOwner(s, OfWindow(i)) && IsOwner(s, OfWindow(j));
    assert OfWindow(i) != OfWindow(j) ==> !Share(ClaimOf(s, OfWindow(i)), ClaimOf(s, OfWindow(j)));
  }

  lemma MatchesShare(t: ScalarType, p: Sink, w: SinkWindow, x: SinkWindow)
    requires Matches(t, p, w) && Matches(t, p, x)
    ensures Share(WindowClaim(w), WindowClaim(x))
  {
    var table := TableFromString(p.table);
    assert Holds(WindowClaim(w), p.port, table, p.address) && Holds(WindowClaim(x), p.port, table, p.address);
  }

  lemma SinkTableKnown(s: Schema, t: ScalarType, p: Sink)
    requires Values(s) && SinkValues(t, p) && SinkRefs(s, t, p) && p.window == ""
    ensures KnownTable(p.table)
  {
    var j :| 0 <= j < |s.windows| && Covers(t, p, s.windows[j]);
    assert WindowValues(s.windows[j]);
    hide ValidRange, Blank, SinkInside;
    assert |CanonicalTable(s.windows[j].table)| > 0;
  }

  /** The builder's match and validation's cover are the same test. */
  lemma MatchIsCover(s: Schema, t: ScalarType, p: Sink, w: SinkWindow)
    requires KnownTable(p.table) && KnownTable(w.table)
    ensures Matches(t, p, w) <==> Covers(t, p, w)
  {
    TableNames(p.table, w.table);
    hide KnownTable, CanonicalTable, TableFromString, SinkInside;
  }

  lemma WindowIdsDistinct(s: Schema, i: nat, j: nat)
    requires Distinct(ModuleIds(s)) && i < j < |s.windows|
    ensures s.windows[i].moduleId != s.windows[j].moduleId
  {
    var ids := ModuleIds(s);
    var n := |s.polls|;
    assert ids[n + i] == s.windows[i].moduleId && ids[n + j] == s.windows[j].moduleId;
  }

  lemma WindowsInOrder(s: Schema, ws: seq<SinkWindow>, w: SinkWindow)
    requires multiset(ws) == multiset(s.windows)
    ensures w in ws <==> w in s.windows
  {
    assert w in ws <==> w in multiset(ws);
    assert w in s.windows <==> w in multiset(s.windows);
  }

  /** The unnamed sink has one matching window. */
  lemma UnnamedSink(s: Schema, t: ScalarType, p: Sink, ws: seq<SinkWindow>)
    requires Accepted(s) && SinkValues(t, p) && SinkRefs(s, t, p) && p.window == ""
    requires multiset(ws) == multiset(s.windows)
    ensures exists w :: w in s.windows && Resolve(ws, t, p) == Some(w) && Matches(t, p, w)
                        && forall x :: x in s.windows && Matches(t, p, x) ==> x == w
  {
    SinkTableKnown(s, t, p);
    ValidTables(s);
    var j :| 0 <= j < |s.windows| && Covers(t, p, s.windows[j]);
    hide Accepted, SinkValues, SinkRefs, Covers, Matches;
    var w := s.windows[j];
    MatchIsCover(s, t, p, w);
    forall x | x in s.windows && Matches(t, p, x) ensures x == w {
      var k :| 0 <= k < |s.windows| && s.windows[k] == x;
      OneCover(s, t, p, j, k);
    }
    forall x ensures x in ws <==> x in s.windows { WindowsInOrder(s, ws, x); }
    FirstMatchIsOnly(ws, t, p, w);
  }

  lemma NamedSink(s: Schema, t: ScalarType, p: Sink, ws: seq<SinkWindow>)
    requires Accepted(s) && SinkRefs(s, t, p) && p.window != ""
    requires multiset(ws) == multiset(s.windows)
    ensures exists w :: w in s.windows && Resolve(ws, t, p) == Some(w) && w.moduleId == p.window && SinkInside(t, p, w)
  {
    FoundWindow(s.windows, p.window);
    var w := FindWindow(s.windows, p.window).value;
    assert Distinct(ModuleIds(s));
    hide Accepted, SinkRefs, FindWindow, ModuleIds, Distinct;
    forall x | x in s.windows && x.moduleId == p.window ensures x == w {
      var i :| 0 <= i < |s.windows| && s.windows[i] == x;
      var j :| 0 <= j < |s.windows| && s.windows[j] == w;
      if i < j { WindowIdsDistinct(s, i, j); }
      if j < i { WindowIdsDistinct(s, j, i); }
    }
    forall x ensures x in ws <==> x in s.windows { WindowsInOrder(s, ws, x); }
    FindIsOnly(ws, p.window, w);
    assert SinkInside(t, p, w);
  }

  /**
   In an accepted configuration every sink is resolved to a window that holds all its
   registers, whatever the order in which the windows are searched; without a named
   window it is the only window that matches.
   */
  lemma ResolutionUnique(s: Schema, i: nat, ws: seq<SinkWindow>)
    requires Accepted(s) && i < |s.datapoints| && s.datapoints[i].sink.Some?
    requires multiset(ws) == multiset(s.windows)
    ensures var t, p := s.datapoints[i].kind, s.datapoints[i].sink.value;
            var r := Resolve(s.windows, t, p);
            && r.Some? && r.value in s.windows && SinkInside(t, p, r.value)
            && Resolve(ws, t, p) == r
            && (p.window == "" ==> forall x :: x in s.windows && Matches(t, p, x) ==> x == r.value)
  {
    var t, p := s.datapoints[i].kind, s.datapoints[i].sink.value;
    assert DatapointValues(s.datapoints[i]) && DatapointRefs(s, s.datapoints[i]);
    hide Accepted, SinkValues, SinkRefs, Resolve;
    if p.window == "" {
      UnnamedSink(s, t, p, ws);
      UnnamedSink(s, t, p, s.windows);
    } else {
      NamedSink(s, t, p, ws);
      NamedSink(s, t, p, s.windows);
      SameNamed(s, t, p, ws);
    }
  }

  /** The window that a sink is resolved to is on the transport and table that the sink names, if it names them. */
  lemma ResolvedAgrees(s: Schema, i: nat)
    requires Accepted(s) && i < |s.datapoints| && s.datapoints[i].sink.Some?
    ensures var t, p := s.datapoints[i].kind, s.datapoints[i].sink.value;
            var r := Resolve(s.windows, t, p);
            && r.Some? && (p.window != "" ==> r.value.moduleId == p.window)
            && (p.port != "" ==> r.value.transport == p.port)
            && (p.table != "" ==> TableFromString(r.value.table) == TableFromString(p.table))
  {
    var t, p := s.datapoints[i].kind, s.datapoints[i].sink.value;
    assert DatapointValues(s.datapoints[i]) && DatapointRefs(s, s.datapoints[i]);
    ResolutionUnique(s, i, s.windows);
    ValidTables(s);
    hide Accepted;
    var w := Resolve(s.windows, t, p).value;
    assert KnownTable(w.table);
    if p.window == "" {
      hide SinkValues, SinkRefs, KnownTable, TableFromString, SinkInside;
      FirstMatches(s.windows, t, p);
    } else {
      FoundWindow(s.windows, p.window);
      if p.table != "" { TableNames(p.table, w.table); }
      hide KnownTable, CanonicalTable, TableFromString, ValidRange, KnownWordOrder;
    }
  }

  lemma {:induction false} FirstMatches(ws: seq<SinkWindow>, t: ScalarType, p: Sink)
    requires FirstMatch(ws, t, p).Some?
    ensures Matches(t, p, FirstMatch(ws, t, p).value)
    decreases |ws|
  {
    hide Matches;
    if !Matches(t, p, ws[0]) { FirstMatches(ws[1..], t, p); }
  }

  lemma SameNamed(s: Schema, t: ScalarType, p: Sink, ws: seq<SinkWindow>)
    requires Accepted(s) && p.window != "" && Resolve(ws, t, p).Some? && Resolve(s.windows, t, p).Some?
    requires multiset(ws) == multiset(s.windows)
    ensures Resolve(ws, t, p) == Resolve(s.windows, t, p)
  {
    assert Distinct(ModuleIds(s));
    FoundWindow(ws, p.window);
    FoundWindow(s.windows, p.window);
    hide Accepted, ModuleIds, Distinct, FindWindow;
    var x, w := FindWindow(ws, p.window).value, FindWindow(s.windows, p.window).value;
    WindowsInOrder(s, ws, x);
    var i :| 0 <= i < |s.windows| && s.windows[i] == x;
    var j :| 0 <= j < |s.windows| && s.windows[j] == w;
    if i < j { WindowIdsDistinct(s, i, j); }
    if j < i { WindowIdsDistinct(s, j, i); }
  }

  // ---------------------------------------------------------------- sinks as fields

  function WordOrderOf(w: string): WordOrder
  {
    if w == "CDAB" then CDAB else if w == "BADC" then BADC else if w == "DCBA" then DCBA else ABCD
  }

  /** The port reference built for a sink. */
  function FieldOf(t: ScalarType, p: Sink): FieldLens.Field
  {
    FieldLens.Field(t, PortRef(if p.bit >= 0 then Some(p.bit) else None, WordOrderOf(p.wordOrder), p.shift, p.mask), p.address)
  }

  /**
   Every integer or Bool sink of an accepted configuration is a lens on its window:
   it fits, and writing back what it reads changes nothing unless it is a Bool
   without a bit on a register with other bits set.
   */
  lemma SinkIsLens(s: Schema, i: nat, image: seq<bv16>)
    requires Accepted(s) && i < |s.datapoints| && s.datapoints[i].sink.Some?
    requires ScalarCodec.IsInteger(s.datapoints[i].kind) || s.datapoints[i].kind.Bool?
    requires var r := Resolve(s.windows, s.datapoints[i].kind, s.datapoints[i].sink.value); r.Some? ==> |image| == r.value.size
    ensures var t, p := s.datapoints[i].kind, s.datapoints[i].sink.value;
            var r := Resolve(s.windows, t, p);
            var f := FieldOf(t, p);
            && r.Some? && FieldLens.Legal(f) && FieldLens.Inside(r.value.start, |image|, f)
            && (FieldLens.Put(r.value.start, image, f, FieldLens.Get(r.value.start, image, f)) == image
                <==> t.Bool? && p.bit < 0 ==> FieldLens.Slice(r.value.start, image, f)[0] <= 1)
  {
    var t, p := s.datapoints[i].kind, s.datapoints[i].sink.value;
    ResolutionUnique(s, i, s.windows);
    var r := Resolve(s.windows, t, p);
    assert SinkValues(t, p) by { assert DatapointValues(s.datapoints[i]); }
    hide Accepted, Resolve, FieldLens.Put, FieldLens.Get, FieldLens.NothingBeside;
    var f := FieldOf(t, p);
    assert FieldLens.Legal(f) && FieldLens.Inside(r.value.start, |image|, f) by { SinkFits(t, p, r.value); }
    hide SinkValues, FieldLens.Legal, FieldLens.Inside;
    FieldLens.GetPut(r.value.start, image, f);
    BesideOf(t, p, FieldLens.Slice(r.value.start, image, f));
  }

  lemma SinkFits(t: ScalarType, p: Sink, w: SinkWindow)
    requires SinkValues(t, p) && SinkInside(t, p, w) && w.size >= 0
    requires ScalarCodec.IsInteger(t) || t.Bool?
    ensures FieldLens.Legal(FieldOf(t, p)) && FieldLens.Inside(w.start, w.size, FieldOf(t, p))
  {
    hide KnownTable, KnownWordOrder;
  }

  lemma BesideOf(t: ScalarType, p: Sink, raw: seq<bv16>)
    requires SinkValues(t, p) && (ScalarCodec.IsInteger(t) || t.Bool?)
    requires FieldLens.Legal(FieldOf(t, p)) && |raw| == FieldLens.Words(FieldOf(t, p))
    ensures FieldLens.NothingBeside(FieldOf(t, p), raw) <==> (t.Bool? && p.bit < 0 ==> raw[0] <= 1)
  {
    if !t.Bool? && RegisterCount(t) > 1 {
      assert Untransformed(p);
      assert ScalarCodec.Up(p.mask, 0) == p.mask;
      NothingOutside(UnpackInt(raw, RegisterCount(t), WordOrderOf(p.wordOrder)));
    }
    hide KnownTable, KnownWordOrder, ValidRange, ScalarCodec.Up, ScalarCodec.AndNot, UnpackInt;
  }

  lemma NothingOutside(u: bv64)
    ensures ScalarCodec.AndNot(u, FULL_MASK) == 0
  {
  }

  // ---------------------------------------------------------------- what a sink accepts

  lemma MaskedWithin(bits: bv64, limit: bv64, m: bv64)
    ensures ScalarCodec.Within(ScalarCodec.And(ScalarCodec.And(bits, limit), m), limit)
    ensures ScalarCodec.Within(ScalarCodec.And(ScalarCodec.And(bits, limit), m), m)
  {
  }

  lemma WidthIsLimit(t: ScalarType)
    requires ScalarCodec.IsInteger(t)
    ensures WidthLimit(t) == Limit(RegisterCount(t))
  {
  }

  /** Under an accepted mask and shift the masked value always has room for the shift. */
  lemma RoomForField(t: ScalarType, p: Sink, bits: bv64)
    requires ScalarCodec.IsInteger(t) && ShiftInWidth(t, p) && 0 <= p.shift <= 63
    ensures var limit := Limit(RegisterCount(t));
            ScalarCodec.AtMost(ScalarCodec.And(ScalarCodec.And(bits, limit), p.mask), ScalarCodec.Down(limit, p.shift))
  {
    hide ScalarCodec.And, ScalarCodec.Down, ScalarCodec.AtMost, ScalarCodec.Within, ScalarCodec.Ones, Limit, WidthLimit, FULL_MASK;
    var limit := Limit(RegisterCount(t));
    WidthIsLimit(t);
    var masked := ScalarCodec.And(ScalarCodec.And(bits, limit), p.mask);
    var room := ScalarCodec.Down(limit, p.shift);
    ScalarCodec.LimitOnes(RegisterCount(t));
    ScalarCodec.DownOnes(limit, p.shift);
    MaskedWithin(bits, limit, p.mask);
    ScalarCodec.WithinIffAtMost(EffectiveMask(t, p), room);
    ScalarCodec.WithinTrans(masked, EffectiveMask(t, p), room);
    ScalarCodec.WithinIffAtMost(masked, room);
  }

  /** The value is a number of the type that is negative or lies within the mask. */
  predicate Fits(t: ScalarType, p: Sink, v: ScalarCodec.Variant)
  {
    && ScalarCodec.ToInteger(v).Some?
    && var bits := ScalarCodec.ToInteger(v).value;
       && ScalarCodec.InRange(t, bits)
       && ((ScalarCodec.Signed(t) && ScalarCodec.Negative(bits)) || ScalarCodec.AndNot(bits, p.mask) == 0)
  }

  lemma SinkParts(s: Schema, i: nat)
    requires Accepted(s) && i < |s.datapoints| && s.datapoints[i].sink.Some?
    ensures var t, p := s.datapoints[i].kind, s.datapoints[i].sink.value; SinkValues(t, p) && ShiftInWidth(t, p)
  {
    assert DatapointValues(s.datapoints[i]) && DatapointRefs(s, s.datapoints[i]);
    hide Accepted, SinkRefs, SinkValues, ShiftInWidth, MaskInWidth;
  }

  lemma FieldLegal(t: ScalarType, p: Sink)
    requires SinkValues(t, p) && (ScalarCodec.IsInteger(t) || t.Bool?)
    ensures FieldLens.Legal(FieldOf(t, p))
  {
    hide KnownTable, KnownWordOrder, ValidRange;
  }

  lemma FieldAccepts(t: ScalarType, p: Sink, v: ScalarCodec.Variant)
    requires FieldLens.Legal(FieldOf(t, p)) && ShiftInWidth(t, p)
    ensures FieldLens.Accepts(FieldOf(t, p), v) <==> t.Bool? || Fits(t, p, v)
  {
    hide ScalarCodec.And, ScalarCodec.AndNot, ScalarCodec.Up, ScalarCodec.Down, ScalarCodec.AtMost, ScalarCodec.InRange,
      ScalarCodec.Negative, ScalarCodec.BitOf, PackInt, Limit, ShiftInWidth, WordOrderOf;
    if ScalarCodec.IsInteger(t) && ScalarCodec.ToInteger(v).Some? {
      RoomForField(t, p, ScalarCodec.ToInteger(v).value);
    }
  }

  /**
   What a sink of an accepted configuration accepts: every value on a Bool; on an
   integer exactly the numbers of its type that are negative or lie within the mask.
   The codec's check of the shifted value never refuses anything there.
   */
  lemma SinkAccepts(s: Schema, i: nat, v: ScalarCodec.Variant)
    requires Accepted(s) && i < |s.datapoints| && s.datapoints[i].sink.Some?
    requires ScalarCodec.IsInteger(s.datapoints[i].kind) || s.datapoints[i].kind.Bool?
    ensures var t, p := s.datapoints[i].kind, s.datapoints[i].sink.value;
            var f := FieldOf(t, p);
            FieldLens.Legal(f) && (FieldLens.Accepts(f, v) <==> t.Bool? || Fits(t, p, v))
  {
    hide Accepted, SinkValues, ShiftInWidth, FieldLens.Legal, FieldLens.Accepts, Fits;
    var t, p := s.datapoints[i].kind, s.datapoints[i].sink.value;
    SinkParts(s, i);
    FieldLegal(t, p);
    FieldAccepts(t, p, v);
  }
}
