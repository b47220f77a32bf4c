/**
 The part of the configuration that decides which registers the runtime reads and
 writes, and the conditions under which it is accepted.
 */
module ConfigSchema {
  import opened Codec
  import opened Options
  import ScalarCodec

  datatype TransportKind = ModbusTcpClient | ModbusTcpServer | ModbusRtu | OpcUaClient | MqttClient | MqttPahoClient | S7Client

  datatype RegisterType = DiscreteInputs | Coils | InputRegisters | HoldingRegisters

  datatype ListenRange = ListenRange(table: RegisterType, start: int, size: int)
  datatype Transport = Transport(id: string, kind: TransportKind, listen: seq<ListenRange>)
  datatype Poll = Poll(moduleId: string, transport: string, table: string, start: int, count: int)
  datatype SinkWindow = SinkWindow(moduleId: string, transport: string, table: string, start: int, size: int,
                                   debounceMs: int, keepAliveMs: int, initial: seq<bv16>)
  datatype Heartbeat = Heartbeat(moduleId: string, transport: string, table: string, address: int, values: seq<bv16>)
  datatype RegisterWrite = RegisterWrite(table: string, address: int)
  datatype Command = Command(moduleId: string, transport: string, writes: seq<RegisterWrite>)
  datatype Sink = Sink(port: string, table: string, address: int, window: string, bit: int, wordOrder: string, shift: int, mask: bv64)
  datatype Datapoint = Datapoint(id: string, kind: ScalarType, sink: Option<Sink>)
  datatype Bridge = Bridge(server: string, plc: string, writeStart: int, writeCount: int,
                           mirrorStart: int, mirrorCount: int, offset: int)

  datatype Schema = Schema(
    transports: seq<Transport>,
    polls: seq<Poll>,
    windows: seq<SinkWindow>,
    heartbeats: seq<Heartbeat>,
    ackWatches: seq<string>,
    commands: seq<Command>,
    datapoints: seq<Datapoint>,
    bridges: seq<Bridge>)

  // ---------------------------------------------------------------- tables and ranges

  predicate KnownTable(t: string)
  {
    t == "HR" || t == "HoldingRegisters" || t == "IR" || t == "InputRegisters"
    || t == "Coil" || t == "Coils" || t == "DI" || t == "DiscreteInputs"
  }

  predicate WritableTable(t: string)
  {
    t == "HR" || t == "HoldingRegisters" || t == "Coil" || t == "Coils"
  }

  /** The short name that validation compares tables by. */
  function CanonicalTable(t: string): string
  {
    if t == "HoldingRegisters" then "HR"
    else if t == "InputRegisters" then "IR"
    else if t == "Coils" then "Coil"
    else if t == "DiscreteInputs" then "DI"
    else t
  }

  /** The table that the builders use; an unknown name falls back to the holding registers. */
  function TableFromString(t: string): RegisterType
  {
    if t == "IR" || t == "InputRegisters" then InputRegisters
    else if t == "Coil" || t == "Coils" then Coils
    else if t == "DI" || t == "DiscreteInputs" then DiscreteInputs
    else HoldingRegisters
  }

  function MaxReadCount(t: string): int
  {
    if t == "Coil" || t == "Coils" || t == "DI" || t == "DiscreteInputs" then 2000 else 125
  }

  function MaxWriteCount(t: string): int
  {
    if t == "Coil" || t == "Coils" then 1968 else 123
  }

  predicate ModbusClient(k: TransportKind)
  {
    k.ModbusTcpClient? || k.ModbusRtu?
  }

  predicate RangesOverlap(aStart: int, aCount: int, bStart: int, bCount: int)
  {
    aCount > 0 && bCount > 0 && aStart < bStart + bCount && bStart < aStart + aCount
  }

  predicate InRange(start: int, count: int, address: int)
  {
    start <= address < start + count
  }

  /** Two ranges overlap exactly when some register is in both. */
  lemma OverlapIsSharing(aStart: int, aCount: int, bStart: int, bCount: int)
    ensures RangesOverlap(aStart, aCount, bStart, bCount)
            <==> exists a :: InRange(aStart, aCount, a) && InRange(bStart, bCount, a)
  {
    if RangesOverlap(aStart, aCount, bStart, bCount) {
      var a := if aStart < bStart then bStart else aStart;
      assert InRange(aStart, aCount, a) && InRange(bStart, bCount, a);
    }
  }

  predicate ValidRange(start: int, count: int, maxCount: int)
  {
    0 <= start <= 65535 && 0 < count <= maxCount && start + count <= 65536
  }

  /** A claim of a module on a range of registers. */
  datatype Claim = Claim(transport: string, table: string, start: int, count: int)

  predicate Clash(a: Claim, b: Claim)
  {
    && a.transport == b.transport
    && CanonicalTable(a.table) == CanonicalTable(b.table)
    && RangesOverlap(a.start, a.count, b.start, b.count)
  }

  function WindowClaim(w: SinkWindow): Claim { Claim(w.transport, w.table, w.start, w.size) }

  function HeartbeatClaim(h: Heartbeat): Claim { Claim(h.transport, h.table, h.address, |h.values|) }

  function WriteClaim(c: Command, w: RegisterWrite): Claim { Claim(c.transport, w.table, w.address, 1) }

  function ForwardClaim(b: Bridge): Claim { Claim(b.plc, "HR", b.writeStart - b.offset, b.writeCount) }

  // ---------------------------------------------------------------- values

  /** The characters that trimming removes: the control spaces and the Unicode separators. */
  predicate Space(c: char)
  {
    '\t' <= c <= '\r' || c == ' ' || c == '\U{85}' || c == '\U{A0}' || c == '\U{1680}' || '\U{2000}' <= c <= '\U{200A}'
    || c == '\U{2028}' || c == '\U{2029}' || c == '\U{202F}' || c == '\U{205F}' || c == '\U{3000}'
  }

  predicate Blank(id: string)
  {
    forall k :: 0 <= k < |id| ==> Space(id[k])
  }

  predicate TransportValues(t: Transport)
  {
    !Blank(t.id) && forall k :: 0 <= k < |t.listen| ==> ValidRange(t.listen[k].start, t.listen[k].size, 65536)
  }

  predicate PollValues(p: Poll)
  {
    !Blank(p.moduleId) && KnownTable(p.table) && ValidRange(p.start, p.count, 65536)
  }

  predicate WindowValues(w: SinkWindow)
  {
    && !Blank(w.moduleId) && WritableTable(w.table) && ValidRange(w.start, w.size, 65536)
    && w.debounceMs >= 0 && w.keepAliveMs >= 0 && |w.initial| <= w.size
  }

  predicate HeartbeatValues(h: Heartbeat)
  {
    !Blank(h.moduleId) && WritableTable(h.table) && (h.values != [] ==> ValidRange(h.address, |h.values|, 65536))
  }

  predicate WriteValues(w: RegisterWrite)
  {
    WritableTable(w.table) && ValidRange(w.address, 1, 1)
  }

  predicate CommandValues(c: Command)
  {
    !Blank(c.moduleId) && forall k :: 0 <= k < |c.writes| ==> WriteValues(c.writes[k])
  }

  const FULL_MASK: bv64 := 0xFFFF_FFFF_FFFF_FFFF

  function SinkWords(t: ScalarType): nat
  {
    if RegisterCount(t) == 0 then 1 else RegisterCount(t)
  }

  predicate KnownWordOrder(w: string)
  {
    w == "" || w == "ABCD" || w == "CDAB" || w == "BADC" || w == "DCBA"
  }

  predicate Untransformed(p: Sink)
  {
    p.shift == 0 && p.mask == FULL_MASK
  }

  predicate SinkValues(t: ScalarType, p: Sink)
  {
    && (p.table == "" || KnownTable(p.table))
    && ValidRange(p.address, SinkWords(t), 65536)
    && -1 <= p.bit <= 15
    && (p.bit >= 0 ==> t.Bool?)
    && 0 <= p.shift <= 63
    && (t.Bool? || p.mask != 0)
    && KnownWordOrder(p.wordOrder)
    && (t.Bool? ==> Untransformed(p) && p.wordOrder == "")
    && (t.F32? || t.F64? || SinkWords(t) > 1 ==> Untransformed(p))
  }

  predicate DatapointValues(d: Datapoint)
  {
    !Blank(d.id) && !d.kind.Text? && (d.sink.Some? ==> SinkValues(d.kind, d.sink.value))
  }

  predicate BridgeValues(b: Bridge)
  {
    && (b.writeCount > 0 ==> ValidRange(b.writeStart, b.writeCount, 123)
                             && 0 <= b.writeStart - b.offset && b.writeStart - b.offset + b.writeCount <= 65536)
    && (b.mirrorCount > 0 ==> ValidRange(b.mirrorStart, b.mirrorCount, 65536)
                              && 0 <= b.mirrorStart + b.offset && b.mirrorStart + b.offset + b.mirrorCount <= 65536)
  }

  // ---------------------------------------------------------------- references

  function FindTransport(ts: seq<Transport>, id: string): Option<Transport>
  {
    if ts == [] then None else if ts[0].id == id then Some(ts[0]) else FindTransport(ts[1..], id)
  }

  function FindWindow(ws: seq<SinkWindow>, id: string): Option<SinkWindow>
  {
    if ws == [] then None else if ws[0].moduleId == id then Some(ws[0]) else FindWindow(ws[1..], id)
  }

  predicate Refers(s: Schema, id: string)
  {
    id == "" || FindTransport(s.transports, id).Some?
  }

  /** The transport is known and speaks Modbus as a client. */
  predicate OnClient(s: Schema, id: string)
  {
    FindTransport(s.transports, id).Some? && ModbusClient(FindTransport(s.transports, id).value.kind)
  }

  predicate PollRefs(s: Schema, p: Poll)
  {
    Refers(s, p.transport) && (OnClient(s, p.transport) ==> p.count <= MaxReadCount(p.table))
  }

  predicate WindowRefs(s: Schema, w: SinkWindow)
  {
    Refers(s, w.transport) && (OnClient(s, w.transport) ==> w.size <= MaxWriteCount(w.table))
  }

  predicate HeartbeatRefs(s: Schema, h: Heartbeat)
  {
    Refers(s, h.transport) && (OnClient(s, h.transport) ==> |h.values| <= MaxWriteCount(h.table))
  }

  predicate WindowApart(s: Schema, i: nat)
    requires i < |s.windows|
  {
    forall j :: i < j < |s.windows| ==> !Clash(WindowClaim(s.windows[i]), WindowClaim(s.windows[j]))
  }

  predicate ClearOfWindows(s: Schema, c: Claim)
  {
    forall j :: 0 <= j < |s.windows| ==> !Clash(c, WindowClaim(s.windows[j]))
  }

  predicate ClearOfHeartbeats(s: Schema, c: Claim, n: nat)
    requires n <= |s.heartbeats|
  {
    forall j :: 0 <= j < n ==> !Clash(c, HeartbeatClaim(s.heartbeats[j]))
  }

  predicate HeartbeatApart(s: Schema, i: nat)
    requires i < |s.heartbeats|
  {
    var c := HeartbeatClaim(s.heartbeats[i]);
    ClearOfWindows(s, c) && ClearOfHeartbeats(s, c, i)
  }

  predicate CommandApart(s: Schema, c: Command)
  {
    forall k :: 0 <= k < |c.writes| ==>
      ClearOfWindows(s, WriteClaim(c, c.writes[k])) && ClearOfHeartbeats(s, WriteClaim(c, c.writes[k]), |s.heartbeats|)
  }

  predicate SinkInside(t: ScalarType, p: Sink, w: SinkWindow)
  {
    w.start <= p.address && p.address + SinkWords(t) <= w.start + w.size
  }

  /** A window on the sink's transport and table that holds all of the sink's registers. */
  predicate Covers(t: ScalarType, p: Sink, w: SinkWindow)
  {
    p.port == w.transport && CanonicalTable(p.table) == CanonicalTable(w.table) && SinkInside(t, p, w)
  }

  predicate SinkRefs(s: Schema, t: ScalarType, p: Sink)
  {
    && Refers(s, p.port)
    && if p.window != "" then
         var w := FindWindow(s.windows, p.window);
         && w.Some?
         && SinkInside(t, p, w.value)
         && (p.port != "" ==> p.port == w.value.transport)
         && (p.table != "" ==> CanonicalTable(p.table) == CanonicalTable(w.value.table))
       else exists j :: 0 <= j < |s.windows| && Covers(t, p, s.windows[j])
  }

  function BitWidth(t: ScalarType): nat
  {
    match t
    case Bool => 1
    case U16 | S16 | EnumU16 => 16
    case U32 | S32 | F32 => 32
    case U64 | S64 | F64 | Text => 64
  }

  function WidthLimit(t: ScalarType): bv64
  {
    match t
    case Bool => 1
    case U16 | S16 | EnumU16 => 0xFFFF
    case U32 | S32 | F32 => 0xFFFF_FFFF
    case U64 | S64 | F64 | Text => FULL_MASK
  }

  /** The mask, a full one cut to the type's width. */
  function EffectiveMask(t: ScalarType, p: Sink): bv64
  {
    if p.mask == FULL_MASK then WidthLimit(t) else p.mask
  }

  predicate MaskInWidth(t: ScalarType, p: Sink)
  {
    p.mask == FULL_MASK || ScalarCodec.AndNot(p.mask, WidthLimit(t)) == 0
  }

  predicate ShiftInWidth(t: ScalarType, p: Sink)
  {
    t.Bool? || t.F32? || t.F64?
    || (0 <= p.shift < BitWidth(t) && ScalarCodec.AtMost(EffectiveMask(t, p), ScalarCodec.Down(WidthLimit(t), p.shift)))
  }

  predicate DatapointRefs(s: Schema, d: Datapoint)
  {
    d.sink.Some? ==>
      SinkRefs(s, d.kind, d.sink.value) && MaskInWidth(d.kind, d.sink.value) && ShiftInWidth(d.kind, d.sink.value)
  }

  predicate Listened(t: Transport, start: int, count: int)
  {
    count <= 0 || exists k :: 0 <= k < |t.listen| && t.listen[k].table == HoldingRegisters
                              && t.listen[k].start <= start && start + count <= t.listen[k].start + t.listen[k].size
  }

  predicate CoveredByPoll(s: Schema, b: Bridge)
  {
    exists k :: 0 <= k < |s.polls| && PollHolds(s.polls[k], b)
  }

  predicate PollHolds(p: Poll, b: Bridge)
  {
    p.transport == b.plc && CanonicalTable(p.table) == "HR"
    && p.start <= b.mirrorStart && p.start + p.count >= b.mirrorStart + b.mirrorCount
  }

  predicate ClearOfCommands(s: Schema, c: Claim)
  {
    forall j :: 0 <= j < |s.commands| ==> ClearOfWrites(s.commands[j], c)
  }

  predicate ClearOfWrites(m: Command, c: Claim)
  {
    forall k :: 0 <= k < |m.writes| ==> !Clash(c, WriteClaim(m, m.writes[k]))
  }

  predicate BridgeEnds(s: Schema, b: Bridge)
  {
    var server, plc := FindTransport(s.transports, b.server), FindTransport(s.transports, b.plc);
    && Refers(s, b.server) && Refers(s, b.plc)
    && (server.Some? ==> server.value.kind.ModbusTcpServer?)
    && (plc.Some? ==> ModbusClient(plc.value.kind))
    && b.writeCount >= 0 && b.mirrorCount >= 0
    && (server.Some? && server.value.kind.ModbusTcpServer? ==>
          Listened(server.value, b.writeStart, b.writeCount) && Listened(server.value, b.mirrorStart + b.offset, b.mirrorCount))
  }

  predicate BridgeRefs(s: Schema, b: Bridge)
  {
    && BridgeEnds(s, b)
    && !RangesOverlap(b.writeStart, b.writeCount, b.mirrorStart + b.offset, b.mirrorCount)
    && ClearOfWindows(s, ForwardClaim(b))
    && ClearOfHeartbeats(s, ForwardClaim(b), |s.heartbeats|)
    && ClearOfCommands(s, ForwardClaim(b))
    && (b.mirrorCount > 0 && FindTransport(s.transports, b.plc).Some? ==> CoveredByPoll(s, b))
  }

  predicate ServerWindowsApart(a: Bridge, b: Bridge)
  {
    && !RangesOverlap(a.writeStart, a.writeCount, b.writeStart, b.writeCount)
    && !RangesOverlap(a.writeStart, a.writeCount, b.mirrorStart + b.offset, b.mirrorCount)
    && !RangesOverlap(a.mirrorStart + a.offset, a.mirrorCount, b.writeStart, b.writeCount)
    && !RangesOverlap(a.mirrorStart + a.offset, a.mirrorCount, b.mirrorStart + b.offset, b.mirrorCount)
  }

  predicate BridgePair(a: Bridge, b: Bridge)
  {
    (a.server == b.server ==> ServerWindowsApart(a, b)) && !Clash(ForwardClaim(a), ForwardClaim(b))
  }

  predicate BridgeApart(s: Schema, i: nat)
    requires i < |s.bridges|
  {
    forall j :: i < j < |s.bridges| ==> BridgePair(s.bridges[i], s.bridges[j])
  }

  predicate Distinct(ids: seq<string>)
  {
    forall i, j :: 0 <= i < j < |ids| ==> ids[i] != ids[j]
  }

  /** The module id of a bridge's forward window; `Decimal` is the printed index. */
  function ForwardId(b: Bridge, i: nat): string
  {
    "bridge.fwd." + b.server + "." + Decimal(i)
  }

  function Decimal(n: nat): string
  {
    if n < 10 then [('0' as int + n) as char] else Decimal(n / 10) + [('0' as int + n % 10) as char]
  }

  function ForwardIds(bs: seq<Bridge>, n: nat): seq<string>
    requires n <= |bs|
  {
    if n == 0 then []
    else ForwardIds(bs, n - 1) + if bs[n - 1].writeCount > 0 then [ForwardId(bs[n - 1], n - 1)] else []
  }

  function TransportIds(s: Schema): seq<string>
  {
    seq(|s.transports|, i requires 0 <= i < |s.transports| => s.transports[i].id)
  }

  function ModuleIds(s: Schema): seq<string>
  {
    seq(|s.polls|, i requires 0 <= i < |s.polls| => s.polls[i].moduleId)
    + seq(|s.windows|, i requires 0 <= i < |s.windows| => s.windows[i].moduleId)
    + seq(|s.heartbeats|, i requires 0 <= i < |s.heartbeats| => s.heartbeats[i].moduleId)
    + s.ackWatches
    + seq(|s.commands|, i requires 0 <= i < |s.commands| => s.commands[i].moduleId)
    + ForwardIds(s.bridges, |s.bridges|)
  }

  // ---------------------------------------------------------------- acceptance

  predicate Values(s: Schema)
  {
    && (forall i :: 0 <= i < |s.transports| ==> TransportValues(s.transports[i]))
    && (forall i :: 0 <= i < |s.polls| ==> PollValues(s.polls[i]))
    && (forall i :: 0 <= i < |s.windows| ==> WindowValues(s.windows[i]))
    && (forall i :: 0 <= i < |s.heartbeats| ==> HeartbeatValues(s.heartbeats[i]))
    && (forall i :: 0 <= i < |s.commands| ==> CommandValues(s.commands[i]))
    && (forall i :: 0 <= i < |s.datapoints| ==> DatapointValues(s.datapoints[i]))
    && (forall i :: 0 <= i < |s.bridges| ==> BridgeValues(s.bridges[i]))
  }

  predicate Limits(s: Schema)
  {
    && (forall i :: 0 <= i < |s.polls| ==> PollRefs(s, s.polls[i]))
    && (forall i :: 0 <= i < |s.windows| ==> WindowRefs(s, s.windows[i]))
    && (forall i :: 0 <= i < |s.heartbeats| ==> HeartbeatRefs(s, s.heartbeats[i]))
    && (forall i :: 0 <= i < |s.commands| ==> Refers(s, s.commands[i].transport))
  }

  /** Validation's pairwise range checks. */
  predicate Apart(s: Schema)
  {
    && (forall i :: 0 <= i < |s.windows| ==> WindowApart(s, i))
    && (forall i :: 0 <= i < |s.heartbeats| ==> HeartbeatApart(s, i))
    && (forall i :: 0 <= i < |s.commands| ==> CommandApart(s, s.commands[i]))
  }

  predicate Graph(s: Schema)
  {
    && (forall i :: 0 <= i < |s.datapoints| ==> DatapointRefs(s, s.datapoints[i]))
    && (forall i :: 0 <= i < |s.bridges| ==> BridgeRefs(s, s.bridges[i]))
    && (forall i :: 0 <= i < |s.bridges| ==> BridgeApart(s, i))
  }

  predicate Valid(s: Schema)
  {
    Values(s) && Distinct(TransportIds(s)) && Distinct(ModuleIds(s)) && Limits(s) && Apart(s) && Graph(s)
  }

  /** What the loader lets through: a valid schema whose heartbeats all have a payload. */
  predicate Accepted(s: Schema)
  {
    Valid(s) && forall i :: 0 <= i < |s.heartbeats| ==> s.heartbeats[i].values != []
  }
}
