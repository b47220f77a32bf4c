/** What each section's checks ask, in terms of addresses, requests, images and fields. */
module ConfigSections {
  import opened Codec
  import opened Options
  import opened ConfigSchema
  import opened ConfigExact
  import opened ConfigTheorems
  import opened Requests
  import FieldLens
  import ScalarCodec
  import W = SinkWindow

  /** A range of registers, not empty, that are all addresses. */
  ghost predicate Addresses(start: int, count: int)
  {
    count > 0 && forall a :: InRange(start, count, a) ==> 0 <= a <= 65535
  }

  lemma AddressesExact(start: int, count: int, limit: int)
    requires limit >= 0
    ensures ValidRange(start, count, 65536) <==> Addresses(start, count)
    ensures ValidRange(start, count, limit) <==> Addresses(start, count) && count <= limit
  {
    RangeExact(start, count, 65536);
    RangeExact(start, count, limit);
    if Addresses(start, count) {
      assert InRange(start, count, start) && InRange(start, count, start + count - 1);
    }
  }

  function WindowConfig(w: SinkWindow): W.Config
    requires w.size >= 0
  {
    W.Config(w.start, w.size, w.debounceMs, w.keepAliveMs, w.initial)
  }

  /** A window's values: a written id, a writable table, addresses, no negative time, and no initial value cut off. */
  lemma WindowExact(w: SinkWindow)
    ensures WindowValues(w) <==>
      && !Blank(w.moduleId) && WritableTable(w.table) && Addresses(w.start, w.size)
      && w.debounceMs >= 0 && w.keepAliveMs >= 0
      && w.initial <= W.InitialSnapshot(WindowConfig(w))
  {
    AddressesExact(w.start, w.size, 0);
    hide Blank, WritableTable, Addresses, ValidRange;
    if w.size >= 0 && |w.initial| <= w.size {
      assert w.initial == W.InitialSnapshot(WindowConfig(w))[..|w.initial|];
    }
    AddressesCount(w.start, w.size);
  }

  lemma AddressesCount(start: int, count: int)
    ensures Addresses(start, count) ==> count > 0
  {
  }

  /** Polls, heartbeats and command writes: a written id, a table that can be read or written, and addresses. */
  lemma ReadersAndWritersExact(p: Poll, h: Heartbeat, w: RegisterWrite)
    ensures PollValues(p) <==> !Blank(p.moduleId) && KnownTable(p.table) && Addresses(p.start, p.count)
    ensures HeartbeatValues(h) <==>
      !Blank(h.moduleId) && WritableTable(h.table) && (h.values == [] || Addresses(h.address, |h.values|))
    ensures WriteValues(w) <==> WritableTable(w.table) && 0 <= w.address <= 65535
  {
    AddressesExact(p.start, p.count, 0);
    AddressesExact(h.address, |h.values|, 0);
    hide Blank, WritableTable, KnownTable, Addresses;
  }

  /** A bridge's values: what it writes and mirrors are addresses on both sides, and its forwarded write is legal. */
  lemma BridgeExact(b: Bridge)
    ensures BridgeValues(b) <==>
      && (b.writeCount > 0 ==> Addresses(b.writeStart, b.writeCount) && ProtocolLegal(ForwardRequest(b)))
      && (b.mirrorCount > 0 ==> Addresses(b.mirrorStart, b.mirrorCount) && Addresses(b.mirrorStart + b.offset, b.mirrorCount))
  {
    AddressesExact(b.writeStart, b.writeCount, 123);
    AddressesExact(b.mirrorStart, b.mirrorCount, 0);
    AddressesExact(b.mirrorStart + b.offset, b.mirrorCount, 0);
    hide Addresses;
  }

  // ---------------------------------------------------------------- sinks

  /** The shifted mask stays within the type's width and loses no bit. */
  predicate FieldInWidth(t: ScalarType, p: Sink)
    requires p.shift >= 0
  {
    var m := EffectiveMask(t, p);
    ScalarCodec.Within(ScalarCodec.Up(m, p.shift), WidthLimit(t)) && ScalarCodec.Down(ScalarCodec.Up(m, p.shift), p.shift) == m
  }

  lemma LimitRunsOut(t: ScalarType, k: nat)
    requires ScalarCodec.IsInteger(t) && BitWidth(t) <= k <= 63
    ensures ScalarCodec.Down(WidthLimit(t), k) == 0
  {
    SixteenDown();
    hide ScalarCodec.Shr1;
    if BitWidth(t) == 16 {
      DownMore(0xFFFF, 16, k - 16);
    } else {
      DownMore(0xFFFF_FFFF, 32, k - 32);
    }
  }

  lemma DownMore(v: bv64, j: nat, k: nat)
    requires ScalarCodec.Down(v, j) == 0
    ensures ScalarCodec.Down(v, j + k) == 0
  {
    hide ScalarCodec.Shr1;
    DownAdds(v, j, k);
    DownZero(k);
  }

  lemma {:induction false} DownAdds(v: bv64, j: nat, k: nat)
    ensures ScalarCodec.Down(ScalarCodec.Down(v, j), k) == ScalarCodec.Down(v, j + k)
    decreases j
  {
    hide ScalarCodec.Shr1;
    if j > 0 { DownAdds(ScalarCodec.Shr1(v), j - 1, k); }
  }

  lemma {:induction false} DownZero(k: nat)
    ensures ScalarCodec.Down(0, k) == 0
  {
    if k > 0 {
      assert ScalarCodec.Shr1(0) == 0;
      DownZero(k - 1);
    }
  }

  lemma SixteenDown()
    ensures ScalarCodec.Down(0xFFFF, 16) == 0 && ScalarCodec.Down(0xFFFF_FFFF, 32) == 0
  {
    ScalarCodec.DownIsShift(0xFFFF, 16);
    ScalarCodec.DownIsShift(0xFFFF_FFFF, 32);
  }

  lemma WidthOnes(t: ScalarType)
    ensures ScalarCodec.Ones(WidthLimit(t))
  {
  }

  lemma EffectiveNonZero(t: ScalarType, p: Sink)
    requires p.mask != 0
    ensures EffectiveMask(t, p) != 0
  {
  }

  lemma NothingIn(m: bv64)
    requires ScalarCodec.Within(m, 0)
    ensures m == 0
  {
  }

  /** The shift check passes exactly when the field lies in the type's width. */
  lemma ShiftExact(t: ScalarType, p: Sink)
    requires ScalarCodec.IsInteger(t) && 0 <= p.shift <= 63 && p.mask != 0
    ensures ShiftInWidth(t, p) <==> FieldInWidth(t, p)
  {
    EffectiveNonZero(t, p);
    WidthOnes(t);
    hide ScalarCodec.Down, ScalarCodec.Up, ScalarCodec.Within, ScalarCodec.Ones, ScalarCodec.AtMost, WidthLimit, EffectiveMask;
    var m, limit := EffectiveMask(t, p), WidthLimit(t);
    var room := ScalarCodec.Down(limit, p.shift);
    ScalarCodec.DownOnes(limit, p.shift);
    ScalarCodec.WithinIffAtMost(m, room);
    if ScalarCodec.AtMost(m, room) {
      ScalarCodec.UpDownLaw(m, p.shift, limit);
    }
    if FieldInWidth(t, p) {
      ScalarCodec.DownWithin(ScalarCodec.Up(m, p.shift), p.shift, limit);
      if p.shift >= BitWidth(t) {
        LimitRunsOut(t, p.shift);
        NothingIn(m);
      }
    }
  }

  /**
   An integer or Bool sink passes exactly when it is a legal field on addresses, on a known
   table and in a known word order, its field lies in the type's width, and it takes its
   registers whole if there are several.
   */
  lemma SinkExact(t: ScalarType, p: Sink)
    requires ScalarCodec.IsInteger(t) || t.Bool?
    ensures SinkValues(t, p) && MaskInWidth(t, p) && ShiftInWidth(t, p) <==>
      && (p.table == "" || KnownTable(p.table)) && Addresses(p.address, SinkWords(t))
      && FieldLens.Legal(FieldOf(t, p)) && p.bit >= -1
      && p.wordOrder in {"", "ABCD", "CDAB", "BADC", "DCBA"} && (t.Bool? ==> p.wordOrder == "")
      && (!t.Bool? ==> p.mask != 0 && MaskInWidth(t, p) && FieldInWidth(t, p))
      && (SinkWords(t) > 1 ==> p.shift == 0 && p.mask == FULL_MASK)
  {
    hide KnownTable, Addresses, FieldInWidth, WordOrderOf, ValidRange, MaskInWidth, ShiftInWidth, SinkWords, FULL_MASK;
    AddressesExact(p.address, SinkWords(t), 0);
    if t.Bool? {
      BoolWidths(p);
    } else if 0 <= p.shift <= 63 && p.mask != 0 {
      ShiftExact(t, p);
    }
    OrderNamed(p.wordOrder);
    FullMask();
    hide KnownWordOrder;
  }

  lemma FullMask()
    ensures FULL_MASK == 0xFFFF_FFFF_FFFF_FFFF
  {
  }

  lemma OrderNamed(w: string)
    ensures KnownWordOrder(w) <==> w in {"", "ABCD", "CDAB", "BADC", "DCBA"}
  {
  }

  lemma BoolWidths(p: Sink)
    ensures ShiftInWidth(Bool, p) && (p.mask == FULL_MASK ==> MaskInWidth(Bool, p))
  {
  }

  /** A mask is in the type's width exactly when it is full or has no bit beyond it. */
  lemma MaskExact(t: ScalarType, p: Sink)
    requires ScalarCodec.IsInteger(t)
    ensures MaskInWidth(t, p) <==> p.mask == FULL_MASK || ScalarCodec.Within(p.mask, Limit(RegisterCount(t)))
  {
    WidthIsLimit(t);
    MaskNames(p.mask, WidthLimit(t));
    hide WidthLimit, Limit, ScalarCodec.Within, ScalarCodec.AndNot;
  }

  lemma MaskNames(m: bv64, limit: bv64)
    ensures ScalarCodec.AndNot(m, limit) == 0 <==> ScalarCodec.Within(m, limit)
  {
  }

  /** Each word order has its own name, and no name means the plain one. */
  lemma OrderNames(w: WordOrder)
    ensures WordOrderOf(match w case ABCD => "ABCD" case CDAB => "CDAB" case BADC => "BADC" case DCBA => "DCBA") == w
    ensures WordOrderOf("") == ABCD
  {
  }
}
