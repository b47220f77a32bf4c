/**
 A datapoint's sink as a lens on the staged image of a sink window: the codec's
 registers are merged into the image under the datapoint's stage mask.
 */
module FieldLens {
  import opened Codec
  import opened Options
  import opened ScalarCodec
  import SinkWindow

  datatype Field = Field(kind: ScalarType, ref: PortRef, address: int)

  /** What configuration validation asks of a field's bit, shift and mask. */
  predicate Legal(f: Field)
  {
    && (IsInteger(f.kind) || f.kind.Bool?)
    && 0 <= f.ref.shift <= 63
    && (f.ref.bit.Some? ==> f.kind.Bool? && 0 <= f.ref.bit.value <= 15)
    && (f.kind.Bool? ==> f.ref.shift == 0 && f.ref.mask == 0xFFFF_FFFF_FFFF_FFFF)
  }

  function Words(f: Field): nat
  {
    RegisterCount(f.kind)
  }

  function StageMask(ref: PortRef, word: nat, wordCount: nat): bv16
    requires ref.shift >= 0 && (ref.bit.Some? ==> 0 <= ref.bit.value <= 15)
  {
    if wordCount != 1 || word != 0 then 0xFFFF
    else if ref.bit.Some? then BitOf(ref.bit.value)
    else Narrow(Up(ref.mask, ref.shift))
  }

  predicate Covers(f: Field, a: int)
  {
    f.address <= a < f.address + Words(f)
  }

  /** The bits of the register at an address that the field writes. */
  function MaskAt(f: Field, a: int): bv16
    requires Legal(f)
  {
    if Covers(f, a) then StageMask(f.ref, a - f.address, Words(f)) else 0
  }

  function Keep(r: bv16, mask: bv16): bv16 { r & mask }

  predicate Disjoint(f: Field, g: Field)
    requires Legal(f) && Legal(g)
  {
    forall a :: f.address <= a < f.address + Words(f) ==> Keep(MaskAt(f, a), MaskAt(g, a)) == 0
  }

  predicate Inside(start: int, size: nat, f: Field)
  {
    start <= f.address && f.address + Words(f) <= start + size
  }

  function Slice(start: int, image: seq<bv16>, f: Field): (raw: seq<bv16>)
    requires Inside(start, |image|, f)
    ensures |raw| == Words(f)
  {
    image[f.address - start .. f.address - start + Words(f)]
  }

  function Get(start: int, image: seq<bv16>, f: Field): Variant
    requires Legal(f) && Inside(start, |image|, f)
  {
    Decode(f.kind, Slice(start, image, f), f.ref)
  }

  /** The image after the first `n` encoded registers are staged; those outside the window are dropped. */
  function Overlay(start: int, image: seq<bv16>, f: Field, words: seq<bv16>, n: nat): (r: seq<bv16>)
    requires Legal(f) && n <= |words|
    ensures |r| == |image|
  {
    seq(|image|, i requires 0 <= i < |image| =>
      var k := start + i - f.address;
      if 0 <= k < n then SinkWindow.Merge(image[i], words[k], StageMask(f.ref, k, |words|)) else image[i])
  }

  function Put(start: int, image: seq<bv16>, f: Field, v: Variant): (r: seq<bv16>)
    requires Legal(f)
    ensures |r| == |image|
  {
    var words := Encode(f.kind, v, f.ref);
    Overlay(start, image, f, words, |words|)
  }

  predicate Accepts(f: Field, v: Variant)
    requires Legal(f)
  {
    Encode(f.kind, v, f.ref) != []
  }

  /** The state of a window after a run of stages took its image from `was` to the present one. */
  ghost predicate Since(now: SinkWindow.Image, was: SinkWindow.Image)
  {
    && now.dirty == (was.dirty || now.snapshot != was.snapshot)
    && (now.generation > was.generation <==> now.snapshot != was.snapshot)
    && now.generation >= was.generation && now.force == was.force
  }

  /** One turn of the staging loop. */
  method StageWord(w: SinkWindow.Window, f: Field, words: seq<bv16>, i: nat, now: nat, ghost was: SinkWindow.Image)
    requires Legal(f) && w.Valid() && i < |words|
    requires w.snapshot == Overlay(w.cfg.startAddress, was.snapshot, f, words, i) && Since(w.View(), was)
    modifies w
    ensures w.Valid()
    ensures w.snapshot == Overlay(w.cfg.startAddress, was.snapshot, f, words, i + 1) && Since(w.View(), was)
  {
    hide Overlay, Legal, StageMask, SinkWindow.Merge;
    ghost var before := w.snapshot;
    var mask := MaskOf(f, i, |words|);
    var changed := w.StageRegisterLocked(f.address + i, words[i], mask, now);
    OverlayTurn(w.cfg.startAddress, was.snapshot, before, f, words, i, w.snapshot);
  }

  /** The datapoint's writer: encode, then stage register by register. A refusal stages nothing. */
  method WriteField(w: SinkWindow.Window, f: Field, v: Variant, times: seq<nat>) returns (ok: bool)
    requires Legal(f) && w.Valid() && |times| >= Words(f)
    modifies w
    ensures w.Valid() && ok == Accepts(f, v)
    ensures w.snapshot == Put(w.cfg.startAddress, old(w.snapshot), f, v)
    ensures Since(w.View(), old(w.View()))
  {
    var encoded := Encode(f.kind, v, f.ref);
    EncodeWords(f.kind, v, f.ref);
    ghost var start, was := w.cfg.startAddress, w.View();
    OverlayNone(start, was.snapshot, f, encoded);
    hide Encode, Legal, Overlay;
    if encoded == [] { return false; }
    var i := 0;
    while i < |encoded|
      invariant 0 <= i <= |encoded| && w.Valid()
      invariant w.snapshot == Overlay(start, was.snapshot, f, encoded, i) && Since(w.View(), was)
    {
      StageWord(w, f, encoded, i, times[i], was);
      i := i + 1;
    }
    return true;
  }

  lemma OverlayNone(start: int, image: seq<bv16>, f: Field, words: seq<bv16>)
    requires Legal(f)
    ensures Overlay(start, image, f, words, 0) == image
  {
  }

  function MaskOf(f: Field, word: nat, wordCount: nat): bv16
    requires Legal(f)
  {
    StageMask(f.ref, word, wordCount)
  }

  /** Staging one more register is one more step of the overlay, and undoes no earlier change. */
  lemma OverlayTurn(start: int, was: seq<bv16>, before: seq<bv16>, f: Field, words: seq<bv16>, i: nat, after: seq<bv16>)
    requires Legal(f) && i < |words| && before == Overlay(start, was, f, words, i) && |after| == |was|
    requires var p := f.address + i - start;
             after == if 0 <= p < |was| then before[p := SinkWindow.Merge(before[p], words[i], StageMask(f.ref, i, |words|))]
                      else before
    ensures after == Overlay(start, was, f, words, i + 1)
    ensures after == was <==> before == was && after == before
  {
    hide Legal, StageMask, SinkWindow.Merge;
    var p := f.address + i - start;
    if 0 <= p < |was| {
      OverlayNext(start, was, f, words, i, p);
      hide Overlay;
      ChangesStay(was, before, p, after[p]);
    } else {
      OverlaySame(start, was, f, words, i);
    }
  }

  lemma OverlayNext(start: int, was: seq<bv16>, f: Field, words: seq<bv16>, i: nat, p: nat)
    requires Legal(f) && i < |words| && p == f.address + i - start < |was|
    ensures var before := Overlay(start, was, f, words, i);
            && before[p] == was[p]
            && Overlay(start, was, f, words, i + 1) == before[p := SinkWindow.Merge(was[p], words[i], StageMask(f.ref, i, |words|))]
  {
    hide Legal, StageMask, SinkWindow.Merge;
  }

  lemma OverlaySame(start: int, was: seq<bv16>, f: Field, words: seq<bv16>, i: nat)
    requires Legal(f) && i < |words| && !(0 <= f.address + i - start < |was|)
    ensures Overlay(start, was, f, words, i + 1) == Overlay(start, was, f, words, i)
  {
    hide Legal, StageMask, SinkWindow.Merge;
  }

  lemma ChangesStay<T>(was: seq<T>, before: seq<T>, p: nat, x: T)
    requires |before| == |was| && p < |was| && before[p] == was[p]
    ensures before[p := x] == was <==> before == was && before[p := x] == before
  {
    if before[p := x] == was {
      assert x == was[p];
      assert before[p := x] == before;
    }
  }

  lemma EncodeWords(t: ScalarType, v: Variant, ref: PortRef)
    requires IsInteger(t) || t.Bool?
    ensures var n := |Encode(t, v, ref)|; n == 0 || n == RegisterCount(t)
  {
    hide Up, Down, And, AndNot, InRange, Negative, PackInt, Limit, AtMost, BitOf;
  }

  // ---------------------------------------------------------------- bit lemmas

  lemma MergeLaws(r: bv16, w: bv16, m: bv16)
    ensures Keep(SinkWindow.Merge(r, w, m), m) == Keep(w, m)
    ensures SinkWindow.Merge(r, Keep(r, m), m) == r
    ensures SinkWindow.Merge(r, w, 0xFFFF) == w && Keep(r, 0xFFFF) == r
  {
  }

  lemma MergeElsewhere(r: bv16, w: bv16, m: bv16, other: bv16)
    requires Keep(m, other) == 0
    ensures Keep(SinkWindow.Merge(r, w, m), other) == Keep(r, other)
  {
  }

  lemma KeepWide(r: bv16, m: bv64)
    ensures Wide(Keep(r, Narrow(m))) == And(Wide(r), m)
    ensures Keep(r, Narrow(m)) == Narrow(And(Wide(r), m))
  {
  }

  lemma BitSelects(r: bv16, b: bv16)
    ensures AnyBit(r, b) == (Keep(r, b) != 0)
  {
  }

  lemma {:induction false} KeepOneBit(r: bv16, bit: int)
    requires 0 <= bit <= 15
    ensures Keep(r, BitOf(bit)) == 0 || Keep(r, BitOf(bit)) == BitOf(bit)
  {
    OneBit(r, bit as bv16);
  }

  lemma OneBit(r: bv16, b: bv16)
    requires b < 16
    ensures r & (1 << b) == 0 || r & (1 << b) == 1 << b
  {
  }

  lemma LowestBit()
    ensures BitOf(0) == 1 && Narrow(0xFFFF_FFFF_FFFF_FFFF) == 0xFFFF
  {
    assert 0 as bv16 == 0;
  }

  /** A one-register integer field reads only the bits under its stage mask. */
  lemma FieldUnderMask(r: bv16, ref: PortRef)
    requires ref.shift >= 0
    ensures And(Down(Wide(r), ref.shift), ref.mask) == Down(Wide(Keep(r, Narrow(Up(ref.mask, ref.shift)))), ref.shift)
  {
    hide Up, Down, And, Within, Ones, Wide, Narrow, Keep;
    var u := Wide(r);
    var x := And(Down(u, ref.shift), ref.mask);
    DownUpLaw(u, ref.mask, ref.shift);
    KeepWide(r, Up(ref.mask, ref.shift));
    WideWithin(r);
    DownWithin(u, ref.shift, 0xFFFF);
    AndWithin(Down(u, ref.shift), ref.mask, Down(0xFFFF, ref.shift));
    UpDownLaw(x, ref.shift, 0xFFFF);
  }

  lemma WideWithin(r: bv16)
    ensures Within(Wide(r), 0xFFFF)
  {
  }

  // ---------------------------------------------------------------- what a field reads

  /** A field reads nothing outside its mask. */
  lemma ReadsUnderMask(f: Field, a: seq<bv16>, b: seq<bv16>)
    requires Legal(f) && |a| == |b| == Words(f)
    requires forall k :: 0 <= k < Words(f) ==> Keep(a[k], MaskOf(f, k, Words(f))) == Keep(b[k], MaskOf(f, k, Words(f)))
    ensures Decode(f.kind, a, f.ref) == Decode(f.kind, b, f.ref)
  {
    if Words(f) == 1 {
      assert Keep(a[0], MaskOf(f, 0, 1)) == Keep(b[0], MaskOf(f, 0, 1));
      ReadsOneUnderMask(f, a, b);
    } else {
      WideMask(f, a, b);
      hide Decode;
    }
  }

  lemma WideMask(f: Field, a: seq<bv16>, b: seq<bv16>)
    requires Legal(f) && |a| == |b| == Words(f) != 1
    requires forall k :: 0 <= k < Words(f) ==> Keep(a[k], MaskOf(f, k, Words(f))) == Keep(b[k], MaskOf(f, k, Words(f)))
    ensures a == b
  {
    hide Keep;
    forall k | 0 <= k < Words(f) ensures a[k] == b[k] {
      assert MaskOf(f, k, Words(f)) == 0xFFFF;
      MergeLaws(a[k], 0, 0);
      MergeLaws(b[k], 0, 0);
    }
  }

  lemma ReadsOneUnderMask(f: Field, a: seq<bv16>, b: seq<bv16>)
    requires Legal(f) && |a| == |b| == Words(f) == 1
    requires Keep(a[0], MaskOf(f, 0, 1)) == Keep(b[0], MaskOf(f, 0, 1))
    ensures Decode(f.kind, a, f.ref) == Decode(f.kind, b, f.ref)
  {
    FieldUnderMask(a[0], f.ref);
    FieldUnderMask(b[0], f.ref);
    if f.kind.Bool? {
      BitSelects(a[0], BitOf(TheBit(f.ref)));
      BitSelects(b[0], BitOf(TheBit(f.ref)));
      if f.ref.bit.None? {
        WholeBool(f);
        MergeLaws(a[0], 0, 0);
        MergeLaws(b[0], 0, 0);
      }
    }
    hide Up, Down, And, Wide, Narrow, Keep, BitOf, Extend;
  }

  lemma WholeBool(f: Field)
    requires Legal(f) && f.kind.Bool? && f.ref.bit.None?
    ensures MaskOf(f, 0, 1) == 0xFFFF
  {
    LowestBit();
    hide Narrow;
    assert Up(f.ref.mask, 0) == f.ref.mask;
  }

  lemma OverlayAt(start: int, image: seq<bv16>, f: Field, words: seq<bv16>, k: nat)
    requires Legal(f) && Inside(start, |image|, f) && |words| == Words(f) && k < Words(f)
    ensures Slice(start, Overlay(start, image, f, words, |words|), f)[k]
            == SinkWindow.Merge(Slice(start, image, f)[k], words[k], MaskOf(f, k, Words(f)))
  {
    hide StageMask, SinkWindow.Merge, Legal;
  }

  /** PutGet: after a write the field reads what the codec makes of the written registers, whatever was there. */
  lemma PutGet(start: int, image: seq<bv16>, f: Field, v: Variant)
    requires Legal(f) && Inside(start, |image|, f) && Accepts(f, v)
    ensures Get(start, Put(start, image, f, v), f) == Decode(f.kind, Encode(f.kind, v, f.ref), f.ref)
  {
    EncodeWords(f.kind, v, f.ref);
    var words := Encode(f.kind, v, f.ref);
    hide Encode, Decode, Overlay, Legal, SinkWindow.Merge, Keep, MaskOf;
    var after := Put(start, image, f, v);
    var staged := Slice(start, after, f);
    forall k | 0 <= k < Words(f)
      ensures Keep(staged[k], MaskOf(f, k, Words(f))) == Keep(words[k], MaskOf(f, k, Words(f)))
    {
      OverlayAt(start, image, f, words, k);
      MergeLaws(Slice(start, image, f)[k], words[k], MaskOf(f, k, Words(f)));
    }
    ReadsUnderMask(f, staged, words);
  }

  /** The value a field shows for an accepted input. */
  function Shown(f: Field, v: Variant): Variant
  {
    if f.kind.Bool? then Truth(ToBool(v))
    else if ToInteger(v).Some? then Number(ToInteger(v).value) else Null
  }

  /** The condition under which a number survives the mask; a Bool always does. */
  predicate Survives(f: Field, v: Variant)
  {
    f.kind.Bool? || (ToInteger(v).Some? && MaskKeeps(f.kind, ToInteger(v).value, f.ref))
  }

  /** An accepted write reads back as itself exactly when the mask loses none of its bits. */
  lemma WriteReadsBack(start: int, image: seq<bv16>, f: Field, v: Variant)
    requires Legal(f) && Inside(start, |image|, f) && Accepts(f, v)
    ensures Get(start, Put(start, image, f, v), f) == Shown(f, v) <==> Survives(f, v)
  {
    PutGet(start, image, f, v);
    if f.kind.Bool? {
      BoolRoundTrip(v, f.ref);
    } else {
      IntegerRoundTrip(f.kind, v, f.ref);
    }
    hide Encode, Decode, Put, MaskKeeps;
  }

  // ---------------------------------------------------------------- writing back what was read

  /**
   The registers hold nothing that a write of this field wipes out. A one-register
   integer and a Bool with its bit share their register safely; a Bool without a bit
   and a masked multi-register number take their registers whole.
   */
  predicate NothingBeside(f: Field, raw: seq<bv16>)
    requires Legal(f) && |raw| == Words(f)
  {
    if f.kind.Bool? then f.ref.bit.Some? || raw[0] <= 1
    else Words(f) == 1 || AndNot(UnpackInt(raw, Words(f), f.ref.wordOrder), Up(f.ref.mask, f.ref.shift)) == 0
  }

  lemma BoolBack(r: bv16, f: Field)
    requires Legal(f) && f.kind.Bool?
    ensures Encode(Bool, Decode(Bool, [r], f.ref), f.ref) == [Keep(r, BitOf(TheBit(f.ref)))]
  {
    hide BitOf, Keep, AnyBit;
    KeepOneBit(r, TheBit(f.ref));
    BitSelects(r, BitOf(TheBit(f.ref)));
    BitLaws(TheBit(f.ref));
  }

  lemma OnlyLowBit(r: bv16)
    ensures SinkWindow.Merge(r, Keep(r, 1), 0xFFFF) == r <==> r <= 1
  {
  }

  /** One register of GetPut. */
  lemma GetPutOne(r: bv16, f: Field)
    requires Legal(f) && Words(f) == 1
    ensures var words := Encode(f.kind, Decode(f.kind, [r], f.ref), f.ref);
            |words| == 1 && (SinkWindow.Merge(r, words[0], MaskOf(f, 0, 1)) == r <==> NothingBeside(f, [r]))
  {
    if f.kind.Bool? {
      BoolBack(r, f);
      if f.ref.bit.None? {
        WholeBool(f);
        LowestBit();
        OnlyLowBit(r);
      } else {
        MergeLaws(r, 0, BitOf(f.ref.bit.value));
      }
    } else {
      EncodeDecode(f.kind, [r], f.ref);
      KeepWide(r, Up(f.ref.mask, f.ref.shift));
      MergeLaws(r, 0, MaskOf(f, 0, 1));
    }
    hide Encode, Decode, BitOf, Keep, SinkWindow.Merge, And, AndNot, Up, Down, Wide, Narrow;
  }

  /** Several registers of GetPut. */
  lemma GetPutWide(raw: seq<bv16>, f: Field)
    requires Legal(f) && |raw| == Words(f) > 1
    ensures var words := Encode(f.kind, Decode(f.kind, raw, f.ref), f.ref);
            |words| == |raw| && (words == raw <==> NothingBeside(f, raw))
  {
    var rc, w := Words(f), f.ref.wordOrder;
    hide Encode, Decode, Up, Down, And, AndNot, UnpackInt, PackInt, Limit, Within, Ones;
    var u := UnpackInt(raw, rc, w);
    var m := Up(f.ref.mask, f.ref.shift);
    EncodeDecode(f.kind, raw, f.ref);
    MaskTwice(u, m);
    PackUnpack(raw, rc, w);
    assert raw[..rc] == raw;
    UnpackFits(raw, rc, w);
    LimitOnes(rc);
    AtMostWithin(u, Limit(rc));
    AndWithin(u, m, Limit(rc));
    WithinAtMost(And(u, m), Limit(rc));
    UnpackPack(And(u, m), rc, w);
  }

  /** GetPut: writing back what the field reads changes nothing, exactly when nothing is beside the field. */
  lemma GetPut(start: int, image: seq<bv16>, f: Field)
    requires Legal(f) && Inside(start, |image|, f)
    ensures Put(start, image, f, Get(start, image, f)) == image <==> NothingBeside(f, Slice(start, image, f))
  {
    var raw := Slice(start, image, f);
    var v := Get(start, image, f);
    var words := Encode(f.kind, v, f.ref);
    if Words(f) == 1 {
      assert raw == [raw[0]];
      GetPutOne(raw[0], f);
    } else {
      GetPutWide(raw, f);
      forall k | 0 <= k < Words(f) ensures SinkWindow.Merge(raw[k], words[k], MaskOf(f, k, Words(f))) == words[k] {
        MergeLaws(raw[k], words[k], 0);
      }
    }
    hide Encode, Decode, NothingBeside, SinkWindow.Merge, StageMask;
    SameSlice(start, image, f, words);
  }

  /** A Bool sink without a bit wipes its neighbours: writing back the false it reads from 2 gives 0. */
  lemma BoolWithoutBitWipes()
    ensures var f := Field(Bool, PortRef(None, ABCD, 0, 0xFFFF_FFFF_FFFF_FFFF), 100);
            && Legal(f) && Get(100, [2], f) == Truth(false)
            && Put(100, [2], f, Truth(false)) == [0]
  {
    var f := Field(Bool, PortRef(None, ABCD, 0, 0xFFFF_FFFF_FFFF_FFFF), 100);
    LowestBit();
    WholeBool(f);
    MergeLaws(2, 0, 0);
    assert (2 as bv16) & 1 == 0;
    hide BitOf, Narrow, SinkWindow.Merge, StageMask;
    assert Encode(Bool, Truth(false), f.ref) == [0];
    assert Slice(100, [2], f) == [2];
    assert Overlay(100, [2], f, [0], 1)[0] == SinkWindow.Merge(2, 0, MaskOf(f, 0, 1));
    assert Overlay(100, [2], f, [0], 1) == [0];
  }

  /** The overlay leaves the image alone exactly when it leaves the field's registers alone. */
  lemma SameSlice(start: int, image: seq<bv16>, f: Field, words: seq<bv16>)
    requires Legal(f) && Inside(start, |image|, f) && |words| == Words(f)
    ensures Overlay(start, image, f, words, |words|) == image
            <==> forall k :: 0 <= k < Words(f) ==>
                   SinkWindow.Merge(Slice(start, image, f)[k], words[k], MaskOf(f, k, Words(f))) == Slice(start, image, f)[k]
  {
    hide Legal, SinkWindow.Merge, StageMask;
    var after := Overlay(start, image, f, words, |words|);
    var off := f.address - start;
    forall k | 0 <= k < Words(f) ensures Slice(start, image, f)[k] == image[off + k] && Slice(start, after, f)[k] == after[off + k] {
    }
    forall k | 0 <= k < Words(f) ensures after[off + k] == SinkWindow.Merge(image[off + k], words[k], MaskOf(f, k, Words(f))) {
    }
    if forall k :: 0 <= k < Words(f) ==> Slice(start, after, f)[k] == Slice(start, image, f)[k] {
      forall i | 0 <= i < |image| ensures after[i] == image[i] {
        if off <= i < off + Words(f) {
          assert Slice(start, after, f)[i - off] == Slice(start, image, f)[i - off];
        }
      }
    }
  }

  // ---------------------------------------------------------------- several fields

  lemma DisjointSym(f: Field, g: Field)
    requires Legal(f) && Legal(g) && Disjoint(f, g)
    ensures Disjoint(g, f)
  {
    hide Legal, StageMask;
    forall a | g.address <= a < g.address + Words(g) ensures Keep(MaskAt(g, a), MaskAt(f, a)) == 0 {
      KeepSym(MaskAt(g, a), MaskAt(f, a));
      if Covers(f, a) {
        assert Keep(MaskAt(f, a), MaskAt(g, a)) == 0;
      }
    }
  }

  lemma KeepSym(a: bv16, b: bv16)
    ensures Keep(a, b) == Keep(b, a) && Keep(a, 0) == 0
  {
  }

  /** One register of an image outside a disjoint write. */
  lemma RegisterElsewhere(start: int, image: seq<bv16>, f: Field, words: seq<bv16>, a: int, mask: bv16)
    requires Legal(f) && (words == [] || |words| == Words(f)) && 0 <= a - start < |image|
    requires Covers(f, a) ==> Keep(MaskAt(f, a), mask) == 0
    ensures Keep(Overlay(start, image, f, words, |words|)[a - start], mask) == Keep(image[a - start], mask)
  {
    hide Legal, SinkWindow.Merge, Keep, StageMask;
    if Covers(f, a) && words != [] {
      MergeElsewhere(image[a - start], words[a - f.address], MaskAt(f, a), mask);
    }
  }

  /** The overlay of one field does not show under a disjoint mask. */
  lemma MaskedElsewhere(start: int, image: seq<bv16>, f: Field, words: seq<bv16>, g: Field, k: nat)
    requires Legal(f) && Legal(g) && Inside(start, |image|, f) && Inside(start, |image|, g) && Disjoint(f, g)
    requires (words == [] || |words| == Words(f)) && k < Words(g)
    ensures var after := Overlay(start, image, f, words, |words|);
            Keep(Slice(start, after, g)[k], MaskOf(g, k, Words(g))) == Keep(Slice(start, image, g)[k], MaskOf(g, k, Words(g)))
  {
    hide Legal, SinkWindow.Merge, Keep, StageMask, Overlay;
    var a := g.address + k;
    assert MaskAt(g, a) == MaskOf(g, k, Words(g));
    RegisterElsewhere(start, image, f, words, a, MaskAt(g, a));
  }

  /** A write does not disturb a field with a disjoint mask. */
  lemma PutElsewhere(start: int, image: seq<bv16>, f: Field, v: Variant, g: Field)
    requires Legal(f) && Legal(g) && Inside(start, |image|, f) && Inside(start, |image|, g) && Disjoint(f, g)
    ensures Get(start, Put(start, image, f, v), g) == Get(start, image, g)
  {
    EncodeWords(f.kind, v, f.ref);
    LegalKind(f);
    hide Encode, Decode, Overlay, Disjoint, Legal, SinkWindow.Merge, Keep, MaskOf, Slice;
    var words := Encode(f.kind, v, f.ref);
    var after := Overlay(start, image, f, words, |words|);
    forall k | 0 <= k < Words(g)
      ensures Keep(Slice(start, after, g)[k], MaskOf(g, k, Words(g))) == Keep(Slice(start, image, g)[k], MaskOf(g, k, Words(g)))
    {
      MaskedElsewhere(start, image, f, words, g, k);
    }
    ReadsUnderMask(g, Slice(start, after, g), Slice(start, image, g));
  }

  lemma LegalKind(f: Field)
    requires Legal(f)
    ensures IsInteger(f.kind) || f.kind.Bool?
  {
  }
}
