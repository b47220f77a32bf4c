/** The datapoints of one window together: integer, Bool and enum fields that share its registers. */
module FieldFamily {
  import opened Codec
  import opened Options
  import opened ScalarCodec
  import opened EnumCodec
  import opened FieldLens
  import EnumLens
  import SinkWindow

  /** A datapoint's sink with its codec: a builtin one, or a table of names. */
  datatype Slot =
    | Scalar(f: Field)
    | Enumerated(ref: PortRef, address: int, forward: map<bv16, string>, reverse: map<string, bv16>)

  /** A written value, as the builtin codecs and as an enum codec see it. */
  datatype Input = Input(v: Variant, g: Given)

  datatype Reading = ScalarReading(v: Variant) | EnumReading(e: EnumValue)

  /** The registers and bits of the slot. */
  function Place(s: Slot): Field
  {
    if s.Scalar? then s.f else Field(EnumU16, s.ref, s.address)
  }

  predicate Sound(s: Slot)
  {
    Legal(Place(s)) && (s.Enumerated? ==> Reverses(s.forward, s.reverse))
  }

  function Encoded(s: Slot, x: Input): seq<bv16>
    requires Sound(s)
  {
    if s.Scalar? then Encode(s.f.kind, x.v, s.f.ref) else EncodeEnum(s.reverse, x.g, s.ref)
  }

  function Decoded(s: Slot, raw: seq<bv16>): Reading
    requires Sound(s)
  {
    if s.Scalar? then ScalarReading(Decode(s.f.kind, raw, s.f.ref)) else EnumReading(DecodeEnum(s.forward, raw, s.ref))
  }

  function Read(start: int, image: seq<bv16>, s: Slot): Reading
    requires Sound(s) && Inside(start, |image|, Place(s))
  {
    Decoded(s, Slice(start, image, Place(s)))
  }

  /** The image after the slot's writer has staged a value; a refused value stages nothing. */
  function Staged(start: int, image: seq<bv16>, s: Slot, x: Input): (r: seq<bv16>)
    requires Sound(s)
    ensures |r| == |image|
  {
    Overlay(start, image, Place(s), Encoded(s, x), |Encoded(s, x)|)
  }

  /** What the written value is called when it is read. */
  function Own(s: Slot, x: Input): Reading
  {
    if s.Scalar? then ScalarReading(Shown(s.f, x.v))
    else if x.g.text in s.reverse then EnumReading(Named(x.g.text))
    else if x.g.numeric.None? || x.g.numeric.value > 65535 then EnumReading(Nothing)
    else
      var raw := x.g.numeric.value as bv16;
      EnumReading(if raw in s.forward then Named(s.forward[raw]) else Unknown(raw))
  }

  /** The condition under which a written value is read as itself: names and their numbers always are. */
  predicate Kept(s: Slot, x: Input)
  {
    s.Scalar? ==> Survives(s.f, x.v)
  }

  // ---------------------------------------------------------------- one write

  lemma EncodedWords(s: Slot, x: Input)
    requires Sound(s)
    ensures var n := |Encoded(s, x)|; n == 0 || n == Words(Place(s))
  {
    if s.Scalar? {
      EncodeWords(s.f.kind, x.v, s.f.ref);
    } else if EncodeEnum(s.reverse, x.g, s.ref) != [] {
      KeyOfEncoded(s.reverse, x.g, s.ref);
    }
    hide Encode, EncodeEnum;
  }

  /** The codec reads its own encoding as the written value exactly under the condition. */
  lemma OwnExact(s: Slot, x: Input)
    requires Sound(s) && Encoded(s, x) != []
    ensures Decoded(s, Encoded(s, x)) == Own(s, x) <==> Kept(s, x)
  {
    if s.Scalar? {
      if s.f.kind.Bool? { BoolRoundTrip(x.v, s.f.ref); } else { IntegerRoundTrip(s.f.kind, x.v, s.f.ref); }
      hide Encode, Decode, MaskKeeps;
    } else {
      EnumRoundTrip(s.forward, s.reverse, x.g, s.ref);
      EncodedShift(s.reverse, x.g, s.ref);
      hide EncodeEnum, DecodeEnum;
    }
  }

  lemma EnumStaged(start: int, image: seq<bv16>, s: Slot, x: Input)
    requires Sound(s) && s.Enumerated? && Inside(start, |image|, Place(s)) && Encoded(s, x) != []
    ensures Read(start, Staged(start, image, s, x), s) == Own(s, x)
  {
    EncodedWords(s, x);
    var f := Place(s);
    var words := Encoded(s, x);
    hide EncodeEnum, DecodeEnum, SinkWindow.Merge, StageMask, Overlay, Reverses;
    OverlayAt(start, image, f, words, 0);
    var r := Slice(start, image, f)[0];
    EnumLens.EnumPutGet(s.forward, s.reverse, r, x.g, s.ref);
    EncodedShift(s.reverse, x.g, s.ref);
    var after := Slice(start, Staged(start, image, s, x), f);
    assert after == [SinkWindow.Merge(r, words[0], EnumLens.EnumMask(s.ref))];
  }

  /** After an accepted write the slot reads what its codec makes of its own encoding. */
  lemma StagedReads(start: int, image: seq<bv16>, s: Slot, x: Input)
    requires Sound(s) && Inside(start, |image|, Place(s)) && Encoded(s, x) != []
    ensures Read(start, Staged(start, image, s, x), s) == Decoded(s, Encoded(s, x))
  {
    if s.Scalar? {
      PutGet(start, image, s.f, x.v);
      hide Encode, Decode, Overlay;
    } else {
      EnumStaged(start, image, s, x);
      OwnExact(s, x);
      hide Encoded, Decoded, Own;
    }
  }

  /** A write does not disturb a slot with a disjoint mask. */
  lemma StagedElsewhere(start: int, image: seq<bv16>, s: Slot, x: Input, t: Slot)
    requires Sound(s) && Sound(t) && Inside(start, |image|, Place(s)) && Inside(start, |image|, Place(t))
    requires Disjoint(Place(s), Place(t))
    ensures Read(start, Staged(start, image, s, x), t) == Read(start, image, t)
  {
    EncodedWords(s, x);
    hide Encoded, Overlay, Disjoint, Keep, MaskOf, SinkWindow.Merge;
    var g := Place(t);
    var words := Encoded(s, x);
    var after := Staged(start, image, s, x);
    forall k | 0 <= k < Words(g)
      ensures Keep(Slice(start, after, g)[k], MaskOf(g, k, Words(g))) == Keep(Slice(start, image, g)[k], MaskOf(g, k, Words(g)))
    {
      MaskedElsewhere(start, image, Place(s), words, g, k);
    }
    SameReading(t, Slice(start, after, g), Slice(start, image, g));
  }

  /** A slot reads nothing outside its mask. */
  lemma SameReading(s: Slot, a: seq<bv16>, b: seq<bv16>)
    requires Sound(s) && |a| == |b| == Words(Place(s))
    requires forall k :: 0 <= k < Words(Place(s)) ==>
               Keep(a[k], MaskOf(Place(s), k, Words(Place(s)))) == Keep(b[k], MaskOf(Place(s), k, Words(Place(s))))
    ensures Decoded(s, a) == Decoded(s, b)
  {
    if s.Scalar? {
      hide Decode, Keep, MaskOf, Legal;
      ReadsUnderMask(s.f, a, b);
    } else {
      hide Key, Keep, StageMask;
      assert Keep(a[0], MaskOf(Place(s), 0, 1)) == Keep(b[0], MaskOf(Place(s), 0, 1));
      EnumLens.KeyUnderMask(a[0], b[0], s.ref);
    }
  }

  lemma StagedRefused(start: int, image: seq<bv16>, s: Slot, x: Input)
    requires Sound(s) && Encoded(s, x) == []
    ensures Staged(start, image, s, x) == image
  {
    hide Encoded;
  }

  // ---------------------------------------------------------------- sequences of writes

  datatype Write = Write(slot: nat, x: Input)

  predicate Family(start: int, size: nat, slots: seq<Slot>)
  {
    && (forall i :: 0 <= i < |slots| ==> Sound(slots[i]) && Inside(start, size, Place(slots[i])))
    && (forall i, j :: 0 <= i < j < |slots| ==> Disjoint(Place(slots[i]), Place(slots[j])))
  }

  predicate Addressed(slots: seq<Slot>, writes: seq<Write>)
  {
    forall k :: 0 <= k < |writes| ==> writes[k].slot < |slots|
  }

  /** The image after a sequence of writes. */
  function Written(start: int, image: seq<bv16>, slots: seq<Slot>, writes: seq<Write>): (r: seq<bv16>)
    requires Family(start, |image|, slots) && Addressed(slots, writes)
    ensures |r| == |image|
  {
    if writes == [] then image
    else
      var w := writes[|writes| - 1];
      Staged(start, Written(start, image, slots, writes[..|writes| - 1]), slots[w.slot], w.x)
  }

  /** The last value written to slot `i` that its codec accepted, if any. */
  function LastAccepted(slots: seq<Slot>, writes: seq<Write>, i: nat): Option<Input>
    requires Addressed(slots, writes) && i < |slots| && Sound(slots[i])
  {
    if writes == [] then None
    else
      var w := writes[|writes| - 1];
      if w.slot == i && Encoded(slots[i], w.x) != [] then Some(w.x) else LastAccepted(slots, writes[..|writes| - 1], i)
  }

  /**
   Slots with disjoint masks behave as independent variables over any sequence of
   writes, accepted and refused: a slot without an accepted write shows what it showed
   at first; any other shows what its codec makes of its last accepted write, which is
   the written value exactly when the mask loses none of its bits, and for an enum always.
   */
  lemma {:induction false} LastWriteWins(start: int, image: seq<bv16>, slots: seq<Slot>, writes: seq<Write>, i: nat)
    requires Family(start, |image|, slots) && Addressed(slots, writes) && i < |slots|
    ensures var now := Read(start, Written(start, image, slots, writes), slots[i]);
            match LastAccepted(slots, writes, i)
            case None => now == Read(start, image, slots[i])
            case Some(x) => now == Decoded(slots[i], Encoded(slots[i], x)) && (now == Own(slots[i], x) <==> Kept(slots[i], x))
    decreases |writes|
  {
    hide Sound, Read, Staged, Encoded, Decoded, Own, Kept, Disjoint;
    if writes != [] {
      var n := |writes| - 1;
      var w := writes[n];
      LastWriteWins(start, image, slots, writes[..n], i);
      var mid := Written(start, image, slots, writes[..n]);
      if w.slot != i {
        if w.slot > i { SlotsSym(slots[i], slots[w.slot]); }
        StagedElsewhere(start, mid, slots[w.slot], w.x, slots[i]);
      } else if Encoded(slots[i], w.x) != [] {
        StagedReads(start, mid, slots[i], w.x);
        OwnExact(slots[i], w.x);
      } else {
        StagedRefused(start, mid, slots[i], w.x);
      }
    }
  }

  lemma SlotsSym(s: Slot, t: Slot)
    requires Sound(s) && Sound(t) && Disjoint(Place(s), Place(t))
    ensures Disjoint(Place(t), Place(s))
  {
    DisjointSym(Place(s), Place(t));
  }
}
