/** An enum datapoint as a lens on its register, under the same stage mask as an integer. */
module EnumLens {
  import opened Codec
  import opened Options
  import opened ScalarCodec
  import opened EnumCodec
  import FieldLens
  import SinkWindow

  function EnumMask(ref: PortRef): bv16
    requires ref.shift >= 0 && ref.bit.None?
  {
    FieldLens.StageMask(ref, 0, 1)
  }

  /** The key of a register depends only on the bits under the mask. */
  lemma KeyUnderMask(r: bv16, q: bv16, ref: PortRef)
    requires ref.shift >= 0 && ref.bit.None? && FieldLens.Keep(r, EnumMask(ref)) == FieldLens.Keep(q, EnumMask(ref))
    ensures Key(r, ref) == Key(q, ref)
  {
    hide Key, Up, Down, And, Within, Wide, Narrow, FieldLens.Keep;
    KeyIsField(r, ref);
    KeyIsField(q, ref);
    FieldLens.FieldUnderMask(r, ref);
    FieldLens.FieldUnderMask(q, ref);
  }

  /** A staged name is read back whatever else is in the register, and so is a staged number. */
  lemma EnumPutGet(forward: map<bv16, string>, reverse: map<string, bv16>, r: bv16, v: Given, ref: PortRef)
    requires ref.bit.None? && Reverses(forward, reverse) && EncodeEnum(reverse, v, ref) != []
    ensures 0 <= ref.shift <= 15
    ensures var staged := SinkWindow.Merge(r, EncodeEnum(reverse, v, ref)[0], EnumMask(ref));
            var back := DecodeEnum(forward, [staged], ref);
            if v.text in reverse then back == Named(v.text)
            else var raw := v.numeric.value as bv16;
                 back == if raw in forward then Named(forward[raw]) else Unknown(raw)
  {
    EncodedShift(reverse, v, ref);
    EnumRoundTrip(forward, reverse, v, ref);
    KeyOfEncoded(reverse, v, ref);
    hide EncodeEnum, Key, SinkWindow.Merge, FieldLens.StageMask, FieldLens.Keep, Reverses, Chosen;
    var w := EncodeEnum(reverse, v, ref)[0];
    FieldLens.MergeLaws(r, w, EnumMask(ref));
    KeyUnderMask(SinkWindow.Merge(r, w, EnumMask(ref)), w, ref);
    assert EncodeEnum(reverse, v, ref) == [w];
  }

  /** The register after staging what the encoder gives; a refusal stages nothing. */
  function Staged(r: bv16, words: seq<bv16>, ref: PortRef): bv16
    requires ref.shift >= 0 && ref.bit.None?
  {
    if words == [] then r else SinkWindow.Merge(r, words[0], EnumMask(ref))
  }

  /**
   Staging back a name that was read leaves the register unchanged exactly when the name
   leads back to the value read, or the encoder refuses it.
   */
  lemma EnumGetPut(forward: map<bv16, string>, reverse: map<string, bv16>, r: bv16, ref: PortRef, numeric: Option<nat>)
    requires ref.bit.None? && Reverses(forward, reverse) && DecodeEnum(forward, [r], ref).Named?
    ensures var name := DecodeEnum(forward, [r], ref).name;
            var words := EncodeEnum(reverse, Given(name, numeric), ref);
            Staged(r, words, ref) == r <==> reverse[name] == Key(r, ref) || words == []
  {
    var name := forward[Key(r, ref)];
    NameKnown(forward, reverse, Key(r, ref));
    var v := Given(name, numeric);
    EnumEncodeDecode(forward, reverse, r, ref, numeric);
    FieldLens.KeepWide(r, Up(ref.mask, ref.shift));
    FieldLens.MergeLaws(r, 0, EnumMask(ref));
    hide EncodeEnum, Key, SinkWindow.Merge, FieldLens.Keep, Reverses, And, Up, Wide, Narrow;
    var words := EncodeEnum(reverse, v, ref);
    if words != [] && SinkWindow.Merge(r, words[0], EnumMask(ref)) == r {
      KeyOfEncoded(reverse, v, ref);
      FieldLens.MergeLaws(r, words[0], EnumMask(ref));
      KeyUnderMask(r, words[0], ref);
    }
  }

  lemma WideUnmasked(r: bv16)
    ensures And(Wide(r), 0xFFFF) == Wide(r) && AndNot(Wide(r), 0xFFFF) == 0 && Narrow(Wide(r)) == r
  {
  }

  lemma WideBelow(r: bv16)
    ensures AtMost(Wide(r), 0xFFFF)
  {
  }

  /** A field that is the whole register. */
  lemma WholeRegister(r: bv16, ref: PortRef)
    requires ref == PortRef(None, ABCD, 0, 0xFFFF)
    ensures Key(r, ref) == r && AndNot(Wide(r), ref.mask) == 0 && AtMost(Up(And(Wide(r), ref.mask), 0), 0xFFFF)
  {
    hide And, AndNot, AtMost, Wide, Narrow, Within, Key;
    WideUnmasked(r);
    WideBelow(r);
    KeyIsField(r, ref);
    assert Down(Wide(r), 0) == Wide(r) && Up(Wide(r), 0) == Wide(r);
  }

  /** Two values under one name: reading the one that the name does not lead back to, and staging it back, changes the register. */
  lemma SharedNameChanges(forward: map<bv16, string>, reverse: map<string, bv16>, a: bv16, b: bv16)
    requires Reverses(forward, reverse) && a != b && a in forward && b in forward && forward[a] == forward[b]
    ensures var ref := PortRef(None, ABCD, 0, 0xFFFF);
            var r := if reverse[forward[a]] == a then b else a;
            && DecodeEnum(forward, [r], ref) == Named(forward[a])
            && Staged(r, EncodeEnum(reverse, Given(forward[a], None), ref), ref) != r
  {
    var ref := PortRef(None, ABCD, 0, 0xFFFF);
    var r := if reverse[forward[a]] == a then b else a;
    WholeRegister(r, ref);
    WholeRegister(reverse[forward[a]], ref);
    hide Key, And, AndNot, AtMost, Wide, Narrow, Up, SinkWindow.Merge, EnumMask;
    EnumGetPut(forward, reverse, r, ref, None);
  }

  /** A write under a disjoint mask does not change what the enum reads. */
  lemma EnumElsewhere(forward: map<bv16, string>, r: bv16, w: bv16, mask: bv16, ref: PortRef)
    requires ref.bit.None? && ref.shift >= 0 && FieldLens.Keep(mask, EnumMask(ref)) == 0
    ensures DecodeEnum(forward, [SinkWindow.Merge(r, w, mask)], ref) == DecodeEnum(forward, [r], ref)
  {
    hide Key, SinkWindow.Merge, FieldLens.StageMask, FieldLens.Keep;
    FieldLens.MergeElsewhere(r, w, mask, EnumMask(ref));
    KeyUnderMask(SinkWindow.Merge(r, w, mask), r, ref);
  }
}
