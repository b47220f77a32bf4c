/** A codec from register values to names and back. */
module EnumCodec {
  import opened Codec
  import opened Options
  import opened ScalarCodec

  /** A value to encode, as text and as the unsigned number it reads as, if any. */
  datatype Given = Given(text: string, numeric: Option<nat>)

  /** A decoded value: a name of the table, or the text made for a value without one. */
  datatype EnumValue = Nothing | Named(name: string) | Unknown(raw: bv16)

  /** Each name leads back to one of the values that carry it. */
  predicate Reverses(forward: map<bv16, string>, reverse: map<string, bv16>)
  {
    && (forall raw <- forward :: forward[raw] in reverse)
    && (forall name <- reverse :: reverse[name] in forward && forward[reverse[name]] == name)
  }

  /** The first value met for a name keeps it, whatever the order of the table. */
  method BuildReverse(forward: map<bv16, string>, order: seq<bv16>) returns (reverse: map<string, bv16>)
    requires forall raw :: raw in order <==> raw in forward
    ensures Reverses(forward, reverse)
  {
    reverse := map[];
    var i := 0;
    while i < |order|
      invariant 0 <= i <= |order|
      invariant forall j :: 0 <= j < i ==> order[j] in forward && forward[order[j]] in reverse
      invariant forall name <- reverse :: reverse[name] in forward && forward[reverse[name]] == name
    {
      assert order[i] in order;
      var name := forward[order[i]];
      if name !in reverse { reverse := reverse[name := order[i]]; }
      i := i + 1;
    }
    forall raw <- forward ensures forward[raw] in reverse {
      assert raw in order;
    }
  }

  /** The field of the register, as the table's key. */
  function Key(r: bv16, ref: PortRef): bv16
    requires ref.shift >= 0
  {
    Narrow(And(Down(Wide(r), ref.shift), And(ref.mask, 0xFFFF)))
  }

  function DecodeEnum(forward: map<bv16, string>, raw: seq<bv16>, ref: PortRef): EnumValue
  {
    if raw == [] || ref.shift < 0 || ref.shift > 15 then Nothing
    else
      var key := Key(raw[0], ref);
      if key in forward then Named(forward[key]) else Unknown(key)
  }

  /** The register value that an input stands for. */
  function Chosen(reverse: map<string, bv16>, v: Given): Option<bv16>
  {
    if v.text in reverse then Some(reverse[v.text])
    else if v.numeric.None? || v.numeric.value > 65535 then None
    else Some(v.numeric.value as bv16)
  }

  function EncodeEnum(reverse: map<string, bv16>, v: Given, ref: PortRef): seq<bv16>
  {
    var raw := Chosen(reverse, v);
    if raw.None? || ref.shift < 0 || ref.shift > 15 then []
    else if AndNot(Wide(raw.value), ref.mask) != 0 then []
    else
      var shifted := Up(And(Wide(raw.value), ref.mask), ref.shift);
      if !AtMost(shifted, 0xFFFF) then [] else [Narrow(shifted)]
  }

  // ---------------------------------------------------------------- bit lemmas

  lemma WideNarrow(r: bv16, v: bv64)
    ensures Narrow(Wide(r)) == r && Within(Wide(r), 0xFFFF)
    ensures Within(v, 0xFFFF) ==> Wide(Narrow(v)) == v
  {
  }

  lemma MaskParts(x: bv64, m: bv64)
    requires Within(x, 0xFFFF)
    ensures And(x, And(m, 0xFFFF)) == And(x, m)
  {
  }

  lemma {:induction false} DownSum(v: bv64, j: nat, k: nat)
    ensures Down(Down(v, j), k) == Down(v, j + k)
    decreases j
  {
    hide Shr1;
    if j > 0 {
      DownSum(Shr1(v), j - 1, k);
    }
  }

  const ALL: bv64 := 0xFFFF_FFFF_FFFF_FFFF

  lemma AllDown()
    ensures Within(0xFFFF, Down(ALL, 15)) && Ones(ALL)
  {
    DownSum(ALL, 5, 10);
    DownSum(Down(ALL, 5), 5, 5);
    assert Down(ALL, 5) == 0x07FF_FFFF_FFFF_FFFF;
    assert Down(0x07FF_FFFF_FFFF_FFFF, 5) == 0x003F_FFFF_FFFF_FFFF;
    assert Down(0x003F_FFFF_FFFF_FFFF, 5) == 0x0001_FFFF_FFFF_FFFF;
  }

  /** A 16-bit value has room for a shift of at most 15. */
  lemma RoomForShift(x: bv64, shift: nat)
    requires Within(x, 0xFFFF) && shift <= 15
    ensures Down(Up(x, shift), shift) == x
  {
    hide Down, Up, Within, Ones;
    AllDown();
    DownOnes(ALL, shift);
    DownSum(ALL, shift, 15 - shift);
    DownWider(0xFFFF, 15 - shift, Down(ALL, shift));
    WithinTrans(x, 0xFFFF, Down(ALL, shift));
    UpDownLaw(x, shift, ALL);
  }

  lemma SixteenOnes()
    ensures Ones(0xFFFF)
  {
  }

  // ---------------------------------------------------------------- round trips

  /** What was encoded under a key is read back under the same key. */
  lemma KeyOfEncoded(reverse: map<string, bv16>, v: Given, ref: PortRef)
    requires EncodeEnum(reverse, v, ref) != []
    ensures |EncodeEnum(reverse, v, ref)| == 1
    ensures Some(Key(EncodeEnum(reverse, v, ref)[0], ref)) == Chosen(reverse, v)
  {
    hide Up, Down, And, AndNot, Within, Ones, AtMost, Wide, Narrow;
    var raw := Chosen(reverse, v).value;
    var x := Wide(raw);
    MaskTwice(x, ref.mask);
    var shifted := Up(x, ref.shift);
    SixteenOnes();
    WithinIffAtMost(shifted, 0xFFFF);
    WideNarrow(raw, shifted);
    RoomForShift(x, ref.shift);
    MaskParts(x, ref.mask);
  }

  /** Every accepted name comes back; an accepted number comes back as its name or as unknown. */
  lemma EnumRoundTrip(forward: map<bv16, string>, reverse: map<string, bv16>, v: Given, ref: PortRef)
    requires Reverses(forward, reverse) && EncodeEnum(reverse, v, ref) != []
    ensures var back := DecodeEnum(forward, EncodeEnum(reverse, v, ref), ref);
            if v.text in reverse then back == Named(v.text)
            else var raw := v.numeric.value as bv16;
                 back == if raw in forward then Named(forward[raw]) else Unknown(raw)
  {
    KeyOfEncoded(reverse, v, ref);
    hide Key, EncodeEnum;
    assert 0 <= ref.shift <= 15 by { EncodedShift(reverse, v, ref); }
  }

  lemma EncodedShift(reverse: map<string, bv16>, v: Given, ref: PortRef)
    requires EncodeEnum(reverse, v, ref) != []
    ensures 0 <= ref.shift <= 15 && Chosen(reverse, v).Some?
  {
    hide Up, And, AndNot, AtMost, Wide, Narrow;
  }

  /**
   Encoding a decoded name restores the register's field exactly when the name leads
   back to the value that was read, which two values with one name can break.
   */
  lemma EnumEncodeDecode(forward: map<bv16, string>, reverse: map<string, bv16>, r: bv16, ref: PortRef, numeric: Option<nat>)
    requires Reverses(forward, reverse) && DecodeEnum(forward, [r], ref).Named?
    ensures var name := DecodeEnum(forward, [r], ref).name;
            EncodeEnum(reverse, Given(name, numeric), ref) == [Narrow(And(Wide(r), Up(ref.mask, ref.shift)))]
            <==> reverse[name] == Key(r, ref)
  {
    var name := forward[Key(r, ref)];
    var v := Given(name, numeric);
    NameKnown(forward, reverse, Key(r, ref));
    hide Key, Up, And, Wide, Narrow, EncodeEnum, Reverses;
    if reverse[name] == Key(r, ref) {
      EncodeKey(reverse, v, r, ref);
    }
    if EncodeEnum(reverse, v, ref) == [Narrow(And(Wide(r), Up(ref.mask, ref.shift)))] {
      KeyOfEncoded(reverse, v, ref);
      KeyOfField(r, ref);
    }
  }

  /** Encoding the key of a register is accepted and gives the register's field. */
  lemma EncodeKey(reverse: map<string, bv16>, v: Given, r: bv16, ref: PortRef)
    requires 0 <= ref.shift <= 15 && Chosen(reverse, v) == Some(Key(r, ref))
    ensures EncodeEnum(reverse, v, ref) == [Narrow(And(Wide(r), Up(ref.mask, ref.shift)))]
  {
    hide Up, Down, And, AndNot, Within, Ones, AtMost, Wide, Narrow;
    var u := Wide(r);
    var x := And(Down(u, ref.shift), ref.mask);
    var field := And(u, Up(ref.mask, ref.shift));
    KeyIsField(r, ref);
    DownUpLaw(u, ref.mask, ref.shift);
    WideNarrow(r, x);
    AndWithin(u, Up(ref.mask, ref.shift), 0xFFFF);
    SixteenOnes();
    WithinIffAtMost(field, 0xFFFF);
    MaskTwice(Down(u, ref.shift), ref.mask);
  }

  /** Masking in place does not change the key. */
  lemma KeyOfField(r: bv16, ref: PortRef)
    requires 0 <= ref.shift <= 15
    ensures Key(Narrow(And(Wide(r), Up(ref.mask, ref.shift))), ref) == Key(r, ref)
  {
    hide Up, Down, And, AndNot, Within, Ones, Wide, Narrow;
    var u := Wide(r);
    var x := And(Down(u, ref.shift), ref.mask);
    var field := And(u, Up(ref.mask, ref.shift));
    KeyIsField(r, ref);
    DownUpLaw(u, ref.mask, ref.shift);
    WideNarrow(r, field);
    AndWithin(u, Up(ref.mask, ref.shift), 0xFFFF);
    RoomForShift(x, ref.shift);
    MaskTwice(Down(u, ref.shift), ref.mask);
    MaskParts(x, ref.mask);
  }

  lemma NameKnown(forward: map<bv16, string>, reverse: map<string, bv16>, key: bv16)
    requires Reverses(forward, reverse) && key in forward
    ensures forward[key] in reverse
  {
  }

  lemma KeyIsField(r: bv16, ref: PortRef)
    requires ref.shift >= 0
    ensures var x := And(Down(Wide(r), ref.shift), ref.mask); Narrow(x) == Key(r, ref) && Within(x, 0xFFFF)
  {
    hide Up, Down, And, Within, Ones, Wide, Narrow;
    var d := Down(Wide(r), ref.shift);
    WideNarrow(r, 0);
    SixteenOnes();
    DownWithin(Wide(r), ref.shift, 0xFFFF);
    DownWider(d, ref.shift, 0xFFFF);
    AndWithin(d, ref.mask, 0xFFFF);
    MaskParts(d, ref.mask);
  }

  /** Without two values under one name, the field is always restored. */
  lemma EnumEncodeDecodeInjective(forward: map<bv16, string>, reverse: map<string, bv16>, r: bv16, ref: PortRef, numeric: Option<nat>)
    requires Reverses(forward, reverse) && DecodeEnum(forward, [r], ref).Named?
    requires forall a, b :: a in forward && b in forward && forward[a] == forward[b] ==> a == b
    ensures EncodeEnum(reverse, Given(DecodeEnum(forward, [r], ref).name, numeric), ref)
            == [Narrow(And(Wide(r), Up(ref.mask, ref.shift)))]
  {
    EnumEncodeDecode(forward, reverse, r, ref, numeric);
    hide Key, Up, And, Wide, Narrow, EncodeEnum;
  }

  /** The register value of an input that stands for one. */
  function ValueOf(reverse: map<string, bv16>, v: Given): bv16
    requires v.text in reverse || (v.numeric.Some? && v.numeric.value <= 65535)
  {
    if v.text in reverse then reverse[v.text] else v.numeric.value as bv16
  }

  /** What the encoder accepts: a name of the table or a number of 16 bits, within the mask, that fits the register when shifted. */
  lemma EnumAccepts(reverse: map<string, bv16>, v: Given, ref: PortRef)
    ensures EncodeEnum(reverse, v, ref) != [] <==>
      && 0 <= ref.shift <= 15
      && (v.text in reverse || (v.numeric.Some? && v.numeric.value <= 65535))
      && Within(Wide(ValueOf(reverse, v)), ref.mask) && AtMost(Up(Wide(ValueOf(reverse, v)), ref.shift), 0xFFFF)
  {
    if v.text in reverse || (v.numeric.Some? && v.numeric.value <= 65535) {
      assert Chosen(reverse, v) == Some(ValueOf(reverse, v));
      hide And, AndNot, AtMost, Up, Within, Wide, Narrow, Chosen, ValueOf;
      WithinIsMasked(Wide(ValueOf(reverse, v)), ref.mask);
    }
  }

  lemma WithinIsMasked(x: bv64, m: bv64)
    ensures Within(x, m) <==> AndNot(x, m) == 0
    ensures Within(x, m) ==> And(x, m) == x
  {
  }

  /** Only the first register is read. */
  lemma FirstRegisterOnly(forward: map<bv16, string>, raw: seq<bv16>, ref: PortRef)
    ensures DecodeEnum(forward, raw, ref) == if raw == [] then Nothing else DecodeEnum(forward, [raw[0]], ref)
  {
    hide Key;
  }
}
