/** What the word orders mean, register by register. */
module WordOrders {
  import opened Codec
  import opened Options
  import opened ScalarCodec

  function SwapBytes(r: bv16): bv16
  {
    (r << 8) | (r >> 8)
  }

  /** The registers in order of significance, the most significant first. */
  function Arranged(w: WordOrder, raw: seq<bv16>): (r: seq<bv16>)
    requires |raw| == 2 || |raw| == 4
    ensures |r| == |raw|
  {
    var turned := if |raw| == 2 then [raw[1], raw[0]] else [raw[3], raw[2], raw[1], raw[0]];
    match w
    case ABCD => raw
    case CDAB => turned
    case BADC => Swapped(raw)
    case DCBA => Swapped(turned)
  }

  function Swapped(raw: seq<bv16>): (r: seq<bv16>)
    ensures |r| == |raw|
  {
    seq(|raw|, i requires 0 <= i < |raw| => SwapBytes(raw[i]))
  }

  /** Registers joined by machine shifts, the most significant first. */
  function Joined(r: seq<bv16>): bv64
    requires |r| == 2 || |r| == 4
  {
    if |r| == 2 then Joined2(r[0], r[1]) else Joined4(r[0], r[1], r[2], r[3])
  }

  function Joined2(a: bv16, b: bv16): bv64
  {
    ((a as bv64) << 16) | (b as bv64)
  }

  function Joined4(a: bv16, b: bv16, c: bv16, d: bv16): bv64
  {
    ((a as bv64) << 48) | ((b as bv64) << 32) | ((c as bv64) << 16) | (d as bv64)
  }

  // ---------------------------------------------------------------- bytes

  lemma CatTwo(v: bv64, high: bv8, low: bv8)
    ensures Cat(Cat(v, high), low) == (v << 16) | (Register(high, low) as bv64)
  {
  }

  lemma SwapIs(r: bv16)
    ensures Register(LowByte(r), HighByte(r)) == SwapBytes(r) && Register(HighByte(r), LowByte(r)) == r
  {
  }

  function Push(v: bv64, r: bv16): bv64
  {
    (v << 16) | (r as bv64)
  }

  lemma PushTwo(a: bv16, b: bv16)
    ensures Push(Push(0, a), b) == Joined2(a, b)
  {
  }

  lemma PushFour(a: bv16, b: bv16, c: bv16, d: bv16)
    ensures Push(Push(Push(Push(0, a), b), c), d) == Joined4(a, b, c, d)
  {
  }

  /** The value of bytes that are registers, high byte first. */
  lemma {:induction false} ValueOfRegisters(regs: seq<bv16>)
    ensures regs == [] ==> Value(RegisterBytes(regs)) == 0
    ensures regs != [] ==> Value(RegisterBytes(regs)) == Push(Value(RegisterBytes(regs[..|regs| - 1])), regs[|regs| - 1])
  {
    if regs != [] {
      hide Cat, HighByte, LowByte, Register, Push;
      var n := |regs| - 1;
      var front, r := RegisterBytes(regs[..n]), regs[n];
      var bytes := RegisterBytes(regs);
      assert bytes == front + [HighByte(r), LowByte(r)];
      assert bytes[..|bytes| - 1] == front + [HighByte(r)];
      assert (front + [HighByte(r)])[..|front|] == front;
      hide RegisterBytes;
      PushIsCat(Value(front), r);
    }
  }

  lemma PushIsCat(v: bv64, r: bv16)
    ensures Cat(Cat(v, HighByte(r)), LowByte(r)) == Push(v, r)
  {
    CatTwo(v, HighByte(r), LowByte(r));
    SwapIs(r);
    hide Cat, HighByte, LowByte, Register;
  }

  lemma ValueJoined(regs: seq<bv16>)
    requires |regs| == 2 || |regs| == 4
    ensures Value(RegisterBytes(regs)) == Joined(regs)
  {
    hide Value, RegisterBytes, Push, Joined2, Joined4;
    var r1 := regs[..1];
    assert r1[..0] == [] && regs[..0] == [];
    ValueOfRegisters([]);
    ValueOfRegisters(r1);
    var r2 := regs[..2];
    assert r2[..1] == r1;
    ValueOfRegisters(r2);
    if |regs| == 2 {
      assert r2 == regs;
      PushTwo(regs[0], regs[1]);
    } else {
      var r3 := regs[..3];
      assert r3[..2] == r2 && regs[..3] == r3;
      ValueOfRegisters(r3);
      ValueOfRegisters(regs);
      PushFour(regs[0], regs[1], regs[2], regs[3]);
    }
  }

  /** The bytes in an order are the bytes of the arranged registers. */
  lemma ReorderArranged(raw: seq<bv16>, w: WordOrder)
    requires |raw| == 2 || |raw| == 4
    requires forall i :: 0 <= i < 2 * |raw| ==> Permutation(w, 2 * |raw|)[i] < 2 * |raw|
    ensures Reorder(RegisterBytes(raw), Permutation(w, 2 * |raw|)) == RegisterBytes(Arranged(w, raw))
  {
    hide Permutation, Arranged, RegisterBytes, ByteOf;
    var n := 2 * |raw|;
    var left, right := Reorder(RegisterBytes(raw), Permutation(w, n)), RegisterBytes(Arranged(w, raw));
    assert |left| == |right| == n;
    forall i | 0 <= i < n ensures left[i] == right[i] {
      OneByte(raw, w, i);
    }
  }

  lemma OneByte(raw: seq<bv16>, w: WordOrder, i: nat)
    requires (|raw| == 2 || |raw| == 4) && i < 2 * |raw| && Permutation(w, 2 * |raw|)[i] < 2 * |raw|
    ensures RegisterBytes(raw)[Permutation(w, 2 * |raw|)[i]] == RegisterBytes(Arranged(w, raw))[i]
  {
    hide Permutation, Arranged, RegisterBytes, ByteOf;
    ByteAt(raw, Permutation(w, 2 * |raw|)[i]);
    ByteAt(Arranged(w, raw), i);
    ArrangedByte(raw, w, i);
  }

  function ByteOf(regs: seq<bv16>, i: nat): bv8
    requires i < 2 * |regs|
  {
    if i % 2 == 0 then HighByte(regs[i / 2]) else LowByte(regs[i / 2])
  }

  lemma {:induction false} ByteAt(regs: seq<bv16>, i: nat)
    requires i < 2 * |regs|
    ensures RegisterBytes(regs)[i] == ByteOf(regs, i)
    decreases |regs|
  {
    hide HighByte, LowByte;
    var n := |regs| - 1;
    if i < 2 * n {
      ByteAt(regs[..n], i);
    }
  }

  lemma SwapHalves(r: bv16)
    ensures HighByte(SwapBytes(r)) == LowByte(r) && LowByte(SwapBytes(r)) == HighByte(r)
  {
  }

  lemma ArrangedByte(raw: seq<bv16>, w: WordOrder, i: nat)
    requires (|raw| == 2 || |raw| == 4) && i < 2 * |raw| && Permutation(w, 2 * |raw|)[i] < 2 * |raw|
    ensures ByteOf(raw, Permutation(w, 2 * |raw|)[i]) == ByteOf(Arranged(w, raw), i)
  {
    forall k | 0 <= k < |raw| ensures HighByte(SwapBytes(raw[k])) == LowByte(raw[k]) && LowByte(SwapBytes(raw[k])) == HighByte(raw[k]) {
      SwapHalves(raw[k]);
    }
    hide HighByte, LowByte, SwapBytes;
  }

  // ---------------------------------------------------------------- the meaning of an order

  /**
   The value of two or four registers: in order for ABCD, in reverse order for CDAB, and
   with the bytes of each register swapped for BADC and DCBA.
   */
  lemma UnpackMeans(raw: seq<bv16>, w: WordOrder)
    requires |raw| == 2 || |raw| == 4
    ensures UnpackInt(raw, |raw|, w) == Joined(Arranged(w, raw))
  {
    hide Value, RegisterBytes, Reorder, Joined, Arranged, Permutation;
    PermutationBelow(w, 2 * |raw|);
    ReorderArranged(raw, w);
    ValueJoined(Arranged(w, raw));
    assert raw[..|raw|] == raw;
  }

  lemma JoinedInjective2(a: bv16, b: bv16, v: bv64)
    requires Joined2(a, b) == v
    ensures a == Narrow(v >> 16) && b == Narrow(v)
  {
  }

  lemma JoinedInjective4(a: bv16, b: bv16, c: bv16, d: bv16, v: bv64)
    requires Joined4(a, b, c, d) == v
    ensures a == Narrow(v >> 48) && b == Narrow(v >> 32) && c == Narrow(v >> 16) && d == Narrow(v)
  {
  }

  /** The registers of a value by machine shifts, the most significant first. */
  function Parts(v: bv64, rc: nat): seq<bv16>
    requires rc == 2 || rc == 4
  {
    if rc == 2 then [Narrow(v >> 16), Narrow(v)] else [Narrow(v >> 48), Narrow(v >> 32), Narrow(v >> 16), Narrow(v)]
  }

  lemma PartsOf(regs: seq<bv16>, v: bv64)
    requires (|regs| == 2 || |regs| == 4) && Joined(regs) == v
    ensures regs == Parts(v, |regs|)
  {
    if |regs| == 2 {
      JoinedInjective2(regs[0], regs[1], v);
    } else {
      JoinedInjective4(regs[0], regs[1], regs[2], regs[3], v);
    }
    hide Narrow, Joined2, Joined4;
  }

  /** Packing puts the parts of a value into the registers in the same arrangement. */
  lemma PackMeans(v: bv64, rc: nat, w: WordOrder)
    requires (rc == 2 || rc == 4) && v <= Limit(rc)
    ensures Arranged(w, PackInt(v, rc, w)) == Parts(v, rc)
  {
    hide UnpackInt, PackInt, Joined, Arranged, Parts, Limit;
    UnpackPack(v, rc, w);
    UnpackMeans(PackInt(v, rc, w), w);
    PartsOf(Arranged(w, PackInt(v, rc, w)), v);
  }

  /** What a datapoint of two or four registers reads: the arranged registers, shifted down, masked and taken as its type. */
  lemma DecodeMeans(t: ScalarType, raw: seq<bv16>, ref: PortRef)
    requires IsInteger(t) && RegisterCount(t) > 1 && |raw| == RegisterCount(t) && 0 <= ref.shift < 64
    ensures Decode(t, raw, ref) == Number(Extend(t, And(Down(Joined(Arranged(ref.wordOrder, raw)), ref.shift), ref.mask)))
  {
    hide UnpackInt, Joined, Arranged, Extend, And, Down;
    UnpackMeans(raw, ref.wordOrder);
  }

  /** What a datapoint of one register reads. */
  lemma DecodeOne(t: ScalarType, r: bv16, ref: PortRef)
    requires IsInteger(t) && RegisterCount(t) == 1 && 0 <= ref.shift < 64
    ensures Decode(t, [r], ref) == Number(Extend(t, And(Down(r as bv64, ref.shift), ref.mask)))
  {
    hide Extend, And, Down;
  }

  lemma BitSetUp(r: bv16, b: bv16)
    requires b < 16 && r & (1 << b) != 0
    ensures (r >> b) & 1 != 0
  {
  }

  lemma BitSetDown(r: bv16, b: bv16)
    requires b < 16 && (r >> b) & 1 != 0
    ensures r & (1 << b) != 0
  {
  }

  /** The bit of a register by number, bit 0 the least significant. */
  predicate BitAt(r: bv16, bit: int)
    requires 0 <= bit <= 15
  {
    (r >> (bit as bv16)) & 1 != 0
  }

  lemma BitAtIs(r: bv16, bit: int)
    requires 0 <= bit <= 15
    ensures AnyBit(r, BitOf(bit)) <==> BitAt(r, bit)
  {
    hide AnyBit, BitOf, BitAt;
    if AnyBit(r, BitOf(bit)) { BitFound(r, bit); }
    if BitAt(r, bit) { BitSelected(r, bit); }
  }

  lemma BitFound(r: bv16, bit: int)
    requires 0 <= bit <= 15 && AnyBit(r, BitOf(bit))
    ensures BitAt(r, bit)
  {
    BitSetUp(r, bit as bv16);
  }

  lemma BitSelected(r: bv16, bit: int)
    requires 0 <= bit <= 15 && BitAt(r, bit)
    ensures AnyBit(r, BitOf(bit))
  {
    BitSetDown(r, bit as bv16);
  }

  /** A Bool reads its bit. */
  lemma BoolMeans(r: bv16, ref: PortRef)
    requires 0 <= TheBit(ref) <= 15
    ensures Decode(Bool, [r], ref) == Truth(BitAt(r, TheBit(ref)))
  {
    hide AnyBit, BitOf, BitAt;
    BitAtIs(r, TheBit(ref));
  }
}
