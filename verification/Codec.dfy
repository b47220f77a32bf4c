/**
 Integer codecs over 16-bit registers: byte order permutations, shift, mask and
 range rejection. A signed value is its 64-bit two's complement pattern. Scaling
 is not part of the model: scale is 1 and offset is 0.
 */
module Codec {
  import opened Options

  datatype ScalarType = Bool | U16 | S16 | U32 | S32 | F32 | U64 | S64 | F64 | EnumU16 | Text

  datatype WordOrder = ABCD | CDAB | BADC | DCBA

  datatype PortRef = PortRef(bit: Option<int>, wordOrder: WordOrder, shift: int, mask: bv64)

  function RegisterCount(t: ScalarType): nat
  {
    match t
    case Bool | U16 | S16 | EnumU16 => 1
    case U32 | S32 | F32 => 2
    case U64 | S64 | F64 => 4
    case Text => 0
  }

  function Permutation(w: WordOrder, byteCount: nat): (p: seq<nat>)
    ensures |p| == 8 && forall i :: 0 <= i < 8 ==> p[i] < 8
  {
    if byteCount == 4 then
      match w
      case ABCD => [0, 1, 2, 3, 0, 0, 0, 0]
      case CDAB => [2, 3, 0, 1, 0, 0, 0, 0]
      case BADC => [1, 0, 3, 2, 0, 0, 0, 0]
      case DCBA => [3, 2, 1, 0, 0, 0, 0, 0]
    else if byteCount == 8 then
      match w
      case ABCD => [0, 1, 2, 3, 4, 5, 6, 7]
      case CDAB => [6, 7, 4, 5, 2, 3, 0, 1]
      case BADC => [1, 0, 3, 2, 5, 4, 7, 6]
      case DCBA => [7, 6, 5, 4, 3, 2, 1, 0]
    else [0, 0, 0, 0, 0, 0, 0, 0]
  }

  // ---------------------------------------------------------------- bytes

  function Low(v: bv64): bv8
  {
    (v & 0xFF) as bv8
  }

  function Cat(v: bv64, b: bv8): bv64
  {
    (v << 8) | (b as bv64)
  }

  function Shr8(v: bv64): bv64
  {
    v >> 8
  }

  /** The value shifted down by `k` bytes. */
  function ShrBytes(v: bv64, k: nat): bv64
  {
    if k == 0 then v else ShrBytes(Shr8(v), k - 1)
  }

  /** The low `n` bytes of a value, most significant first. */
  function Bytes(v: bv64, n: nat): (r: seq<bv8>)
    ensures |r| == n
  {
    if n == 0 then [] else Bytes(Shr8(v), n - 1) + [Low(v)]
  }

  /** The value of bytes, most significant first. */
  function Value(bytes: seq<bv8>): bv64
  {
    if bytes == [] then 0 else Cat(Value(bytes[..|bytes| - 1]), bytes[|bytes| - 1])
  }

  /** Registers hold two bytes each, high byte first. */
  function RegisterBytes(regs: seq<bv16>): (r: seq<bv8>)
    ensures |r| == 2 * |regs|
  {
    if regs == [] then []
    else RegisterBytes(regs[..|regs| - 1]) + [HighByte(regs[|regs| - 1]), LowByte(regs[|regs| - 1])]
  }

  function HighByte(r: bv16): bv8 { (r >> 8) as bv8 }

  function LowByte(r: bv16): bv8 { (r & 0xFF) as bv8 }

  function Register(high: bv8, low: bv8): bv16 { ((high as bv16) << 8) | (low as bv16) }

  function Registers(bytes: seq<bv8>): (r: seq<bv16>)
    requires |bytes| % 2 == 0
    ensures |r| == |bytes| / 2
  {
    if bytes == [] then []
    else
      var n := |bytes|;
      Registers(bytes[..n - 2]) + [Register(bytes[n - 2], bytes[n - 1])]
  }

  /** `Reorder(b, p)[i]` is `b[p[i]]`. */
  function Reorder(bytes: seq<bv8>, p: seq<nat>): (r: seq<bv8>)
    requires |bytes| <= |p| && forall i :: 0 <= i < |bytes| ==> p[i] < |bytes|
    ensures |r| == |bytes|
  {
    seq(|bytes|, i requires 0 <= i < |bytes| => bytes[p[i]])
  }

  predicate Packable(regCount: nat)
  {
    regCount == 1 || regCount == 2 || regCount == 4
  }

  lemma PermutationBelow(w: WordOrder, n: nat)
    requires n == 4 || n == 8
    ensures forall i :: 0 <= i < n ==> Permutation(w, n)[i] < n
  {
  }

  /** Every byte order undoes itself. */
  lemma PermutationInvolutive(w: WordOrder, n: nat, i: nat)
    requires (n == 4 || n == 8) && i < n
    ensures var p := Permutation(w, n); p[i] < n && p[p[i]] == i
  {
  }

  function Wide(r: bv16): bv64 { r as bv64 }

  function Narrow(v: bv64): bv16 { (v & 0xFFFF) as bv16 }

  function UnpackInt(raw: seq<bv16>, regCount: nat, w: WordOrder): bv64
    requires Packable(regCount) && |raw| >= regCount
  {
    if regCount == 1 then Wide(raw[0])
    else
      PermutationBelow(w, 2 * regCount);
      Value(Reorder(RegisterBytes(raw[..regCount]), Permutation(w, 2 * regCount)))
  }

  function PackInt(v: bv64, regCount: nat, w: WordOrder): (r: seq<bv16>)
    requires Packable(regCount)
    ensures |r| == regCount
  {
    if regCount == 1 then [Narrow(v)]
    else
      PermutationBelow(w, 2 * regCount);
      Registers(Reorder(Bytes(v, 2 * regCount), Permutation(w, 2 * regCount)))
  }

  // ---------------------------------------------------------------- the loops

  lemma NestedShifts(v: bv64)
    ensures Shr8(v) == v >> 8 && Shr8(Shr8(v)) == v >> 16 && Shr8(Shr8(Shr8(v))) == v >> 24
    ensures Shr8(Shr8(Shr8(Shr8(v)))) == v >> 32 && Shr8(Shr8(Shr8(Shr8(Shr8(v))))) == v >> 40
    ensures Shr8(Shr8(Shr8(Shr8(Shr8(Shr8(v)))))) == v >> 48
    ensures Shr8(Shr8(Shr8(Shr8(Shr8(Shr8(Shr8(v))))))) == v >> 56
  {
  }

  lemma {:induction false} ShrBytesSnoc(v: bv64, k: nat)
    ensures ShrBytes(v, k + 1) == Shr8(ShrBytes(v, k))
    decreases k
  {
    hide Shr8;
    if k > 0 {
      ShrBytesSnoc(Shr8(v), k - 1);
    }
  }

  /** Shifting by bytes is the shift by eight bits each. */
  lemma ShiftByBytes(v: bv64, k: nat)
    requires k < 8
    ensures ShrBytes(v, k) == if k == 0 then v else if k == 1 then v >> 8 else if k == 2 then v >> 16
                              else if k == 3 then v >> 24 else if k == 4 then v >> 32
                              else if k == 5 then v >> 40 else if k == 6 then v >> 48 else v >> 56
  {
    NestedShifts(v);
    hide Shr8;
    assert ShrBytes(v, 0) == v;
    hide ShrBytes;
    ShrBytesSnoc(v, 0);
    ShrBytesSnoc(v, 1);
    ShrBytesSnoc(v, 2);
    ShrBytesSnoc(v, 3);
    ShrBytesSnoc(v, 4);
    ShrBytesSnoc(v, 5);
    ShrBytesSnoc(v, 6);
  }

  /** Byte `i` of `n` is the value shifted down by the bytes after it. */
  lemma {:induction false} ByteByShift(v: bv64, n: nat, i: nat)
    requires i < n <= 8
    ensures Bytes(v, n)[i] == Low(ShrBytes(v, n - 1 - i))
    decreases n
  {
    hide Low, Shr8;
    if i < n - 1 {
      ByteByShift(Shr8(v), n - 1, i);
    }
  }

  method UnpackIntLoop(raw: seq<bv16>, regCount: nat, w: WordOrder) returns (result: bv64)
    requires Packable(regCount) && |raw| >= regCount
    ensures result == UnpackInt(raw, regCount, w)
  {
    hide Cat, HighByte, LowByte;
    if regCount == 1 { return Wide(raw[0]); }
    var byteCount := regCount * 2;
    var network: seq<bv8> := [];
    var i := 0;
    while i < regCount
      invariant 0 <= i <= regCount && network == RegisterBytes(raw[..i])
    {
      assert raw[..i + 1][..i] == raw[..i];
      network := network + [HighByte(raw[i]), LowByte(raw[i])];
      i := i + 1;
    }
    var perm := Permutation(w, byteCount);
    PermutationBelow(w, byteCount);
    ghost var bytes := Reorder(network, perm);
    result := 0;
    i := 0;
    while i < byteCount
      invariant 0 <= i <= byteCount && result == Value(bytes[..i])
    {
      assert bytes[..i + 1][..i] == bytes[..i];
      result := Cat(result, network[perm[i]]);
      i := i + 1;
    }
    assert bytes[..byteCount] == bytes;
  }

  method SplitLoop(v: bv64, byteCount: nat) returns (result: array<bv8>)
    requires byteCount <= 8
    ensures fresh(result) && result.Length == 8 && result[..byteCount] == Bytes(v, byteCount)
  {
    hide Low, ShrBytes, Bytes;
    ghost var bytes := Bytes(v, byteCount);
    result := new bv8[8](i => 0);
    var i := 0;
    while i < byteCount
      invariant 0 <= i <= byteCount && result[..i] == bytes[..i]
    {
      ByteByShift(v, byteCount, i);
      result[i] := Low(ShrBytes(v, byteCount - 1 - i));
      i := i + 1;
    }
    assert bytes[..byteCount] == bytes;
  }

  /** Put byte `i` at position `perm[i]`. */
  method ScatterLoop(bytes: seq<bv8>, w: WordOrder) returns (network: array<bv8>)
    requires |bytes| == 4 || |bytes| == 8
    requires var p := Permutation(w, |bytes|); forall i :: 0 <= i < |bytes| ==> p[i] < |bytes|
    ensures fresh(network) && network.Length == 8
    ensures network[..|bytes|] == Reorder(bytes, Permutation(w, |bytes|))
  {
    var n := |bytes|;
    var perm := Permutation(w, n);
    forall k | 0 <= k < n ensures perm[perm[k]] == k { PermutationInvolutive(w, n, k); }
    hide Permutation;
    network := new bv8[8](i => 0);
    var i := 0;
    while i < n
      invariant 0 <= i <= n
      invariant forall k :: 0 <= k < i ==> network[perm[k]] == bytes[k]
    {
      forall k | 0 <= k < i ensures perm[k] != perm[i] {
        assert perm[perm[k]] == k && perm[perm[i]] == i;
      }
      network[perm[i]] := bytes[i];
      i := i + 1;
    }
    forall j | 0 <= j < n ensures network[j] == bytes[perm[j]] {
      assert perm[perm[j]] == j && perm[j] < n;
    }
  }

  method JoinLoop(network: seq<bv8>) returns (out: seq<bv16>)
    requires |network| % 2 == 0
    ensures out == Registers(network)
  {
    hide Register;
    out := [];
    var i := 0;
    while 2 * i < |network|
      invariant 0 <= 2 * i <= |network| && out == Registers(network[..2 * i])
    {
      assert network[..2 * (i + 1)][..2 * i] == network[..2 * i];
      out := out + [Register(network[2 * i], network[2 * i + 1])];
      i := i + 1;
    }
    assert network[..2 * i] == network;
  }

  method PackIntLoop(v: bv64, regCount: nat, w: WordOrder) returns (out: seq<bv16>)
    requires Packable(regCount)
    ensures out == PackInt(v, regCount, w)
  {
    hide Bytes, Registers;
    if regCount == 1 { return [Narrow(v)]; }
    var byteCount := regCount * 2;
    PermutationBelow(w, byteCount);
    var result := SplitLoop(v, byteCount);
    var network := ScatterLoop(result[..byteCount], w);
    out := JoinLoop(network[..byteCount]);
  }

  // ---------------------------------------------------------------- pack and unpack are inverse

  function Limit(regCount: nat): bv64
  {
    if regCount == 1 then 0xFFFF else if regCount == 2 then 0xFFFF_FFFF else 0xFFFF_FFFF_FFFF_FFFF
  }

  lemma CatLow(v: bv64)
    ensures Cat(Shr8(v), Low(v)) == v
  {
  }

  lemma LowCat(v: bv64, b: bv8)
    ensures Low(Cat(v, b)) == b
    ensures v <= 0xFF_FFFF_FFFF_FFFF ==> Shr8(Cat(v, b)) == v
  {
  }

  lemma SplitJoin(r: bv16)
    ensures Register(HighByte(r), LowByte(r)) == r
  {
  }

  lemma JoinSplit(high: bv8, low: bv8)
    ensures HighByte(Register(high, low)) == high && LowByte(Register(high, low)) == low
  {
  }

  /** The value has no bits above its low `n` bytes. */
  predicate Fits(v: bv64, n: nat)
  {
    if n == 0 then v == 0 else Fits(Shr8(v), n - 1)
  }

  lemma {:induction false} FitsMore(v: bv64, n: nat, m: nat)
    requires Fits(v, n) && n <= m
    ensures Fits(v, m)
    decreases n, m
  {
    if n > 0 {
      FitsMore(Shr8(v), n - 1, m - 1);
    } else if m > 0 {
      assert Shr8(0) == 0;
      FitsMore(Shr8(v), 0, m - 1);
    }
  }

  lemma FitsSeven(v: bv64)
    requires Fits(v, 7)
    ensures v <= 0xFF_FFFF_FFFF_FFFF
  {
    SevenBytes(v);
    hide Shr8;
    var v3 := Shr8(Shr8(Shr8(v)));
    var v5 := Shr8(Shr8(v3));
    assert Fits(v, 7) == Fits(Shr8(v), 6) && Fits(Shr8(v), 6) == Fits(v3, 4);
    assert Fits(v3, 4) == Fits(v5, 2) && Fits(v5, 2) == Fits(Shr8(Shr8(v5)), 0);
  }

  lemma SevenBytes(v: bv64)
    ensures Shr8(Shr8(Shr8(Shr8(Shr8(Shr8(Shr8(v))))))) == 0 <==> v <= 0xFF_FFFF_FFFF_FFFF
    ensures Shr8(Shr8(Shr8(Shr8(v)))) == 0 <==> v <= 0xFFFF_FFFF
    ensures Shr8(Shr8(Shr8(Shr8(Shr8(Shr8(Shr8(Shr8(v)))))))) == 0
  {
  }

  /** A value up to the limit of two or four registers fits their bytes, and the other way round. */
  lemma FitsLimit(v: bv64)
    ensures Fits(v, 4) <==> v <= 0xFFFF_FFFF
    ensures Fits(v, 8)
  {
    SevenBytes(v);
    hide Shr8;
    var v2 := Shr8(Shr8(v));
    var v4 := Shr8(Shr8(v2));
    var v6 := Shr8(Shr8(v4));
    assert Fits(v, 4) == Fits(v2, 2) && Fits(v2, 2) == Fits(v4, 0);
    assert Fits(v, 8) == Fits(v2, 6) && Fits(v2, 6) == Fits(v4, 4) && Fits(v4, 4) == Fits(v6, 2);
    assert Fits(v6, 2) == Fits(Shr8(Shr8(v6)), 0);
  }

  lemma {:induction false} ValueOfBytes(v: bv64, n: nat)
    requires Fits(v, n)
    ensures Value(Bytes(v, n)) == v
    decreases n
  {
    hide Cat, Low, Shr8;
    if n > 0 {
      ValueOfBytes(Shr8(v), n - 1);
      assert Bytes(v, n)[..n - 1] == Bytes(Shr8(v), n - 1);
      CatLow(v);
    }
  }

  lemma {:induction false} BytesOfValue(bytes: seq<bv8>)
    requires |bytes| <= 8
    ensures Fits(Value(bytes), |bytes|)
    ensures Bytes(Value(bytes), |bytes|) == bytes
    decreases |bytes|
  {
    hide Cat, Low, Shr8;
    if bytes != [] {
      var n := |bytes| - 1;
      var front, b := bytes[..n], bytes[n];
      BytesOfValue(front);
      UnCat(Value(front), n, b);
      assert bytes == front + [b];
    }
  }

  lemma UnCat(v: bv64, n: nat, b: bv8)
    requires Fits(v, n) && n <= 7
    ensures Low(Cat(v, b)) == b && Shr8(Cat(v, b)) == v
  {
    FitsMore(v, n, 7);
    FitsSeven(v);
    LowCat(v, b);
  }

  lemma {:induction false} RegistersOfBytes(regs: seq<bv16>)
    ensures Registers(RegisterBytes(regs)) == regs
    decreases |regs|
  {
    if regs == [] {
      assert Registers([]) == [];
    } else {
      hide Register, HighByte, LowByte, RegisterBytes, Registers;
      var n := |regs| - 1;
      var front, r := regs[..n], regs[n];
      assert regs == front + [r];
      RegistersOfBytes(front);
      RegisterBytesSnoc(front, r);
      RegistersSnoc(RegisterBytes(front), HighByte(r), LowByte(r));
      SplitJoin(r);
    }
  }

  lemma RegisterBytesSnoc(front: seq<bv16>, r: bv16)
    ensures RegisterBytes(front + [r]) == RegisterBytes(front) + [HighByte(r), LowByte(r)]
  {
    hide HighByte, LowByte;
    assert (front + [r])[..|front|] == front;
  }

  lemma RegistersSnoc(front: seq<bv8>, high: bv8, low: bv8)
    requires |front| % 2 == 0
    ensures Registers(front + [high, low]) == Registers(front) + [Register(high, low)]
  {
    hide Register;
    assert (front + [high, low])[..|front|] == front;
  }

  lemma {:induction false} BytesOfRegisters(bytes: seq<bv8>)
    requires |bytes| % 2 == 0
    ensures RegisterBytes(Registers(bytes)) == bytes
    decreases |bytes|
  {
    if bytes == [] {
      assert RegisterBytes([]) == [];
    } else {
      hide Register, HighByte, LowByte, RegisterBytes, Registers;
      var n := |bytes|;
      var front, high, low := bytes[..n - 2], bytes[n - 2], bytes[n - 1];
      assert bytes == front + [high, low];
      BytesOfRegisters(front);
      RegistersSnoc(front, high, low);
      RegisterBytesSnoc(Registers(front), Register(high, low));
      JoinSplit(high, low);
    }
  }

  lemma ReorderTwice(bytes: seq<bv8>, w: WordOrder)
    requires |bytes| == 4 || |bytes| == 8
    requires var p := Permutation(w, |bytes|); forall i :: 0 <= i < |bytes| ==> p[i] < |bytes|
    ensures var p := Permutation(w, |bytes|); Reorder(Reorder(bytes, p), p) == bytes
  {
    forall i | 0 <= i < |bytes| ensures var p := Permutation(w, |bytes|); p[p[i]] == i {
      PermutationInvolutive(w, |bytes|, i);
    }
  }

  lemma OneRegister(v: bv64, r: bv16)
    ensures v <= 0xFFFF ==> Wide(Narrow(v)) == v
    ensures Narrow(Wide(r)) == r && Wide(r) <= 0xFFFF
  {
  }

  /** Unpacking undoes packing for every value that fits, in every word order. */
  lemma UnpackPack(v: bv64, regCount: nat, w: WordOrder)
    requires Packable(regCount) && v <= Limit(regCount)
    ensures UnpackInt(PackInt(v, regCount, w), regCount, w) == v
  {
    OneRegister(v, 0);
    hide Cat, Low, Register, HighByte, LowByte, Value, Bytes, Fits, RegisterBytes, Registers, Shr8;
    if regCount != 1 {
      var n := 2 * regCount;
      PermutationBelow(w, n);
      FitsLimit(v);
      var out := PackInt(v, regCount, w);
      assert out[..regCount] == out;
      BytesOfRegisters(Reorder(Bytes(v, n), Permutation(w, n)));
      ReorderTwice(Bytes(v, n), w);
      ValueOfBytes(v, n);
    }
  }

  lemma UnpackFits(raw: seq<bv16>, regCount: nat, w: WordOrder)
    requires Packable(regCount) && |raw| >= regCount
    ensures UnpackInt(raw, regCount, w) <= Limit(regCount)
  {
    OneRegister(0, raw[0]);
    if regCount != 1 {
      PermutationBelow(w, 2 * regCount);
      BytesOfValue(Reorder(RegisterBytes(raw[..regCount]), Permutation(w, 2 * regCount)));
      FitsLimit(UnpackInt(raw, regCount, w));
      hide Value, RegisterBytes, Permutation, Reorder, Fits;
    }
  }

  /** Packing undoes unpacking. */
  lemma PackUnpack(raw: seq<bv16>, regCount: nat, w: WordOrder)
    requires Packable(regCount) && |raw| >= regCount
    ensures PackInt(UnpackInt(raw, regCount, w), regCount, w) == raw[..regCount]
  {
    OneRegister(0, raw[0]);
    hide Value, Bytes, Fits, RegisterBytes, Registers;
    if regCount != 1 {
      var n := 2 * regCount;
      PermutationBelow(w, n);
      var network := RegisterBytes(raw[..regCount]);
      BytesOfValue(Reorder(network, Permutation(w, n)));
      ReorderTwice(network, w);
      RegistersOfBytes(raw[..regCount]);
    }
  }
}
