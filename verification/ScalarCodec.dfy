/**
 Encoding and decoding of integer and Bool datapoints. An integer, signed or not,
 is carried as its 64-bit two's complement pattern. An empty register list is a
 refusal.
 */
module ScalarCodec {
  import opened Codec
  import opened Options

  /** What a caller hands in and gets back: nothing usable, a whole number or a truth value. */
  datatype Variant = Null | Number(bits: bv64) | Truth(b: bool)

  function ToInteger(v: Variant): Option<bv64>
  {
    match v
    case Null => None
    case Number(bits) => Some(bits)
    case Truth(b) => Some(if b then 1 else 0)
  }

  function ToBool(v: Variant): bool
  {
    match v
    case Null => false
    case Number(bits) => bits != 0
    case Truth(b) => b
  }

  predicate IsInteger(t: ScalarType)
  {
    t.U16? || t.S16? || t.U32? || t.S32? || t.U64? || t.S64? || t.EnumU16?
  }

  predicate Signed(t: ScalarType)
  {
    t.S16? || t.S32? || t.S64?
  }

  predicate Negative(bits: bv64)
  {
    bits >= 0x8000_0000_0000_0000
  }

  /** The pattern is a number that the type can hold. */
  predicate InRange(t: ScalarType, bits: bv64)
  {
    match t
    case S16 => bits <= 0x7FFF || bits >= 0xFFFF_FFFF_FFFF_8000
    case S32 => bits <= 0x7FFF_FFFF || bits >= 0xFFFF_FFFF_8000_0000
    case U16 | EnumU16 => bits <= 0xFFFF
    case U32 => bits <= 0xFFFF_FFFF
    case _ => true
  }

  function SignExtend16(x: bv64): bv64
  {
    if x & 0x8000 != 0 then x | 0xFFFF_FFFF_FFFF_0000 else x & 0xFFFF
  }

  function SignExtend32(x: bv64): bv64
  {
    if x & 0x8000_0000 != 0 then x | 0xFFFF_FFFF_0000_0000 else x & 0xFFFF_FFFF
  }

  /** Read the low bits of a pattern as a number of the type. */
  function Extend(t: ScalarType, x: bv64): bv64
  {
    match t
    case S16 => SignExtend16(x)
    case S32 => SignExtend32(x)
    case U16 | EnumU16 => And(x, 0xFFFF)
    case U32 => And(x, 0xFFFF_FFFF)
    case _ => x
  }

  predicate AtMost(a: bv64, b: bv64) { a <= b }

  /** All bits of the first are bits of the second. */
  predicate Within(a: bv64, b: bv64) { a & !b == 0 }

  /** A run of ones from bit 0 up. */
  predicate Ones(a: bv64) { a & (a + 1) == 0 }

  function Shl1(v: bv64): bv64 { v << 1 }

  function Shr1(v: bv64): bv64 { v >> 1 }

  /** The 64-bit shift, a bit at a time. */
  function Up(v: bv64, shift: nat): bv64
    decreases shift
  {
    if shift == 0 then v else Up(Shl1(v), shift - 1)
  }

  function Down(v: bv64, shift: nat): bv64
    decreases shift
  {
    if shift == 0 then v else Down(Shr1(v), shift - 1)
  }

  function And(a: bv64, b: bv64): bv64 { a & b }

  function AndNot(a: bv64, b: bv64): bv64 { a & !b }

  function BitOf(bit: int): bv16
    requires 0 <= bit <= 15
  {
    1 << (bit as bv16)
  }

  predicate AnyBit(r: bv16, bits: bv16) { r & bits != 0 }

  function TheBit(ref: PortRef): int
  {
    if ref.bit.Some? then ref.bit.value else 0
  }

  function Decode(t: ScalarType, raw: seq<bv16>, ref: PortRef): Variant
    requires IsInteger(t) || t.Bool?
  {
    var rc := RegisterCount(t);
    if |raw| < rc then Null
    else if t.Bool? then
      if TheBit(ref) < 0 || TheBit(ref) > 15 then Null
      else Truth(AnyBit(raw[0], BitOf(TheBit(ref))))
    else if ref.shift < 0 || ref.shift >= 64 then Null
    else Number(Extend(t, And(Down(UnpackInt(raw, rc, ref.wordOrder), ref.shift), ref.mask)))
  }

  function Encode(t: ScalarType, v: Variant, ref: PortRef): seq<bv16>
    requires IsInteger(t) || t.Bool?
  {
    var rc := RegisterCount(t);
    if t.Bool? then
      if TheBit(ref) < 0 || TheBit(ref) > 15 then []
      else if ToBool(v) then [BitOf(TheBit(ref))] else [0]
    else if ref.shift < 0 || ref.shift >= 64 then []
    else if ToInteger(v).None? then []
    else
      var bits := ToInteger(v).value;
      if !InRange(t, bits) then []
      else if !(Signed(t) && Negative(bits)) && AndNot(bits, ref.mask) != 0 then []
      else
        var masked := And(And(bits, Limit(rc)), ref.mask);
        if !AtMost(masked, Down(Limit(rc), ref.shift)) then []
        else PackInt(Up(masked, ref.shift), rc, ref.wordOrder)
  }

  /** The masked, shifted window of the register value that an integer field occupies. */
  function Projected(u: bv64, ref: PortRef): bv64
    requires 0 <= ref.shift < 64
  {
    And(u, Up(ref.mask, ref.shift))
  }

  /** No bit of the type's width is lost under the mask. */
  predicate MaskKeeps(t: ScalarType, bits: bv64, ref: PortRef)
  {
    AndNot(And(bits, Limit(RegisterCount(t))), ref.mask) == 0
  }

  // ---------------------------------------------------------------- bit lemmas

  // The machine shifts by a variable amount.

  function Left(v: bv64, s: bv64): bv64
    requires s < 64
  {
    v << s
  }

  function Right(v: bv64, s: bv64): bv64
    requires s < 64
  {
    v >> s
  }

  lemma MachineLeftLow(v: bv64, s: bv64)
    requires 0 < s < 16
    ensures (v << 1) << (s - 1) == v << s
  {
  }

  lemma MachineLeftMiddle(v: bv64, s: bv64)
    requires 16 <= s < 32
    ensures (v << 1) << (s - 1) == v << s
  {
  }

  lemma MachineLeftHigh(v: bv64, s: bv64)
    requires 32 <= s < 64
    ensures (v << 1) << (s - 1) == v << s
  {
  }

  lemma MachineLeft(v: bv64, s: bv64)
    requires 0 < s < 64
    ensures (v << 1) << (s - 1) == v << s
  {
    if s < 16 {
      MachineLeftLow(v, s);
    } else if s < 32 {
      MachineLeftMiddle(v, s);
    } else {
      MachineLeftHigh(v, s);
    }
  }

  lemma MachineRightLow(v: bv64, s: bv64)
    requires 0 < s < 16
    ensures (v >> 1) >> (s - 1) == v >> s
  {
  }

  lemma MachineRightMiddle(v: bv64, s: bv64)
    requires 16 <= s < 32
    ensures (v >> 1) >> (s - 1) == v >> s
  {
  }

  lemma MachineRightHigh(v: bv64, s: bv64)
    requires 32 <= s < 64
    ensures (v >> 1) >> (s - 1) == v >> s
  {
  }

  lemma MachineRight(v: bv64, s: bv64)
    requires 0 < s < 64
    ensures (v >> 1) >> (s - 1) == v >> s
  {
    if s < 16 {
      MachineRightLow(v, s);
    } else if s < 32 {
      MachineRightMiddle(v, s);
    } else {
      MachineRightHigh(v, s);
    }
  }

  lemma LeftStep(v: bv64, s: bv64)
    requires 0 < s < 64
    ensures Left(v << 1, s - 1) == Left(v, s)
  {
    MachineLeft(v, s);
  }

  lemma RightStep(v: bv64, s: bv64)
    requires 0 < s < 64
    ensures Right(v >> 1, s - 1) == Right(v, s)
  {
    MachineRight(v, s);
  }

  lemma LessOne(s: bv64)
    requires 0 < s < 64
    ensures (s - 1) as nat == (s as nat) - 1 && s - 1 < 64
  {
  }

  lemma ShiftNone(v: bv64)
    ensures Left(v, 0) == v && Right(v, 0) == v && (0 as bv64) as nat == 0
  {
  }

  lemma OneShift(v: bv64)
    ensures Shl1(v) == v << 1 && Shr1(v) == v >> 1
  {
  }

  /** Shifting up a bit at a time is the machine shift, for every amount below 64. */
  lemma {:induction false} UpIsShift(v: bv64, s: bv64)
    requires s < 64
    ensures Up(v, s as nat) == Left(v, s)
    decreases s as nat
  {
    hide Left, Shl1;
    if s == 0 {
      ShiftNone(v);
    } else {
      LessOne(s);
      LeftStep(v, s);
      OneShift(v);
      UpIsShift(v << 1, s - 1);
    }
  }

  /** Shifting down a bit at a time is the machine shift, for every amount below 64. */
  lemma {:induction false} DownIsShift(v: bv64, s: bv64)
    requires s < 64
    ensures Down(v, s as nat) == Right(v, s)
    decreases s as nat
  {
    hide Right, Shr1;
    if s == 0 {
      ShiftNone(v);
    } else {
      LessOne(s);
      RightStep(v, s);
      OneShift(v);
      DownIsShift(v >> 1, s - 1);
    }
  }

  lemma {:induction false} DownSnoc(v: bv64, k: nat)
    ensures Down(v, k + 1) == Shr1(Down(v, k))
    decreases k
  {
    hide Shr1;
    if k > 0 {
      DownSnoc(Shr1(v), k - 1);
    }
  }

  lemma {:induction false} UpSnoc(v: bv64, k: nat)
    ensures Up(v, k + 1) == Shl1(Up(v, k))
    decreases k
  {
    hide Shl1;
    if k > 0 {
      UpSnoc(Shl1(v), k - 1);
    }
  }

  lemma OneUpDown(x: bv64, limit: bv64)
    requires Within(x, Shr1(limit))
    ensures Within(Shl1(x), limit) && Shr1(Shl1(x)) == x
  {
  }

  lemma OneDownUp(u: bv64, m: bv64)
    ensures Shl1(And(Shr1(u), m)) == And(u, Shl1(m))
  {
  }

  lemma OneBelow(u: bv64, limit: bv64)
    requires Within(u, limit)
    ensures Within(Shr1(u), Shr1(limit))
  {
  }

  lemma OneOnes(limit: bv64)
    requires Ones(limit)
    ensures Ones(Shr1(limit))
  {
  }

  lemma OneWider(x: bv64, limit: bv64)
    requires Ones(limit) && Within(x, Shr1(limit))
    ensures Within(x, limit)
  {
  }

  lemma WithinTrans(a: bv64, b: bv64, c: bv64)
    requires Within(a, b) && Within(b, c)
    ensures Within(a, c)
  {
  }

  lemma AndWithin(x: bv64, m: bv64, limit: bv64)
    requires Within(x, limit)
    ensures Within(And(x, m), limit)
  {
  }

  lemma WithinAtMost(x: bv64, limit: bv64)
    requires Within(x, limit)
    ensures x <= limit
  {
  }

  lemma AtMostWithin(x: bv64, limit: bv64)
    requires Ones(limit) && x <= limit
    ensures Within(x, limit)
  {
  }

  /** Below a run of ones, being at most it and having no other bit are the same. */
  lemma WithinIffAtMost(x: bv64, limit: bv64)
    requires Ones(limit)
    ensures Within(x, limit) <==> AtMost(x, limit)
  {
    if Within(x, limit) {
      WithinAtMost(x, limit);
    }
    if AtMost(x, limit) {
      AtMostWithin(x, limit);
    }
    hide Within, Ones;
  }

  lemma LimitOnes(regCount: nat)
    ensures Ones(Limit(regCount))
  {
  }

  lemma MaskTwice(x: bv64, m: bv64)
    ensures And(And(x, m), m) == And(x, m) && AndNot(And(x, m), m) == 0
    ensures And(x, m) == x <==> AndNot(x, m) == 0
  {
  }

  lemma Patterns16(bits: bv64, x: bv64)
    requires x <= 0xFFFF
    ensures x | 0xFFFF_FFFF_FFFF_0000 == bits ==> x == bits & 0xFFFF
    ensures x & 0xFFFF == bits ==> x == bits & 0xFFFF
  {
  }

  lemma LowPattern16(bits: bv64)
    requires bits <= 0x7FFF || bits >= 0xFFFF_FFFF_FFFF_8000
    ensures bits & 0xFFFF & 0x8000 != 0 ==> (bits & 0xFFFF) | 0xFFFF_FFFF_FFFF_0000 == bits
    ensures bits & 0xFFFF & 0x8000 == 0 ==> bits & 0xFFFF & 0xFFFF == bits
  {
  }

  lemma ExtendOf16(bits: bv64)
    requires bits <= 0x7FFF || bits >= 0xFFFF_FFFF_FFFF_8000
    ensures SignExtend16(And(bits, 0xFFFF)) == bits
  {
    LowPattern16(bits);
  }

  lemma LowOf16(bits: bv64, x: bv64)
    requires x <= 0xFFFF && (bits <= 0x7FFF || bits >= 0xFFFF_FFFF_FFFF_8000) && SignExtend16(x) == bits
    ensures x == And(bits, 0xFFFF)
  {
    Patterns16(bits, x);
  }

  lemma Extend16(bits: bv64, x: bv64)
    requires x <= 0xFFFF && (bits <= 0x7FFF || bits >= 0xFFFF_FFFF_FFFF_8000)
    ensures SignExtend16(x) == bits <==> x == And(bits, 0xFFFF)
  {
    hide And, SignExtend16;
    ExtendOf16(bits);
    if SignExtend16(x) == bits {
      LowOf16(bits, x);
    }
  }

  lemma Extended16(x: bv64)
    requires x <= 0xFFFF
    ensures SignExtend16(x) <= 0x7FFF || SignExtend16(x) >= 0xFFFF_FFFF_FFFF_8000
  {
  }

  lemma ExtendedSign16(x: bv64)
    requires x <= 0xFFFF
    ensures SignExtend16(x) >= 0x8000_0000_0000_0000 || SignExtend16(x) == x
  {
  }

  lemma Patterns32(bits: bv64, x: bv64)
    requires x <= 0xFFFF_FFFF
    ensures x | 0xFFFF_FFFF_0000_0000 == bits ==> x == bits & 0xFFFF_FFFF
    ensures x & 0xFFFF_FFFF == bits ==> x == bits & 0xFFFF_FFFF
  {
  }

  lemma LowPattern32(bits: bv64)
    requires bits <= 0x7FFF_FFFF || bits >= 0xFFFF_FFFF_8000_0000
    ensures bits & 0xFFFF_FFFF & 0x8000_0000 != 0 ==> (bits & 0xFFFF_FFFF) | 0xFFFF_FFFF_0000_0000 == bits
    ensures bits & 0xFFFF_FFFF & 0x8000_0000 == 0 ==> bits & 0xFFFF_FFFF & 0xFFFF_FFFF == bits
  {
  }

  lemma ExtendOf32(bits: bv64)
    requires bits <= 0x7FFF_FFFF || bits >= 0xFFFF_FFFF_8000_0000
    ensures SignExtend32(And(bits, 0xFFFF_FFFF)) == bits
  {
    LowPattern32(bits);
  }

  lemma LowOf32(bits: bv64, x: bv64)
    requires x <= 0xFFFF_FFFF && (bits <= 0x7FFF_FFFF || bits >= 0xFFFF_FFFF_8000_0000) && SignExtend32(x) == bits
    ensures x == And(bits, 0xFFFF_FFFF)
  {
    Patterns32(bits, x);
  }

  lemma Extend32(bits: bv64, x: bv64)
    requires x <= 0xFFFF_FFFF && (bits <= 0x7FFF_FFFF || bits >= 0xFFFF_FFFF_8000_0000)
    ensures SignExtend32(x) == bits <==> x == And(bits, 0xFFFF_FFFF)
  {
    hide And, SignExtend32;
    ExtendOf32(bits);
    if SignExtend32(x) == bits {
      LowOf32(bits, x);
    }
  }

  lemma Extended32(x: bv64)
    requires x <= 0xFFFF_FFFF
    ensures SignExtend32(x) <= 0x7FFF_FFFF || SignExtend32(x) >= 0xFFFF_FFFF_8000_0000
  {
  }

  lemma ExtendedSign32(x: bv64)
    requires x <= 0xFFFF_FFFF
    ensures SignExtend32(x) >= 0x8000_0000_0000_0000 || SignExtend32(x) == x
  {
  }

  lemma ExtendUnsigned(x: bv64)
    ensures x <= 0xFFFF ==> And(x, 0xFFFF) == x
    ensures x <= 0xFFFF_FFFF ==> And(x, 0xFFFF_FFFF) == x
    ensures And(x, 0xFFFF_FFFF_FFFF_FFFF) == x
  {
  }

  /** A number in range is the extension of its low bits, and of no other low bits. */
  lemma ExtendLow(t: ScalarType, bits: bv64, x: bv64)
    requires IsInteger(t) && InRange(t, bits) && AtMost(x, Limit(RegisterCount(t)))
    ensures Extend(t, x) == bits <==> x == And(bits, Limit(RegisterCount(t)))
  {
    ExtendUnsigned(x);
    ExtendUnsigned(bits);
    if t.S16? {
      Extend16(bits, x);
    } else if t.S32? {
      Extend32(bits, x);
    }
    hide And, SignExtend16, SignExtend32;
  }

  /** Extending keeps the low bits, gives a number in range, and adds bits only to a negative one. */
  lemma ExtendKeeps(t: ScalarType, x: bv64)
    requires IsInteger(t) && AtMost(x, Limit(RegisterCount(t)))
    ensures InRange(t, Extend(t, x)) && And(Extend(t, x), Limit(RegisterCount(t))) == x
    ensures (Signed(t) && Negative(Extend(t, x))) || Extend(t, x) == x
  {
    ExtendUnsigned(x);
    if t.S16? {
      Extended16(x);
      ExtendedSign16(x);
      Extend16(SignExtend16(x), x);
    } else if t.S32? {
      Extended32(x);
      ExtendedSign32(x);
      Extend32(SignExtend32(x), x);
    }
    hide And, SignExtend16, SignExtend32, Negative;
  }

  lemma UnsignedLow(t: ScalarType, bits: bv64)
    requires IsInteger(t) && InRange(t, bits) && !(Signed(t) && Negative(bits))
    ensures And(bits, Limit(RegisterCount(t))) == bits
  {
  }

  lemma BitLaws(bit: int)
    requires 0 <= bit <= 15
    ensures BitOf(bit) != 0 && AnyBit(BitOf(bit), BitOf(bit)) && !AnyBit(0, BitOf(bit))
  {
  }

  /** A value that leaves room for the shift survives it. */
  lemma {:induction false} UpDownLaw(x: bv64, shift: nat, limit: bv64)
    requires Within(x, Down(limit, shift))
    ensures Within(Up(x, shift), limit) && Down(Up(x, shift), shift) == x
    decreases shift
  {
    hide Shl1, Shr1, Within;
    if shift > 0 {
      DownSnoc(limit, shift - 1);
      OneUpDown(x, Down(limit, shift - 1));
      UpDownLaw(Shl1(x), shift - 1, limit);
      DownSnoc(Up(x, shift), shift - 1);
    }
  }

  /** Taking a field out and putting it back is masking in place. */
  lemma {:induction false} DownUpLaw(u: bv64, m: bv64, shift: nat)
    ensures Up(And(Down(u, shift), m), shift) == And(u, Up(m, shift))
    decreases shift
  {
    hide Shl1, Shr1, And;
    if shift > 0 {
      DownUpLaw(Shr1(u), m, shift - 1);
      UpSnoc(And(Down(u, shift), m), shift - 1);
      UpSnoc(m, shift - 1);
      OneDownUp(u, Up(m, shift - 1));
    }
  }

  lemma {:induction false} DownWithin(u: bv64, shift: nat, limit: bv64)
    requires Within(u, limit)
    ensures Within(Down(u, shift), Down(limit, shift))
    decreases shift
  {
    hide Shr1, Within;
    if shift > 0 {
      OneBelow(u, limit);
      DownWithin(Shr1(u), shift - 1, Shr1(limit));
    }
  }

  lemma {:induction false} DownOnes(limit: bv64, shift: nat)
    requires Ones(limit)
    ensures Ones(Down(limit, shift))
    decreases shift
  {
    hide Shr1, Ones;
    if shift > 0 {
      OneOnes(limit);
      DownOnes(Shr1(limit), shift - 1);
    }
  }

  lemma {:induction false} DownWider(x: bv64, shift: nat, limit: bv64)
    requires Ones(limit) && Within(x, Down(limit, shift))
    ensures Within(x, limit)
    decreases shift
  {
    hide Shr1, Within, Ones;
    if shift > 0 {
      OneOnes(limit);
      DownWider(x, shift - 1, Shr1(limit));
      OneWider(x, limit);
    }
  }

  // ---------------------------------------------------------------- round trips

  /**
   Decoding an accepted integer gives it back exactly when the mask loses no bit of
   the type's width, in every word order and for every shift.
   */
  lemma IntegerRoundTrip(t: ScalarType, v: Variant, ref: PortRef)
    requires IsInteger(t) && Encode(t, v, ref) != []
    ensures ToInteger(v).Some?
    ensures Decode(t, Encode(t, v, ref), ref) == Number(ToInteger(v).value)
            <==> MaskKeeps(t, ToInteger(v).value, ref)
  {
    hide Up, Down, And, AndNot, Extend, InRange, Negative, UnpackInt, PackInt, Limit, AtMost, Signed;
    var rc := RegisterCount(t);
    var bits := ToInteger(v).value;
    var low := And(bits, Limit(rc));
    var masked := And(low, ref.mask);
    ShiftedField(masked, ref, rc);
    MaskTwice(low, ref.mask);
    LowFits(bits, Limit(rc), ref.mask);
    ExtendLow(t, bits, masked);
  }

  /** An admissible field value is read back from the registers it was packed into. */
  lemma ShiftedField(masked: bv64, ref: PortRef, rc: nat)
    requires Packable(rc) && ref.shift >= 0 && AtMost(masked, Down(Limit(rc), ref.shift))
    ensures Down(UnpackInt(PackInt(Up(masked, ref.shift), rc, ref.wordOrder), rc, ref.wordOrder), ref.shift) == masked
  {
    hide Up, Down, UnpackInt, PackInt, Within, Ones, Limit;
    LimitOnes(rc);
    DownOnes(Limit(rc), ref.shift);
    WithinIffAtMost(masked, Down(Limit(rc), ref.shift));
    UpDownLaw(masked, ref.shift, Limit(rc));
    WithinAtMost(Up(masked, ref.shift), Limit(rc));
    UnpackPack(Up(masked, ref.shift), rc, ref.wordOrder);
  }

  lemma LowFits(bits: bv64, limit: bv64, m: bv64)
    ensures AtMost(And(And(bits, limit), m), limit)
  {
  }

  /** Unsigned types and non-negative numbers always come back. */
  lemma NonNegativeRoundTrip(t: ScalarType, v: Variant, ref: PortRef)
    requires IsInteger(t) && Encode(t, v, ref) != []
    requires !(Signed(t) && Negative(ToInteger(v).value))
    ensures Decode(t, Encode(t, v, ref), ref) == Number(ToInteger(v).value)
  {
    IntegerRoundTrip(t, v, ref);
    UnsignedLow(t, ToInteger(v).value);
    hide Up, Down, And, AndNot, Extend, UnpackInt, PackInt, Limit, InRange;
  }

  /** Every accepted number comes back when the mask covers the type's width. */
  lemma FullMaskRoundTrip(t: ScalarType, v: Variant, ref: PortRef)
    requires IsInteger(t) && Encode(t, v, ref) != []
    requires And(ref.mask, Limit(RegisterCount(t))) == Limit(RegisterCount(t))
    ensures Decode(t, Encode(t, v, ref), ref) == Number(ToInteger(v).value)
  {
    IntegerRoundTrip(t, v, ref);
    FullMaskKeeps(ToInteger(v).value, Limit(RegisterCount(t)), ref.mask);
    hide Up, Down, And, AndNot, Extend, UnpackInt, PackInt, Limit, InRange;
  }

  lemma FullMaskKeeps(bits: bv64, limit: bv64, m: bv64)
    requires And(m, limit) == limit
    ensures AndNot(And(bits, limit), m) == 0
  {
  }

  /** A negative number under a narrow mask is accepted and comes back as another number. */
  lemma NarrowMaskLosesSign()
    ensures var ref := PortRef(None, ABCD, 0, 0xFF);
            var v := Number(0xFFFF_FFFF_FFFF_FFFF);
            Encode(S16, v, ref) == [0x00FF] && Decode(S16, [0x00FF], ref) == Number(0xFF)
  {
    var ref := PortRef(None, ABCD, 0, 0xFF);
    assert And(And(0xFFFF_FFFF_FFFF_FFFF, Limit(1)), 0xFF) == 0xFF;
    hide Up, Down;
    assert Encode(S16, Number(0xFFFF_FFFF_FFFF_FFFF), ref) == PackInt(0xFF, 1, ABCD);
  }

  /**
   Encoding what was decoded is always accepted and gives the registers projected
   onto the field; it is refused exactly when decoding was.
   */
  lemma EncodeDecode(t: ScalarType, raw: seq<bv16>, ref: PortRef)
    requires IsInteger(t)
    ensures Decode(t, raw, ref) == Null <==> |raw| < RegisterCount(t) || ref.shift < 0 || ref.shift >= 64
    ensures Encode(t, Decode(t, raw, ref), ref)
            == if Decode(t, raw, ref) == Null then []
               else PackInt(Projected(UnpackInt(raw, RegisterCount(t), ref.wordOrder), ref),
                            RegisterCount(t), ref.wordOrder)
  {
    var rc := RegisterCount(t);
    hide Up, Down, And, AndNot, Extend, InRange, Negative, UnpackInt, PackInt, Limit, Within, Ones, AtMost;
    if |raw| >= rc && 0 <= ref.shift < 64 {
      var u := UnpackInt(raw, rc, ref.wordOrder);
      var x := And(Down(u, ref.shift), ref.mask);
      FieldFits(raw, ref, rc);
      DownUpLaw(u, ref.mask, ref.shift);
      ExtendKeeps(t, x);
      MaskTwice(Down(u, ref.shift), ref.mask);
    }
  }

  lemma UnpackWithin(raw: seq<bv16>, rc: nat, w: WordOrder)
    requires Packable(rc) && |raw| >= rc
    ensures Within(UnpackInt(raw, rc, w), Limit(rc))
  {
    hide UnpackInt, Within, Ones, Limit;
    UnpackFits(raw, rc, w);
    LimitOnes(rc);
    AtMostWithin(UnpackInt(raw, rc, w), Limit(rc));
  }

  lemma FieldFits(raw: seq<bv16>, ref: PortRef, rc: nat)
    requires Packable(rc) && |raw| >= rc && ref.shift >= 0
    ensures var x := And(Down(UnpackInt(raw, rc, ref.wordOrder), ref.shift), ref.mask);
            AtMost(x, Limit(rc)) && AtMost(x, Down(Limit(rc), ref.shift))
  {
    hide Up, Down, And, UnpackInt, Within, Ones, Limit, AtMost;
    var u := UnpackInt(raw, rc, ref.wordOrder);
    var d := Down(u, ref.shift);
    var room := Down(Limit(rc), ref.shift);
    LimitOnes(rc);
    DownOnes(Limit(rc), ref.shift);
    UnpackWithin(raw, rc, ref.wordOrder);
    DownWithin(u, ref.shift, Limit(rc));
    AndWithin(d, ref.mask, room);
    DownWider(And(d, ref.mask), ref.shift, Limit(rc));
    WithinIffAtMost(And(d, ref.mask), Limit(rc));
    WithinIffAtMost(And(d, ref.mask), room);
  }

  /** A Bool comes back through any bit. */
  lemma BoolRoundTrip(v: Variant, ref: PortRef)
    ensures Encode(Bool, v, ref) != [] <==> 0 <= TheBit(ref) <= 15
    ensures Encode(Bool, v, ref) != [] ==> Decode(Bool, Encode(Bool, v, ref), ref) == Truth(ToBool(v))
  {
    hide BitOf, AnyBit;
    if 0 <= TheBit(ref) <= 15 {
      BitLaws(TheBit(ref));
    }
  }

  /** Across types: a truth value is 1 or 0 as a number, a number is true unless it is zero, and nothing is no number and not true. */
  lemma VariantLaws(t: ScalarType, b: bool, bits: bv64, ref: PortRef)
    requires IsInteger(t)
    ensures Encode(t, Truth(b), ref) == Encode(t, Number(if b then 1 else 0), ref) && Encode(t, Null, ref) == []
    ensures Encode(Bool, Number(bits), ref) == Encode(Bool, Truth(bits != 0), ref)
    ensures Encode(Bool, Null, ref) == Encode(Bool, Truth(false), ref)
  {
    hide And, AndNot, AtMost, Up, Down, InRange, Negative, PackInt, BitOf, Limit;
  }

  /** Only the registers of the type are read. */
  lemma ExtraRegisters(t: ScalarType, raw: seq<bv16>, ref: PortRef)
    requires (IsInteger(t) || t.Bool?) && |raw| >= RegisterCount(t)
    ensures Decode(t, raw, ref) == Decode(t, raw[..RegisterCount(t)], ref)
  {
    var rc := RegisterCount(t);
    assert raw[..rc][..rc] == raw[..rc] && raw[..rc][0] == raw[0];
    hide And, Down, Extend, Value, Reorder, Permutation, RegisterBytes, BitOf, AnyBit;
  }
}
