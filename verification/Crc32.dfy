/** Iterated maps, over any type: the algebra that the shift register needs. */
module Iteration {

  function Iterate<T>(f: T -> T, x: T, n: nat): T {
    if n == 0 then x else f(Iterate(f, x, n - 1))
  }

  lemma {:induction false} Compose<T>(f: T -> T, x: T, m: nat, n: nat)
    ensures Iterate(f, Iterate(f, x, m), n) == Iterate(f, x, m + n)
  {
    if n == 0 {
    } else {
      Compose(f, x, m, n - 1);
    }
  }

  lemma Eight<T>(f: T -> T, x0: T, x1: T, x2: T, x3: T, x4: T, x5: T, x6: T, x7: T, x8: T)
    requires f(x0) == x1 && f(x1) == x2 && f(x2) == x3 && f(x3) == x4
    requires f(x4) == x5 && f(x5) == x6 && f(x6) == x7 && f(x7) == x8
    ensures Iterate(f, x0, 7) == x7 && Iterate(f, x0, 8) == x8
  {
    assert Iterate(f, x0, 2) == x2;
    assert Iterate(f, x0, 4) == x4;
    assert Iterate(f, x0, 6) == x6;
  }

  lemma {:induction false} Injective<T(!new)>(f: T -> T, x: T, y: T, n: nat)
    requires forall a, b :: f(a) == f(b) ==> a == b
    requires x != y
    ensures Iterate(f, x, n) != Iterate(f, y, n)
  {
    if n == 0 {
    } else {
      Injective(f, x, y, n - 1);
    }
  }

  lemma Interchange<T(!new)>(plus: (T, T) -> T, u: T, v: T, p: T, q: T)
    requires forall x, y, z :: plus(plus(x, y), z) == plus(x, plus(y, z))
    requires forall x, y :: plus(x, y) == plus(y, x)
    ensures plus(plus(u, v), plus(p, q)) == plus(plus(u, p), plus(v, q))
  {
    assert plus(v, plus(p, q)) == plus(p, plus(v, q));
  }

  function Fold<D, V>(join: (D, V) -> V, zero: V, digits: seq<D>): V {
    if digits == [] then zero else join(digits[0], Fold(join, zero, digits[1..]))
  }

  lemma {:induction false} FoldFits<D(!new), V(!new)>(
      join: (D, V) -> V, zero: V, fits: (V, nat) -> bool, digits: seq<D>, room: nat)
    requires fits(zero, 0) && |digits| <= room
    requires forall d, v, n: nat :: n < room && fits(v, n) ==> fits(join(d, v), n + 1)
    ensures fits(Fold(join, zero, digits), |digits|)
    decreases |digits|
  {
    if digits == [] {
    } else {
      FoldFits(join, zero, fits, digits[1..], room);
    }
  }

  /** Digits that can be told apart below a full word can be told apart in a word. */
  lemma {:induction false} FoldInjective<D(!new), V(!new)>(
      join: (D, V) -> V, zero: V, fits: (V, nat) -> bool, a: seq<D>, b: seq<D>, room: nat)
    requires fits(zero, 0) && |a| == |b| <= room
    requires forall d, v, n: nat :: n < room && fits(v, n) ==> fits(join(d, v), n + 1)
    requires forall d, e, v, w, n: nat ::
               n < room && fits(v, n) && fits(w, n) && join(d, v) == join(e, w) ==> d == e && v == w
    requires Fold(join, zero, a) == Fold(join, zero, b)
    ensures a == b
    decreases |a|
  {
    if a == [] {
    } else {
      FoldFits(join, zero, fits, a[1..], room);
      FoldFits(join, zero, fits, b[1..], room);
      FoldInjective(join, zero, fits, a[1..], b[1..], room);
      assert a == [a[0]] + a[1..] && b == [b[0]] + b[1..];
    }
  }
}

/** The two bitwise CRC-32 implementations of the firmware (RFC 1952, section 8).

    `Checksum` is the checksum as a function of the bytes; the loops of
    `host_crc32_le` and of `clock_model_retained_checksum` are methods proved
    equal to it.  The main result is `BitBurstChangesChecksum`: changing bits
    within 32 consecutive positions of a message, whatever its length, changes it. */
module Crc32 {
  import opened Iteration

  type byte = bv8

  function Xor(a: bv32, b: bv32): bv32 { a ^ b }

  function Half(crc: bv32): bv32 { crc >> 1 }

  /** The polynomial if a one is shifted out, else zero. */
  function Reduction(crc: bv32): bv32 { 0xEDB8_8320 & (0 - (crc & 1)) }

  /** One turn of the inner loop. */
  function Shift(crc: bv32): bv32 { Xor(Half(crc), Reduction(crc)) }

  function Shifts(crc: bv32, n: nat): bv32 {
    Iterate(Shift, crc, n)
  }

  function Absorb(crc: bv32, b: byte): bv32 {
    Shifts(Xor(crc, b as bv32), 8)
  }

  /** The running register after all bytes, without the two complements. */
  function Register(crc: bv32, data: seq<byte>): bv32
    decreases |data|
  {
    if data == [] then crc else Register(Absorb(crc, data[0]), data[1..])
  }

  function Checksum(crc: bv32, data: seq<byte>): bv32 {
    Xor(Register(Xor(crc, 0xFFFF_FFFF), data), 0xFFFF_FFFF)
  }

  // ----- the loops ---------------------------------------------------------

  lemma {:induction false} RegisterAppend(crc: bv32, p: seq<byte>, q: seq<byte>)
    ensures Register(crc, p + q) == Register(Register(crc, p), q)
    decreases |p|
  {
    if p == [] {
      assert p + q == q;
    } else {
      assert (p + q)[1..] == p[1..] + q;
      RegisterAppend(Absorb(crc, p[0]), p[1..], q);
    }
  }

  lemma RegisterNext(crc: bv32, data: seq<byte>, i: nat)
    requires i < |data|
    ensures Register(crc, data[..i + 1]) == Absorb(Register(crc, data[..i]), data[i])
  {
    assert data[..i + 1] == data[..i] + [data[i]];
    RegisterAppend(crc, data[..i], [data[i]]);
  }

  /** `host_crc32_le`: the reduction is masked by `-(crc & 1)`. */
  method HostCrc32Le(crc: bv32, data: seq<byte>) returns (result: bv32)
    ensures result == Checksum(crc, data)
  {
    var c := Xor(crc, 0xFFFF_FFFF);
    for i := 0 to |data|
      invariant c == Register(Xor(crc, 0xFFFF_FFFF), data[..i])
    {
      RegisterNext(Xor(crc, 0xFFFF_FFFF), data, i);
      c := Xor(c, data[i] as bv32);
      ghost var start := c;
      for bit := 0 to 8
        invariant c == Shifts(start, bit)
      {
        c := Xor(c >> 1, 0xEDB8_8320 & (0 - (c & 1)));
      }
    }
    assert data[..|data|] == data;
    result := Xor(c, 0xFFFF_FFFF);
  }

  /** The `i`th byte of a 64-bit value, least significant first. */
  function LittleEndianByte(value: bv64, i: nat): byte
    requires i < 8
  {
    ((value >> (i * 8)) & 0xFF) as byte
  }

  function LittleEndian(value: bv64): (bytes: seq<byte>)
  {
    seq(8, i requires 0 <= i < 8 => LittleEndianByte(value, i))
  }

  /** The inner loop of `clock_model_retained_checksum`: its reduction is a conditional. */
  method ShiftEight(start: bv32) returns (crc: bv32)
    ensures crc == Shifts(start, 8)
  {
    crc := start;
    for bit := 0 to 8
      invariant crc == Shifts(start, bit)
    {
      ConditionalShift(crc);
      crc := Xor(crc >> 1, if crc & 1 == 1 then 0xEDB8_8320 else 0);
    }
  }

  /** `clock_model_retained_checksum`. */
  method RetainedChecksum(lastSync: bv64) returns (result: bv32)
    ensures result == Checksum(0, LittleEndian(lastSync))
  {
    ghost var bytes := LittleEndian(lastSync);
    var crc := 0xFFFF_FFFF;
    assert crc == Xor(0, 0xFFFF_FFFF);
    for i := 0 to 8
      invariant crc == Register(Xor(0, 0xFFFF_FFFF), bytes[..i])
    {
      RegisterNext(Xor(0, 0xFFFF_FFFF), bytes, i);
      crc := ShiftEight(Xor(crc, LittleEndianByte(lastSync, i) as bv32));
    }
    assert bytes[..8] == bytes;
    result := Xor(crc, 0xFFFF_FFFF);
  }

  lemma ReductionBits(c: bv32)
    ensures 0xEDB8_8320 & (0 - (c & 1)) == if c & 1 == 1 then 0xEDB8_8320 else 0
  {}

  /** The two ways of writing the reduction agree. */
  lemma ConditionalShift(c: bv32)
    ensures Shift(c) == Xor(c >> 1, if c & 1 == 1 then 0xEDB8_8320 else 0)
  {
    ReductionBits(c);
  }

  // ----- the check value --------------------------------------------------------

  lemma DigitsOne()
    ensures Register(0xFFFF_FFFF, [0x31, 0x32, 0x33]) == 0x77B7_9C2D
  {
    Eight(Shift, 0xFFFF_FFCE, 0x7FFF_FFE7, 0xD247_7CD3, 0x849B_3D49, 0xAFF5_1D84,
          0x57FA_8EC2, 0x2BFD_4761, 0xF846_2090, 0x7C23_1048);
    Eight(Shift, 0x7C23_107A, 0x3E11_883D, 0xF2B0_473E, 0x7958_239F, 0xD114_92EF,
          0x8532_CA57, 0xAF21_E60B, 0xBA28_7025, 0xB0AC_BB32);
    Eight(Shift, 0xB0AC_BB01, 0xB5EE_DEA0, 0x5AF7_6F50, 0x2D7B_B7A8, 0x16BD_DBD4,
          0x0B5E_EDEA, 0x05AF_76F5, 0xEF6F_385A, 0x77B7_9C2D);
    assert [0x31, 0x32, 0x33][1..] == [0x32, 0x33] && [0x32, 0x33][1..] == [0x33] && [0x33][1..] == [];
  }

  lemma DigitsFour()
    ensures Register(0x77B7_9C2D, [0x34, 0x35, 0x36]) == 0xF68D_2C9E
  {
    Eight(Shift, 0x77B7_9C19, 0xD663_4D2C, 0x6B31_A696, 0x3598_D34B, 0xF774_EA85,
          0x9602_F662, 0x4B01_7B31, 0xC838_3EB8, 0x641C_1F5C);
    Eight(Shift, 0x641C_1F69, 0xDFB6_8C94, 0x6FDB_464A, 0x37ED_A325, 0xF64E_52B2,
          0x7B27_2959, 0xD02B_178C, 0x6815_8BC6, 0x340A_C5E3);
    Eight(Shift, 0x340A_C5D5, 0xF7BD_E1CA, 0x7BDE_F0E5, 0xD057_FB52, 0x682B_FDA9,
          0xD9AD_7DF4, 0x6CD6_BEFA, 0x366B_5F7D, 0xF68D_2C9E);
    assert [0x34, 0x35, 0x36][1..] == [0x35, 0x36] && [0x35, 0x36][1..] == [0x36] && [0x36][1..] == [];
  }

  lemma DigitsSeven()
    ensures Register(0xF68D_2C9E, [0x37, 0x38, 0x39]) == 0x340B_C6D9
  {
    Eight(Shift, 0xF68D_2CA9, 0x96FE_1574, 0x4B7F_0ABA, 0x25BF_855D, 0xFF67_418E,
          0x7FB3_A0C7, 0xD261_5343, 0x8488_2A81, 0xAFFC_9660);
    Eight(Shift, 0xAFFC_9658, 0x57FE_4B2C, 0x2BFF_2596, 0x15FF_92CB, 0xE747_4A45,
          0x9E1B_2602, 0x4F0D_9301, 0xCA3E_4AA0, 0x651F_2550);
    Eight(Shift, 0x651F_2569, 0xDF37_1194, 0x6F9B_88CA, 0x37CD_C465, 0xF65E_6112,
          0x7B2F_3089, 0xD02F_1B64, 0x6817_8DB2, 0x340B_C6D9);
    assert [0x37, 0x38, 0x39][1..] == [0x38, 0x39] && [0x38, 0x39][1..] == [0x39] && [0x39][1..] == [];
  }

  /** The checksum of the digits 1 to 9 is the check value by which CRC-32 is known. */
  lemma CheckValue()
    ensures Checksum(0, [0x31, 0x32, 0x33, 0x34, 0x35, 0x36, 0x37, 0x38, 0x39]) == 0xCBF4_3926
  {
    DigitsOne();
    DigitsFour();
    DigitsSeven();
    RegisterAppend(0xFFFF_FFFF, [0x31, 0x32, 0x33], [0x34, 0x35, 0x36]);
    RegisterAppend(0xFFFF_FFFF, [0x31, 0x32, 0x33] + [0x34, 0x35, 0x36], [0x37, 0x38, 0x39]);
    assert [0x31, 0x32, 0x33] + [0x34, 0x35, 0x36] + [0x37, 0x38, 0x39] ==
      [0x31, 0x32, 0x33, 0x34, 0x35, 0x36, 0x37, 0x38, 0x39];
  }

  /** The bytes of a value come lowest first. */
  lemma LowestByteFirst()
    ensures LittleEndian(0x0807_0605_0403_0201) == [1, 2, 3, 4, 5, 6, 7, 8]
  {
    var v: bv64 := 0x0807_0605_0403_0201;
    assert LittleEndianByte(v, 0) == 1 && LittleEndianByte(v, 1) == 2 && LittleEndianByte(v, 2) == 3;
    assert LittleEndianByte(v, 3) == 4 && LittleEndianByte(v, 4) == 5 && LittleEndianByte(v, 5) == 6;
    assert LittleEndianByte(v, 6) == 7 && LittleEndianByte(v, 7) == 8;
  }

  // ----- algebra of the shift register --------------------------------------

  lemma HalfLinear(a: bv32, b: bv32)
    ensures Half(Xor(a, b)) == Xor(Half(a), Half(b))
  {}

  lemma ReductionLinear(a: bv32, b: bv32)
    ensures Reduction(Xor(a, b)) == Xor(Reduction(a), Reduction(b))
  {}

  lemma XorAssociative(x: bv32, y: bv32, z: bv32)
    ensures Xor(Xor(x, y), z) == Xor(x, Xor(y, z))
  {}

  lemma XorCommutative(x: bv32, y: bv32)
    ensures Xor(x, y) == Xor(y, x)
  {}

  lemma XorIsAssociative()
    ensures forall x, y, z :: Xor(Xor(x, y), z) == Xor(x, Xor(y, z))
  {
    forall x, y, z ensures Xor(Xor(x, y), z) == Xor(x, Xor(y, z)) {
      XorAssociative(x, y, z);
    }
  }

  lemma XorIsCommutative()
    ensures forall x, y :: Xor(x, y) == Xor(y, x)
  {
    forall x, y ensures Xor(x, y) == Xor(y, x) {
      XorCommutative(x, y);
    }
  }

  lemma XorInterchange(u: bv32, v: bv32, p: bv32, q: bv32)
    ensures Xor(Xor(u, v), Xor(p, q)) == Xor(Xor(u, p), Xor(v, q))
  {
    XorIsAssociative();
    XorIsCommutative();
    Interchange(Xor, u, v, p, q);
  }

  lemma ShiftLinear(a: bv32, b: bv32)
    ensures Shift(Xor(a, b)) == Xor(Shift(a), Shift(b))
  {
    HalfLinear(a, b);
    ReductionLinear(a, b);
    XorInterchange(Half(a), Half(b), Reduction(a), Reduction(b));
  }

  /** A reduction sets the top bit, so the shifted-out bit can be recovered. */
  function Unshift(c: bv32): bv32 {
    if c & 0x8000_0000 == 0 then c << 1 else ((c ^ 0xEDB8_8320) << 1) | 1
  }

  lemma UnshiftBits(c: bv32)
    ensures c & 1 == 0 ==> (c >> 1) & 0x8000_0000 == 0 && (c >> 1) << 1 == c
    ensures c & 1 == 1 ==> ((c >> 1) ^ 0xEDB8_8320) & 0x8000_0000 != 0
    ensures c & 1 == 1 ==> ((((c >> 1) ^ 0xEDB8_8320) ^ 0xEDB8_8320) << 1) | 1 == c
    ensures c & 1 == 0 || c & 1 == 1
  {}

  lemma UnshiftUndoesShift(c: bv32)
    ensures Unshift(Shift(c)) == c
  {
    ConditionalShift(c);
    UnshiftBits(c);
    XorZero(c >> 1);
  }

  lemma ShiftInjective(a: bv32, b: bv32)
    ensures Shift(a) == Shift(b) ==> a == b
  {
    UnshiftUndoesShift(a);
    UnshiftUndoesShift(b);
  }

  lemma ShiftsInjective(a: bv32, b: bv32, n: nat)
    requires a != b
    ensures Shifts(a, n) != Shifts(b, n)
  {
    forall x, y ensures Shift(x) == Shift(y) ==> x == y {
      ShiftInjective(x, y);
    }
    Injective(Shift, a, b, n);
  }

  // ----- bit by bit -----------------------------------------------------------

  function Flag(b: bool): bv32 { if b then 1 else 0 }

  function AbsorbBit(crc: bv32, b: bool): bv32 {
    Shift(Xor(crc, Flag(b)))
  }

  /** The register after all bits. */
  function BitRegister(crc: bv32, bits: seq<bool>): bv32
    decreases |bits|
  {
    if bits == [] then crc else BitRegister(AbsorbBit(crc, bits[0]), bits[1..])
  }

  lemma {:induction false} BitRegisterAppend(crc: bv32, p: seq<bool>, q: seq<bool>)
    ensures BitRegister(crc, p + q) == BitRegister(BitRegister(crc, p), q)
    decreases |p|
  {
    if p == [] {
      assert p + q == q;
    } else {
      assert (p + q)[1..] == p[1..] + q;
      BitRegisterAppend(AbsorbBit(crc, p[0]), p[1..], q);
    }
  }

  lemma XorCancels(r: bv32, x: bv32, y: bv32)
    ensures Xor(r, x) == Xor(r, y) ==> x == y
    ensures Xor(x, r) == Xor(y, r) ==> x == y
  {}

  /** Equal bits never bring different registers together. */
  lemma {:induction false} BitRegisterInjective(r: bv32, s: bv32, bits: seq<bool>)
    requires r != s
    ensures BitRegister(r, bits) != BitRegister(s, bits)
    decreases |bits|
  {
    if bits == [] {
    } else {
      XorCancels(Flag(bits[0]), r, s);
      ShiftInjective(Xor(r, Flag(bits[0])), Xor(s, Flag(bits[0])));
      BitRegisterInjective(AbsorbBit(r, bits[0]), AbsorbBit(s, bits[0]), bits[1..]);
    }
  }

  // ----- words ------------------------------------------------------------------

  function Double(v: bv32): bv32 { v << 1 }

  lemma DoubleBits(v: bv32)
    requires v & 0x8000_0000 == 0
    ensures (v << 1) >> 1 == v && (v << 1) & 1 == 0
  {}

  lemma XorZero(v: bv32)
    ensures Xor(v, 0) == v
  {}

  lemma ShiftUndoesDouble(v: bv32)
    requires v & 0x8000_0000 == 0
    ensures Shift(Double(v)) == v
  {
    DoubleBits(v);
    assert Half(Double(v)) == v;
    assert Reduction(Double(v)) == 0;
    XorZero(v);
  }

  /** One more bit below a word. */
  function Join(b: bool, v: bv32): bv32 { Xor(Flag(b), Double(v)) }

  /** A few bits as one word, the first the lowest. */
  function Word(bits: seq<bool>): bv32 { Fold(Join, 0, bits) }

  /** `v` is a word of at most `n` bits. */
  predicate Fits(v: bv32, n: nat) {
    n >= 32 || Iterate(Half, v, n) == 0
  }

  lemma JoinLow(b: bool, v: bv32)
    ensures Join(b, v) & 1 == Flag(b)
  {}

  lemma FlagHalf(b: bool)
    ensures Half(Flag(b)) == 0
  {}

  lemma JoinHalf(b: bool, v: bv32)
    requires v & 0x8000_0000 == 0
    ensures Half(Join(b, v)) == v
  {
    HalfLinear(Flag(b), Double(v));
    FlagHalf(b);
    DoubleBits(v);
    XorCommutative(0, v);
    XorZero(v);
  }

  lemma JoinParts(v: bv32)
    ensures Join(v & 1 == 1, Half(v)) == v
  {}

  lemma {:induction false} HalvesOfZero(n: nat)
    ensures Iterate(Half, 0, n) == 0
  {
    if n == 0 {
    } else {
      HalvesOfZero(n - 1);
    }
  }

  lemma HalfEight(v: bv32)
    ensures Iterate(Half, v, 7) == v >> 7
    ensures Iterate(Half, v, 8) == v >> 8
  {
    Eight(Half, v, v >> 1, v >> 2, v >> 3, v >> 4, v >> 5, v >> 6, v >> 7, v >> 8);
  }

  lemma ShiftRights(v: bv32)
    ensures (v >> 8) >> 8 == v >> 16 && (v >> 16) >> 8 == v >> 24 && (v >> 24) >> 7 == v >> 31
    ensures v >> 31 == 0 ==> v & 0x8000_0000 == 0
  {}

  lemma TopBit(v: bv32)
    requires Iterate(Half, v, 31) == 0
    ensures v & 0x8000_0000 == 0
  {
    HalfEight(v);
    Compose(Half, v, 8, 8);
    HalfEight(v >> 8);
    Compose(Half, v, 16, 8);
    HalfEight(v >> 16);
    Compose(Half, v, 24, 7);
    HalfEight(v >> 24);
    ShiftRights(v);
  }

  lemma FitsBelow(v: bv32, n: nat)
    requires n < 32 && Fits(v, n)
    ensures v & 0x8000_0000 == 0
  {
    Compose(Half, v, n, 31 - n);
    HalvesOfZero(31 - n);
    TopBit(v);
  }

  lemma JoinFits(b: bool, v: bv32, n: nat)
    requires n < 32 && Fits(v, n)
    ensures Fits(Join(b, v), n + 1)
  {
    FitsBelow(v, n);
    JoinHalf(b, v);
    Compose(Half, Join(b, v), 1, n);
    assert Iterate(Half, Join(b, v), 1) == Half(Join(b, v));
  }

  lemma JoinInjective(b: bool, c: bool, v: bv32, w: bv32, n: nat)
    requires n < 32 && Fits(v, n) && Fits(w, n) && Join(b, v) == Join(c, w)
    ensures b == c && v == w
  {
    FitsBelow(v, n);
    FitsBelow(w, n);
    JoinLow(b, v);
    JoinLow(c, w);
    JoinHalf(b, v);
    JoinHalf(c, w);
  }

  lemma WordFits(bits: seq<bool>)
    requires |bits| <= 32
    ensures Fits(Word(bits), |bits|)
  {
    forall b, v, n: nat | n < 32 && Fits(v, n) ensures Fits(Join(b, v), n + 1) {
      JoinFits(b, v, n);
    }
    FoldFits(Join, 0, Fits, bits, 32);
  }

  lemma WordInjective(a: seq<bool>, b: seq<bool>)
    requires |a| == |b| <= 32 && Word(a) == Word(b)
    ensures a == b
  {
    forall b, v, n: nat | n < 32 && Fits(v, n) ensures Fits(Join(b, v), n + 1) {
      JoinFits(b, v, n);
    }
    forall b, c, v, w, n: nat | n < 32 && Fits(v, n) && Fits(w, n) && Join(b, v) == Join(c, w)
      ensures b == c && v == w
    {
      JoinInjective(b, c, v, w, n);
    }
    FoldInjective(Join, 0, Fits, a, b, 32);
  }

  /** Absorbing a bit before a word is shifting the longer word by one. */
  lemma AbsorbBeforeWord(r: bv32, b: bool, t: bv32)
    requires t & 0x8000_0000 == 0
    ensures Xor(AbsorbBit(r, b), t) == Shift(Xor(r, Join(b, t)))
  {
    ShiftUndoesDouble(t);
    ShiftLinear(Xor(r, Flag(b)), Double(t));
    XorAssociative(r, Flag(b), Double(t));
  }

  /** A burst of up to 32 bits acts on the register as one word. */
  lemma {:induction false} BitsOfBurst(r: bv32, bits: seq<bool>)
    requires |bits| <= 32
    ensures BitRegister(r, bits) == Shifts(Xor(r, Word(bits)), |bits|)
    decreases |bits|
  {
    if bits == [] {
      XorZero(r);
    } else {
      var t := Word(bits[1..]);
      BitsOfBurst(AbsorbBit(r, bits[0]), bits[1..]);
      WordFits(bits[1..]);
      FitsBelow(t, |bits| - 1);
      AbsorbBeforeWord(r, bits[0], t);
      Compose(Shift, Xor(r, Word(bits)), 1, |bits| - 1);
      assert Iterate(Shift, Xor(r, Word(bits)), 1) == Shift(Xor(r, Word(bits)));
    }
  }

  // ----- bytes as bits -----------------------------------------------------------

  /** The lowest `n` bits, the lowest first. */
  function LowBits(v: bv32, n: nat): (bits: seq<bool>)
    ensures |bits| == n
  {
    if n == 0 then [] else [v & 1 == 1] + LowBits(Half(v), n - 1)
  }

  /** A message in the order in which the register takes its bits. */
  function Bits(data: seq<byte>): (bits: seq<bool>)
    ensures |bits| == 8 * |data|
    decreases |data|
  {
    if data == [] then [] else LowBits(data[0] as bv32, 8) + Bits(data[1..])
  }

  lemma {:induction false} WordOfLowBits(v: bv32, n: nat)
    requires Iterate(Half, v, n) == 0
    ensures Word(LowBits(v, n)) == v
    decreases n
  {
    if n == 0 {
    } else {
      Compose(Half, v, 1, n - 1);
      assert Iterate(Half, v, 1) == Half(v);
      WordOfLowBits(Half(v), n - 1);
      assert LowBits(v, n)[1..] == LowBits(Half(v), n - 1);
      JoinParts(v);
    }
  }

  lemma ByteFits(b: byte)
    ensures (b as bv32) >> 8 == 0
  {}

  lemma ByteIsWord(b: byte)
    ensures Word(LowBits(b as bv32, 8)) == b as bv32
  {
    ByteFits(b);
    HalfEight(b as bv32);
    WordOfLowBits(b as bv32, 8);
  }

  lemma WideByte(a: byte, b: byte)
    ensures a as bv32 == b as bv32 ==> a == b
  {}

  lemma SameByte(a: byte, b: byte)
    requires LowBits(a as bv32, 8) == LowBits(b as bv32, 8)
    ensures a == b
  {
    ByteIsWord(a);
    ByteIsWord(b);
    WideByte(a, b);
  }

  lemma SameParts<T>(a: seq<T>, x: seq<T>, b: seq<T>, y: seq<T>)
    requires |a| == |b| && a + x == b + y
    ensures a == b && x == y
  {
    assert a == (a + x)[..|a|] && b == (b + y)[..|b|] && x == (a + x)[|a|..] && y == (b + y)[|b|..];
  }

  lemma {:induction false} RegisterIsBits(r: bv32, data: seq<byte>)
    ensures Register(r, data) == BitRegister(r, Bits(data))
    decreases |data|
  {
    if data == [] {
    } else {
      var first := LowBits(data[0] as bv32, 8);
      BitsOfBurst(r, first);
      ByteIsWord(data[0]);
      BitRegisterAppend(r, first, Bits(data[1..]));
      RegisterIsBits(Absorb(r, data[0]), data[1..]);
    }
  }

  lemma {:induction false} BitsAppend(p: seq<byte>, q: seq<byte>)
    ensures Bits(p + q) == Bits(p) + Bits(q)
    decreases |p|
  {
    if p == [] {
      assert p + q == q;
    } else {
      assert (p + q)[1..] == p[1..] + q;
      BitsAppend(p[1..], q);
    }
  }

  lemma {:induction false} BitsInjective(a: seq<byte>, b: seq<byte>)
    requires |a| == |b| && Bits(a) == Bits(b)
    ensures a == b
    decreases |a|
  {
    if a == [] {
    } else {
      SameParts(LowBits(a[0] as bv32, 8), Bits(a[1..]), LowBits(b[0] as bv32, 8), Bits(b[1..]));
      SameByte(a[0], b[0]);
      BitsInjective(a[1..], b[1..]);
      assert a == [a[0]] + a[1..] && b == [b[0]] + b[1..];
    }
  }

  // ----- the main results ----------------------------------------------------------

  /** A burst of up to four bytes acts on the register as one word. */
  lemma RegisterOfBurst(r: bv32, w: seq<byte>)
    requires |w| <= 4
    ensures Register(r, w) == Shifts(Xor(r, Word(Bits(w))), 8 * |w|)
  {
    RegisterIsBits(r, w);
    BitsOfBurst(r, Bits(w));
  }

  lemma RegisterInjective(r: bv32, s: bv32, data: seq<byte>)
    requires r != s
    ensures Register(r, data) != Register(s, data)
  {
    RegisterIsBits(r, data);
    RegisterIsBits(s, data);
    BitRegisterInjective(r, s, Bits(data));
  }

  /** The bits differ at most at the `n` positions from `start` on. */
  predicate DifferWithin(x: seq<bool>, y: seq<bool>, start: nat, n: nat) {
    |x| == |y| && forall p :: 0 <= p < |x| && x[p] != y[p] ==> start <= p < start + n
  }

  lemma WindowChangesBits(r: bv32, was: seq<bool>, now: seq<bool>)
    requires |was| == |now| <= 32 && was != now
    ensures BitRegister(r, was) != BitRegister(r, now)
  {
    BitsOfBurst(r, was);
    BitsOfBurst(r, now);
    if Word(was) == Word(now) {
      WordInjective(was, now);
    }
    XorCancels(r, Word(was), Word(now));
    ShiftsInjective(Xor(r, Word(was)), Xor(r, Word(now)), |was|);
  }

  lemma BurstChangesBits(r: bv32, x: seq<bool>, y: seq<bool>, start: nat)
    requires x != y && DifferWithin(x, y, start, 32)
    ensures BitRegister(r, x) != BitRegister(r, y)
  {
    var from := if start < |x| then start else |x|;
    var to := if start + 32 < |x| then start + 32 else |x|;
    assert x[..from] == y[..from] && x[to..] == y[to..];
    assert x == x[..from] + x[from..to] + x[to..] && y == y[..from] + y[from..to] + y[to..];
    var s := BitRegister(r, x[..from]);
    BitRegisterAppend(r, x[..from] + x[from..to], x[to..]);
    BitRegisterAppend(r, x[..from], x[from..to]);
    BitRegisterAppend(r, y[..from] + y[from..to], y[to..]);
    BitRegisterAppend(r, y[..from], y[from..to]);
    WindowChangesBits(s, x[from..to], y[from..to]);
    BitRegisterInjective(BitRegister(s, x[from..to]), BitRegister(s, y[from..to]), x[to..]);
  }

  /** Changing bits within 32 consecutive positions of a message of any length changes its CRC. */
  lemma BitBurstChangesChecksum(crc: bv32, was: seq<byte>, now: seq<byte>, start: nat)
    requires |was| == |now| && was != now && DifferWithin(Bits(was), Bits(now), start, 32)
    ensures Checksum(crc, was) != Checksum(crc, now)
  {
    var r := Xor(crc, 0xFFFF_FFFF);
    if Bits(was) == Bits(now) {
      BitsInjective(was, now);
    }
    RegisterIsBits(r, was);
    RegisterIsBits(r, now);
    BurstChangesBits(r, Bits(was), Bits(now), start);
    XorCancels(0xFFFF_FFFF, Register(r, was), Register(r, now));
  }

  /** So does changing at most four consecutive bytes. */
  lemma BurstChangesChecksum(crc: bv32, prefix: seq<byte>, was: seq<byte>, now: seq<byte>, suffix: seq<byte>)
    requires |was| == |now| <= 4 && was != now
    ensures Checksum(crc, prefix + was + suffix) != Checksum(crc, prefix + now + suffix)
  {
    BitsAppend(prefix + was, suffix);
    BitsAppend(prefix, was);
    BitsAppend(prefix + now, suffix);
    BitsAppend(prefix, now);
    var k := |prefix|;
    assert (prefix + was + suffix)[k..k + |was|] == was && (prefix + now + suffix)[k..k + |was|] == now;
    BitBurstChangesChecksum(crc, prefix + was + suffix, prefix + now + suffix, 8 * k);
  }
}
