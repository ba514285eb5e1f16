/** Single bits of an eight-bit mask, as the firmware's `1U << i` expressions use them. */
module BitMask {

  /** `1U << i`, for the eight bit numbers a mask has. */
  function One(i: nat): bv8
    requires i < 8
  {
    if i == 0 then 1 else if i == 1 then 2 else if i == 2 then 4 else if i == 3 then 8
    else if i == 4 then 16 else if i == 5 then 32 else if i == 6 then 64 else 128
  }

  predicate Bit(mask: bv8, i: nat)
    requires i < 8
  {
    mask & One(i) != 0
  }

  function SetBit(mask: bv8, i: nat): bv8
    requires i < 8
  {
    mask | One(i)
  }

  function ClearBit(mask: bv8, i: nat): bv8
    requires i < 8
  {
    mask & !One(i)
  }

  function FlipBit(mask: bv8, i: nat): bv8
    requires i < 8
  {
    mask ^ One(i)
  }

  lemma SetBitIsBit(mask: bv8, i: nat)
    requires i < 8
    ensures forall j: nat | j < 8 :: Bit(SetBit(mask, i), j) == (j == i || Bit(mask, j))
  {}

  lemma ClearBitIsBit(mask: bv8, i: nat)
    requires i < 8
    ensures forall j: nat | j < 8 :: Bit(ClearBit(mask, i), j) == (j != i && Bit(mask, j))
  {}

  lemma FlipBitIsBit(mask: bv8, i: nat)
    requires i < 8
    ensures forall j: nat | j < 8 :: Bit(FlipBit(mask, i), j) == (if j == i then !Bit(mask, j) else Bit(mask, j))
  {}

  lemma NoBits(i: nat)
    requires i < 8
    ensures !Bit(0, i)
  {}
}
