/** A byte and the word of its eight bits. */
module Words {

  lemma ByteReadsBack(b: int)
    requires 0 <= b < 0x100
    ensures (b as bv8) as int == b
  {
  }
}

/** Exclusive or on bytes. */
module Bits {
  import Words

  function ToBits(b: int): bv8
    requires 0 <= b < 0x100
  {
    b as bv8
  }

  function FromBits(x: bv8): (b: int)
    ensures 0 <= b < 0x100
  {
    x as int
  }

  function XorBits(x: bv8, y: bv8): bv8 {
    x ^ y
  }

  function Xor(a: int, b: int): (c: int)
    requires 0 <= a < 0x100 && 0 <= b < 0x100
    ensures 0 <= c < 0x100
  {
    FromBits(XorBits(ToBits(a), ToBits(b)))
  }

  lemma ByteReadsBack(b: int)
    requires 0 <= b < 0x100
    ensures FromBits(ToBits(b)) == b
  {
    Words.ByteReadsBack(b);
  }

  lemma BitsReadBack(x: bv8)
    ensures ToBits(FromBits(x)) == x
  {
    assert (x as int) as bv8 == x;
  }

  lemma BitsCancel(x: bv8, y: bv8, z: bv8)
    ensures XorBits(XorBits(x, y), y) == x
    ensures XorBits(x, y) == XorBits(x, z) ==> y == z
  {
  }

  /** Exclusive or with the same byte twice changes nothing. */
  lemma XorCancels(a: int, b: int)
    requires 0 <= a < 0x100 && 0 <= b < 0x100
    ensures Xor(Xor(a, b), b) == a
  {
    hide ToBits, FromBits, XorBits;
    BitsCancel(ToBits(a), ToBits(b), ToBits(b));
    BitsReadBack(XorBits(ToBits(a), ToBits(b)));
    ByteReadsBack(a);
  }

  lemma XorSeparates(a: int, b: int, c: int)
    requires 0 <= a < 0x100 && 0 <= b < 0x100 && 0 <= c < 0x100
    requires Xor(a, b) == Xor(a, c)
    ensures b == c
  {
    hide ToBits, FromBits, XorBits;
    BitsCancel(ToBits(a), ToBits(b), ToBits(c));
    BitsReadBack(XorBits(ToBits(a), ToBits(b)));
    BitsReadBack(XorBits(ToBits(a), ToBits(c)));
    ByteReadsBack(b);
    ByteReadsBack(c);
  }
}
