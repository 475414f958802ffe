/** The 64-bit hash behind every content-addressed identity, with its wrap-around written out.
    Versions are FNV-1a; the discriminator of an outage's cause has a multiplier of its own, one
    digit wider than the prime of that algorithm. */
module Fnv {
  import opened Text
  import opened Encoding
  import Bits

  const MODULUS: nat := 0x1_0000_0000_0000_0000
  const OFFSET_BASIS: nat := 0xcbf2_9ce4_8422_2325

  /** The multiplier of the versions, and that of the causes. */
  datatype Multiplier = Prime | Wide {
    function Factor(): nat {
      match this
      case Prime => 0x100_0000_01b3
      case Wide => 0x1000_0000_01b3
    }

    /** Both are odd, so both have an inverse. */
    function Inverse(): nat {
      match this
      case Prime => 0xce96_5057_aff6_957b
      case Wide => 0xb46d_d957_aff6_957b
    }

    ghost function Wraps(): nat {
      match this
      case Prime => 0xce_9650_590f
      case Wide => 0xb46_dd95_7c32
    }
  }

  type U64 = n: nat | n < MODULUS

  // ----- One step ----------------------------------------------------------

  /** `hash ^= u64::from(byte)`: only the low byte can change. */
  function XorLow(h: U64, b: Byte): U64 {
    h / 0x100 * 0x100 + Bits.Xor(h % 0x100, b)
  }

  function WrappingMul(h: U64, factor: nat): U64 {
    h * factor % MODULUS
  }

  function Step(m: Multiplier, h: U64, b: Byte): U64 {
    WrappingMul(XorLow(h, b), m.Factor())
  }

  function Unstep(m: Multiplier, h: U64, b: Byte): U64 {
    XorLow(WrappingMul(h, m.Inverse()), b)
  }

  lemma XorLowIsReversible(h: U64, b: Byte, c: Byte)
    ensures XorLow(XorLow(h, b), b) == h
    ensures XorLow(h, b) == XorLow(h, c) ==> b == c
  {
    hide Bits.Xor;
    var low := Bits.Xor(h % 0x100, b);
    Bits.XorCancels(h % 0x100, b);
    LowByte(h / 0x100, low);
    if XorLow(h, b) == XorLow(h, c) {
      LowByte(h / 0x100, Bits.Xor(h % 0x100, c));
      Bits.XorSeparates(h % 0x100, b, c);
    }
  }

  lemma LowByte(high: nat, low: Byte)
    ensures (0x100 * high + low) % 0x100 == low
    ensures (0x100 * high + low) / 0x100 == high
  {
  }

  lemma Remainder(x: int, h: U64, t: int)
    requires x == h + MODULUS * t
    ensures x % MODULUS == h
  {
  }

  lemma MultiplicationInverts(m: Multiplier, h: U64)
    ensures WrappingMul(WrappingMul(h, m.Factor()), m.Inverse()) == h
  {
    FactorInverts(m);
    RoundTrip(h, m.Factor(), m.Inverse(), m.Wraps());
  }

  lemma MultiplicationReverts(m: Multiplier, h: U64)
    ensures WrappingMul(WrappingMul(h, m.Inverse()), m.Factor()) == h
  {
    FactorInverts(m);
    RoundTrip(h, m.Inverse(), m.Factor(), m.Wraps());
  }

  lemma FactorInverts(m: Multiplier)
    ensures m.Factor() * m.Inverse() == 1 + MODULUS * m.Wraps()
  {
  }

  lemma RoundTrip(h: U64, x: nat, y: nat, wraps: nat)
    requires x * y == 1 + MODULUS * wraps
    ensures WrappingMul(WrappingMul(h, x), y) == h
  {
    var q := h * x / MODULUS;
    assert h * x == MODULUS * q + WrappingMul(h, x);
    assert WrappingMul(h, x) * y == h * (x * y) - MODULUS * q * y;
    assert h * (x * y) == h + MODULUS * (wraps * h);
    Remainder(WrappingMul(h, x) * y, h, wraps * h - q * y);
  }

  /** For every byte, a step is a bijection on 64-bit states. */
  lemma StepIsABijection(m: Multiplier, h: U64, b: Byte)
    ensures Unstep(m, Step(m, h, b), b) == h
    ensures Step(m, Unstep(m, h, b), b) == h
  {
    hide WrappingMul;
    MultiplicationInverts(m, XorLow(h, b));
    XorLowIsReversible(h, b, b);
    MultiplicationReverts(m, h);
    XorLowIsReversible(WrappingMul(h, m.Inverse()), b, b);
  }

  /** From one state, different bytes lead to different states. */
  lemma StepSeparatesBytes(m: Multiplier, h: U64, b: Byte, c: Byte)
    requires Step(m, h, b) == Step(m, h, c)
    ensures b == c
  {
    hide WrappingMul;
    MultiplicationInverts(m, XorLow(h, b));
    MultiplicationInverts(m, XorLow(h, c));
    XorLowIsReversible(h, b, c);
  }

  // ----- The whole pass ----------------------------------------------------

  function Fold(m: Multiplier, h: U64, bytes: seq<Byte>): U64
    decreases bytes
  {
    if bytes == [] then h else Fold(m, Step(m, h, bytes[0]), bytes[1..])
  }

  function Hash(m: Multiplier, bytes: seq<Byte>): U64 {
    Fold(m, OFFSET_BASIS, bytes)
  }

  lemma StepIs(m: Multiplier, h: U64, b: Byte, low: Byte, next: U64, wraps: nat)
    requires Bits.Xor(h % 0x100, b) == low
    requires (h / 0x100 * 0x100 + low) * m.Factor() == next + MODULUS * wraps
    ensures Step(m, h, b) == next
  {
    hide Bits.Xor;
    Remainder((h / 0x100 * 0x100 + low) * m.Factor(), next, wraps);
  }

  lemma KnownXor()
    ensures Bits.Xor(0x25, 0x61) == 0x44
  {
  }

  lemma KnownSteps()
    ensures Step(Prime, 0xcbf2_9ce4_8422_2325, 0x61) == 0xaf63_dc4c_8601_ec8c
    ensures Step(Wide, 0xcbf2_9ce4_8422_2325, 0x61) == 0xaf74_d84c_8601_ec8c
  {
    hide Step, Bits.Xor;
    KnownXor();
    StepIs(Prime, 0xcbf2_9ce4_8422_2325, 0x61, 0x44, 0xaf63_dc4c_8601_ec8c, 0xcbf29ce5de);
    StepIs(Wide, 0xcbf2_9ce4_8422_2325, 0x61, 0x44, 0xaf74_d84c_8601_ec8c, 0xcbf_29ce_499c);
  }

  /** The digests of no bytes and of the byte of "a": with the prime they are those published for
      FNV-1a, with the wider multiplier the second is another. */
  lemma KnownDigests()
    ensures forall m :: Hash(m, []) == 0xcbf2_9ce4_8422_2325
    ensures Hash(Prime, [0x61]) == 0xaf63_dc4c_8601_ec8c
    ensures Hash(Wide, [0x61]) == 0xaf74_d84c_8601_ec8c
  {
    hide Step;
    KnownSteps();
    assert [0x61][1..] == [];
    assert forall m :: Fold(m, OFFSET_BASIS, [0x61]) == Fold(m, Step(m, OFFSET_BASIS, 0x61), []);
  }

  lemma {:induction false} FoldConcatenates(m: Multiplier, h: U64, a: seq<Byte>, b: seq<Byte>)
    ensures Fold(m, h, a + b) == Fold(m, Fold(m, h, a), b)
    decreases a
  {
    hide Step;
    if a == [] {
      assert a + b == b;
    } else {
      FoldConcatenates(m, Step(m, h, a[0]), a[1..], b);
      assert (a + b)[1..] == a[1..] + b;
    }
  }

  lemma {:induction false} FoldSeparatesStates(m: Multiplier, g: U64, h: U64, bytes: seq<Byte>)
    requires Fold(m, g, bytes) == Fold(m, h, bytes)
    ensures g == h
    decreases bytes
  {
    if bytes != [] {
      FoldSeparatesStates(m, Step(m, g, bytes[0]), Step(m, h, bytes[0]), bytes[1..]);
      StepIsABijection(m, g, bytes[0]);
      StepIsABijection(m, h, bytes[0]);
    }
  }

  /** Two inputs that differ in exactly one byte never collide. */
  lemma OneByteAlwaysShows(m: Multiplier, prefix: seq<Byte>, b: Byte, c: Byte, suffix: seq<Byte>)
    requires b != c
    ensures Hash(m, prefix + [b] + suffix) != Hash(m, prefix + [c] + suffix)
  {
    hide Step;
    var h := Fold(m, OFFSET_BASIS, prefix);
    forall d: Byte ensures Hash(m, prefix + [d] + suffix) == Fold(m, Step(m, h, d), suffix) {
      FoldConcatenates(m, OFFSET_BASIS, prefix, [d] + suffix);
      assert prefix + [d] + suffix == prefix + ([d] + suffix);
      assert ([d] + suffix)[1..] == suffix;
    }
    if Hash(m, prefix + [b] + suffix) == Hash(m, prefix + [c] + suffix) {
      FoldSeparatesStates(m, Step(m, h, b), Step(m, h, c), suffix);
      StepSeparatesBytes(m, h, b, c);
    }
  }

  // ----- The cause of an outage --------------------------------------------

  /** The discriminator that `CauseDiscriminator` computes. */
  function Cause(reason: string): string {
    Hex(Hash(Wide, Utf8(reason)), 16)
  }

  method Absorb(m: Multiplier, start: U64, bytes: seq<Byte>) returns (hash: U64)
    ensures hash == Fold(m, start, bytes)
  {
    hash := start;
    var i := 0;
    while i < |bytes|
      invariant 0 <= i <= |bytes|
      invariant Fold(m, hash, bytes[i..]) == Fold(m, start, bytes)
    {
      hash := Step(m, hash, bytes[i]);
      i := i + 1;
    }
  }

  method CauseDiscriminator(reason: string) returns (cause: string)
    ensures cause == Cause(reason)
  {
    var hash := Absorb(Wide, OFFSET_BASIS, Utf8(reason));
    cause := Hex(hash, 16);
  }

  /** Whether two texts have the same UTF-8 length and differ in exactly one byte. */
  predicate DifferInOneByte(r: string, s: string, at: nat) {
    var a, b := Utf8(r), Utf8(s);
    |a| == |b| && at < |a| && a[at] != b[at] && a[..at] == b[..at] && a[at + 1..] == b[at + 1..]
  }

  lemma CauseShowsOneByte(r: string, s: string, at: nat)
    requires DifferInOneByte(r, s, at)
    ensures Cause(r) != Cause(s)
  {
    var a, b := Utf8(r), Utf8(s);
    assert a == a[..at] + [a[at]] + a[at + 1..];
    assert b == a[..at] + [b[at]] + a[at + 1..];
    OneByteAlwaysShows(Wide, a[..at], a[at], b[at], a[at + 1..]);
    CauseIsTheHash(r, s);
  }

  lemma SixteenDigits()
    ensures Pow16(16) == MODULUS
  {
    assert Pow16(4) == 0x1_0000;
    assert Pow16(8) == 0x1_0000 * Pow16(4);
    assert Pow16(12) == 0x1_0000 * Pow16(8);
  }

  /** The 16 hexadecimal digits lose nothing of the hash. */
  lemma CauseIsTheHash(r: string, s: string)
    ensures Cause(r) == Cause(s) <==> Hash(Wide, Utf8(r)) == Hash(Wide, Utf8(s))
    ensures |Cause(r)| == 16 && AllHex(Cause(r))
  {
    SixteenDigits();
    HexReadsBack(Hash(Wide, Utf8(r)), 16);
    HexReadsBack(Hash(Wide, Utf8(s)), 16);
  }

  // ----- Versions ----------------------------------------------------------

  /** `hash | 1`. */
  function SetLowBit(h: U64): U64 {
    h + (1 - h % 2)
  }

  function Version(parts: seq<string>): U64 {
    SetLowBit(Hash(Prime, Utf8(LengthPrefixedAll(parts))))
  }

  /** `stable_version`: the parts are hashed one after the other. */
  method StableVersion(parts: seq<string>) returns (version: U64)
    ensures version == Version(parts)
  {
    var hash: U64 := OFFSET_BASIS;
    var i := 0;
    while i < |parts|
      invariant 0 <= i <= |parts|
      invariant Fold(Prime, hash, Utf8(LengthPrefixedAll(parts[i..]))) == Hash(Prime, Utf8(LengthPrefixedAll(parts)))
    {
      var bytes := Utf8(LengthPrefixed(parts[i]));
      ghost var rest := LengthPrefixedAll(parts[i + 1..]);
      Utf8Concatenates(LengthPrefixed(parts[i]), rest);
      FoldConcatenates(Prime, hash, bytes, Utf8(rest));
      hash := Absorb(Prime, hash, bytes);
      i := i + 1;
    }
    version := SetLowBit(hash);
  }

  /** `source_stream_seq`: the version masked to 63 bits. */
  function StreamSeq(parts: seq<string>): U64 {
    Version(parts) % 0x8000_0000_0000_0000
  }

  /** The masked version is odd, so never the zero a snapshot refuses, and it fits a signed
      64-bit column. */
  lemma StreamSeqIsOddAndSigned(parts: seq<string>)
    ensures StreamSeq(parts) % 2 == 1
    ensures 1 <= StreamSeq(parts) <= 0x7fff_ffff_ffff_ffff
  {
    hide Hash;
    assert Version(parts) % 2 == 1;
  }

  lemma HalfOf(q: nat, r: nat)
    requires r < 2
    ensures (2 * q + r) / 2 == q && (2 * q + r) % 2 == r
  {
  }

  lemma MaskedHalf(v: nat, q: nat, high: nat, low: nat)
    requires v == 2 * q + 1 && q == 0x4000_0000_0000_0000 * high + low && low < 0x4000_0000_0000_0000
    ensures v % 0x8000_0000_0000_0000 == 2 * low + 1
  {
    assert v == 0x8000_0000_0000_0000 * high + (2 * low + 1);
  }

  /** All of the hash but its lowest and its highest bit is in the masked version. */
  lemma StreamSeqKeepsTheHash(parts: seq<string>)
    ensures var h := Hash(Prime, Utf8(LengthPrefixedAll(parts)));
            Version(parts) / 2 == h / 2 && StreamSeq(parts) / 2 == h / 2 % 0x4000_0000_0000_0000
  {
    hide Hash;
    var h := Hash(Prime, Utf8(LengthPrefixedAll(parts)));
    var q := h / 2;
    HalfOf(q, h % 2);
    HalfOf(q, 1);
    var high, low := q / 0x4000_0000_0000_0000, q % 0x4000_0000_0000_0000;
    MaskedHalf(Version(parts), q, high, low);
    HalfOf(low, 1);
  }

  /** What is hashed determines the list of parts. */
  lemma VersionPreimageIsInjective(a: seq<string>, b: seq<string>)
    requires Utf8(LengthPrefixedAll(a)) == Utf8(LengthPrefixedAll(b))
    ensures a == b
  {
    Utf8IsInjective(LengthPrefixedAll(a), LengthPrefixedAll(b));
    LengthPrefixedAllIsInjective(a, b);
  }
}
