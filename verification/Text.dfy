/** Rust text as the console's identities and digests see it: a sequence of Unicode
    scalar values, measured and hashed through its UTF-8 bytes. */
module Text {

  datatype Option<+T> = None | Some(value: T)

  datatype Result<+T, +E> = Ok(value: T) | Err(error: E)

  type Byte = b: int | 0 <= b < 0x100

  const U64_MAX: nat := 0xffff_ffff_ffff_ffff

  /** `u64::saturating_add(1)`. */
  function SaturatingNext(n: nat): nat {
    if n < U64_MAX then n + 1 else U64_MAX
  }

  // ----- Trimming ----------------------------------------------------------

  /** Unicode `White_Space`, which is what `str::trim` strips. */
  predicate IsWhitespace(c: char) {
    var n := c as int;
    || 0x9 <= n <= 0xd || n == 0x20 || n == 0x85 || n == 0xa0 || n == 0x1680
    || 0x2000 <= n <= 0x200a || n == 0x2028 || n == 0x2029 || n == 0x202f
    || n == 0x205f || n == 0x3000
  }

  function TrimStart(s: string): string {
    if s != "" && IsWhitespace(s[0]) then TrimStart(s[1..]) else s
  }

  function TrimEnd(s: string): string {
    if s != "" && IsWhitespace(s[|s| - 1]) then TrimEnd(s[..|s| - 1]) else s
  }

  function Trim(s: string): string {
    TrimEnd(TrimStart(s))
  }

  predicate IsBlank(s: string) {
    Trim(s) == ""
  }

  lemma {:induction false} TrimEndKeepsAPrefix(s: string)
    ensures TrimEnd(s) <= s
    ensures TrimEnd(s) != "" ==> !IsWhitespace(TrimEnd(s)[|TrimEnd(s)| - 1])
  {
    if s != "" && IsWhitespace(s[|s| - 1]) {
      TrimEndKeepsAPrefix(s[..|s| - 1]);
    }
  }

  lemma {:induction false} TrimStartDropsLeadingSpace(s: string)
    ensures TrimStart(s) != "" ==> !IsWhitespace(TrimStart(s)[0])
  {
    if s != "" && IsWhitespace(s[0]) {
      TrimStartDropsLeadingSpace(s[1..]);
    }
  }

  predicate AllSpace(s: string) {
    forall i :: 0 <= i < |s| ==> IsWhitespace(s[i])
  }

  /** The code points stripped, one by one. */
  lemma WhitespaceIs(c: char)
    ensures IsWhitespace(c) <==>
      c as int in {0x9, 0xa, 0xb, 0xc, 0xd, 0x20, 0x85, 0xa0, 0x1680, 0x2000, 0x2001, 0x2002, 0x2003, 0x2004, 0x2005,
                   0x2006, 0x2007, 0x2008, 0x2009, 0x200a, 0x2028, 0x2029, 0x202f, 0x205f, 0x3000}
  {
  }

  lemma {:induction false} StartStripped(s: string) returns (before: string)
    ensures s == before + TrimStart(s) && AllSpace(before)
  {
    before := "";
    if s != "" && IsWhitespace(s[0]) {
      before := StartStripped(s[1..]);
      before := [s[0]] + before;
    }
  }

  lemma {:induction false} EndStripped(s: string) returns (after: string)
    ensures s == TrimEnd(s) + after && AllSpace(after)
  {
    after := "";
    if s != "" && IsWhitespace(s[|s| - 1]) {
      after := EndStripped(s[..|s| - 1]);
      after := after + [s[|s| - 1]];
    }
  }

  /** Trimming takes white space off both ends, and all of it; what it leaves neither starts nor
      ends with any. */
  lemma TrimStrips(s: string) returns (before: string, after: string)
    ensures s == before + Trim(s) + after && AllSpace(before) && AllSpace(after)
    ensures Trim(s) != "" ==> !IsWhitespace(Trim(s)[0]) && !IsWhitespace(Trim(s)[|Trim(s)| - 1])
  {
    before := StartStripped(s);
    after := EndStripped(TrimStart(s));
    TrimStartDropsLeadingSpace(s);
    TrimEndKeepsAPrefix(TrimStart(s));
    assert s == before + (Trim(s) + after);
  }

  lemma BlankIff(s: string)
    ensures IsBlank(s) <==> AllSpace(s)
  {
    var before, after := TrimStrips(s);
    if Trim(s) != "" {
      assert s[|before|] == Trim(s)[0];
    }
  }

  /** Trimming twice is trimming once, so a name trimmed at construction is stable when a
      later constructor trims it again. */
  lemma TrimIsIdempotent(s: string)
    ensures Trim(Trim(s)) == Trim(s)
  {
    TrimStartDropsLeadingSpace(s);
    TrimEndKeepsAPrefix(TrimStart(s));
    var t := Trim(s);
    assert TrimStart(t) == t;
  }

  // ----- Decimal and hexadecimal rendering ---------------------------------

  function DigitChar(d: nat): (c: char)
    requires d < 16
    ensures DigitValue(c) == d
  {
    "0123456789abcdef"[d]
  }

  function DigitValue(c: char): nat {
    if '0' <= c <= '9' then c as int - '0' as int
    else if 'a' <= c <= 'f' then c as int - 'a' as int + 10
    else 0
  }

  /** `n.to_string()`. */
  function Decimal(n: nat): (s: string)
    ensures s != ""
  {
    if n < 10 then [DigitChar(n)] else Decimal(n / 10) + [DigitChar(n % 10)]
  }

  predicate AllDigits(s: string) {
    forall i :: 0 <= i < |s| ==> '0' <= s[i] <= '9'
  }

  function ValueInBase(s: string, base: nat): nat {
    if s == "" then 0 else base * ValueInBase(s[..|s| - 1], base) + DigitValue(s[|s| - 1])
  }

  lemma {:induction false} DecimalReadsBack(n: nat)
    ensures ValueInBase(Decimal(n), 10) == n
    ensures AllDigits(Decimal(n))
    ensures Decimal(n)[0] == '0' <==> n == 0
  {
    if n >= 10 {
      DecimalReadsBack(n / 10);
      assert Decimal(n)[..|Decimal(n)| - 1] == Decimal(n / 10);
    } else {
      assert Decimal(n)[..0] == "";
    }
  }

  lemma DecimalIsInjective(m: nat, n: nat)
    requires Decimal(m) == Decimal(n)
    ensures m == n
  {
    DecimalReadsBack(m);
    DecimalReadsBack(n);
  }

  /** `format!("{n:0width$x}")` for a value that fits the width. */
  function Hex(n: nat, width: nat): (s: string)
    ensures |s| == width
  {
    if width == 0 then "" else Hex(n / 16, width - 1) + [DigitChar(n % 16)]
  }

  predicate AllHex(s: string) {
    forall i :: 0 <= i < |s| ==> '0' <= s[i] <= '9' || 'a' <= s[i] <= 'f'
  }

  function Pow16(k: nat): nat {
    if k == 0 then 1 else 16 * Pow16(k - 1)
  }

  lemma {:induction false} HexReadsBack(n: nat, width: nat)
    requires n < Pow16(width)
    ensures ValueInBase(Hex(n, width), 16) == n
    ensures AllHex(Hex(n, width))
  {
    if width > 0 {
      HexReadsBack(n / 16, width - 1);
      assert Hex(n, width)[..width - 1] == Hex(n / 16, width - 1);
    }
  }

  // ----- UTF-8 -------------------------------------------------------------

  /** The UTF-8 form of one scalar value (RFC 3629, section 3). */
  function EncodeChar(c: char): (bytes: seq<Byte>)
    ensures |bytes| >= 1
  {
    var n := c as int;
    if n < 0x80 then [n]
    else if n < 0x800 then [0xc0 + n / 0x40, 0x80 + n % 0x40]
    else if n < 0x1_0000 then [0xe0 + n / 0x1000, 0x80 + n / 0x40 % 0x40, 0x80 + n % 0x40]
    else [0xf0 + n / 0x4_0000, 0x80 + n / 0x1000 % 0x40, 0x80 + n / 0x40 % 0x40, 0x80 + n % 0x40]
  }

  function Utf8(s: string): seq<Byte> {
    if s == "" then [] else EncodeChar(s[0]) + Utf8(s[1..])
  }

  /** The number of bytes the lead byte announces. */
  function SequenceLength(lead: Byte): nat {
    if lead < 0x80 then 1 else if lead < 0xe0 then 2 else if lead < 0xf0 then 3 else 4
  }

  function DecodeChar(bytes: seq<Byte>): int
    requires bytes != [] && |bytes| == SequenceLength(bytes[0])
  {
    if |bytes| == 1 then bytes[0]
    else if |bytes| == 2 then (bytes[0] as int - 0xc0) * 0x40 + (bytes[1] as int - 0x80)
    else if |bytes| == 3 then ((bytes[0] as int - 0xe0) * 0x40 + (bytes[1] as int - 0x80)) * 0x40 + (bytes[2] as int - 0x80)
    else (((bytes[0] as int - 0xf0) * 0x40 + (bytes[1] as int - 0x80)) * 0x40 + (bytes[2] as int - 0x80)) * 0x40
         + (bytes[3] as int - 0x80)
  }

  lemma CharReadsBack(c: char)
    ensures |EncodeChar(c)| == SequenceLength(EncodeChar(c)[0])
    ensures DecodeChar(EncodeChar(c)) == c as int
  {
    var n := c as int;
    assert n / 0x40 / 0x40 == n / 0x1000;
    assert n / 0x1000 / 0x40 == n / 0x4_0000;
  }

  /** The table of RFC 3629, section 3: the shortest form for each range of scalar values, its
      lead byte, and the continuation bytes. */
  lemma EncodingIsUtf8(c: char)
    ensures var bytes, n := EncodeChar(c), c as int;
            && |bytes| == (if n <= 0x7f then 1 else if n <= 0x7ff then 2 else if n <= 0xffff then 3 else 4)
            && (|bytes| == 2 ==> 0xc2 <= bytes[0] <= 0xdf)
            && (|bytes| == 3 ==> 0xe0 <= bytes[0] <= 0xef)
            && (|bytes| == 4 ==> 0xf0 <= bytes[0] <= 0xf4)
            && forall i :: 1 <= i < |bytes| ==> 0x80 <= bytes[i] <= 0xbf
  {
  }

  /** No character's encoding is a proper prefix of another's. */
  lemma CharEncodingIsPrefixFree(c: char, x: seq<Byte>, d: char, y: seq<Byte>)
    requires EncodeChar(c) + x == EncodeChar(d) + y
    ensures c == d && x == y
  {
    var all := EncodeChar(c) + x;
    CharReadsBack(c);
    CharReadsBack(d);
    assert all[0] == EncodeChar(c)[0] == EncodeChar(d)[0];
    var k := |EncodeChar(c)|;
    assert all[..k] == EncodeChar(c) == EncodeChar(d);
    assert all[k..] == x == y;
  }

  lemma {:induction false} Utf8IsInjective(s: string, t: string)
    requires Utf8(s) == Utf8(t)
    ensures s == t
  {
    if s != "" && t != "" {
      CharEncodingIsPrefixFree(s[0], Utf8(s[1..]), t[0], Utf8(t[1..]));
      Utf8IsInjective(s[1..], t[1..]);
    }
  }

  lemma Regroup(a: seq<Byte>, b: seq<Byte>, c: seq<Byte>)
    ensures a + (b + c) == a + b + c
  {
  }

  lemma {:induction false} Utf8Concatenates(s: string, t: string)
    ensures Utf8(s + t) == Utf8(s) + Utf8(t)
  {
    hide EncodeChar;
    if s == "" {
      assert s + t == t;
    } else {
      Utf8Concatenates(s[1..], t);
      assert (s + t)[0] == s[0] && (s + t)[1..] == s[1..] + t;
      Regroup(EncodeChar(s[0]), Utf8(s[1..]), Utf8(t));
    }
  }

  /** Two texts that start one shared text and take the same number of bytes are equal. */
  lemma {:induction false} ByteLengthCutsOnce(a: string, x: string, b: string, y: string)
    requires a + x == b + y
    requires |Utf8(a)| == |Utf8(b)|
    ensures a == b && x == y
  {
    if a == "" || b == "" {
      assert a == b == "";
      assert a + x == x && b + y == y;
    } else {
      assert (a + x)[0] == a[0] && (b + y)[0] == b[0];
      assert (a + x)[1..] == a[1..] + x && (b + y)[1..] == b[1..] + y;
      ByteLengthCutsOnce(a[1..], x, b[1..], y);
    }
  }
}
