/** The self-delimiting encodings that are concatenated before hashing. */
module Encoding {
  import opened Text

  /** `value` behind its byte length: `"{len}:{value}"`. */
  function LengthPrefixed(value: string): string {
    Decimal(|Utf8(value)|) + ":" + value
  }

  /** An optional field, with absent and empty kept apart. */
  function PresenceTagged(field: Option<string>): string {
    match field
    case None => "N"
    case Some(text) => "S" + LengthPrefixed(text)
  }

  function LengthPrefixedAll(values: seq<string>): string {
    if values == [] then "" else LengthPrefixed(values[0]) + LengthPrefixedAll(values[1..])
  }

  function PresenceTaggedAll(fields: seq<Option<string>>): string {
    if fields == [] then "" else PresenceTagged(fields[0]) + PresenceTaggedAll(fields[1..])
  }

  /** Digits up to a separator that is not a digit can be read in one way only. */
  lemma {:induction false} DigitsEndAtSeparator(d: string, x: string, e: string, y: string, sep: char)
    requires AllDigits(d) && AllDigits(e) && !('0' <= sep <= '9')
    requires d + [sep] + x == e + [sep] + y
    ensures d == e && x == y
  {
    var left, right := d + [sep] + x, e + [sep] + y;
    if d != "" { assert left[0] == d[0]; }
    if e != "" { assert right[0] == e[0]; }
    if d == "" && e == "" {
      assert left[1..] == x && right[1..] == y;
    } else if d == "" {
      assert false;
    } else if e == "" {
      assert false;
    } else {
      assert left[1..] == d[1..] + [sep] + x && right[1..] == e[1..] + [sep] + y;
      DigitsEndAtSeparator(d[1..], x, e[1..], y, sep);
    }
  }

  /** A length-prefixed text is cut from whatever follows it in one way only, whatever
      either of them contains. */
  lemma LengthPrefixedIsSelfDelimiting(a: string, x: string, b: string, y: string)
    requires LengthPrefixed(a) + x == LengthPrefixed(b) + y
    ensures a == b && x == y
  {
    var m, n := |Utf8(a)|, |Utf8(b)|;
    DecimalReadsBack(m);
    DecimalReadsBack(n);
    assert LengthPrefixed(a) + x == Decimal(m) + [':'] + (a + x);
    assert LengthPrefixed(b) + y == Decimal(n) + [':'] + (b + y);
    DigitsEndAtSeparator(Decimal(m), a + x, Decimal(n), b + y, ':');
    ByteLengthCutsOnce(a, x, b, y);
  }

  lemma PresenceTaggedIsSelfDelimiting(a: Option<string>, x: string, b: Option<string>, y: string)
    requires PresenceTagged(a) + x == PresenceTagged(b) + y
    ensures a == b && x == y
  {
    TagIsFirst(a, x);
    TagIsFirst(b, y);
    if a.Some? && b.Some? {
      LengthPrefixedIsSelfDelimiting(a.value, x, b.value, y);
    }
  }

  lemma TagIsFirst(field: Option<string>, rest: string)
    ensures var all := PresenceTagged(field) + rest;
            && all[0] == (if field.None? then 'N' else 'S')
            && all[1..] == (if field.None? then rest else LengthPrefixed(field.value) + rest)
  {
    if field.Some? {
      var body := LengthPrefixed(field.value);
      assert ("S" + body + rest)[1..] == body + rest;
    }
  }

  /** A concatenation of length-prefixed texts gives back its list, even its length. */
  lemma {:induction false} LengthPrefixedAllIsInjective(a: seq<string>, b: seq<string>)
    requires LengthPrefixedAll(a) == LengthPrefixedAll(b)
    ensures a == b
  {
    if a != [] && b != [] {
      LengthPrefixedIsSelfDelimiting(a[0], LengthPrefixedAll(a[1..]), b[0], LengthPrefixedAll(b[1..]));
      LengthPrefixedAllIsInjective(a[1..], b[1..]);
    }
  }

  lemma {:induction false} PresenceTaggedAllIsInjective(a: seq<Option<string>>, b: seq<Option<string>>)
    requires PresenceTaggedAll(a) == PresenceTaggedAll(b)
    ensures a == b
  {
    if a != [] && b != [] {
      PresenceTaggedIsSelfDelimiting(a[0], PresenceTaggedAll(a[1..]), b[0], PresenceTaggedAll(b[1..]));
      PresenceTaggedAllIsInjective(a[1..], b[1..]);
    }
  }
}
