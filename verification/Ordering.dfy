/** The order ordered maps and sets of text iterate in. */
module Ordering {
  import opened Text

  /** Lexicographic by code point. */
  predicate Before(a: string, b: string) {
    if b == "" then false
    else if a == "" then true
    else if a[0] != b[0] then a[0] < b[0]
    else Before(a[1..], b[1..])
  }

  lemma {:induction false} BeforeIsTotal(a: string, b: string)
    ensures a == b || Before(a, b) || Before(b, a)
  {
    if a != "" && b != "" && a[0] == b[0] {
      BeforeIsTotal(a[1..], b[1..]);
      assert a == [a[0]] + a[1..] && b == [b[0]] + b[1..];
    }
  }

  lemma {:induction false} BeforeIsStrict(a: string, b: string)
    requires Before(a, b)
    ensures !Before(b, a) && a != b
  {
    if a != "" && b != "" && a[0] == b[0] {
      BeforeIsStrict(a[1..], b[1..]);
    }
  }

  lemma {:induction false} BeforeIsTransitive(a: string, b: string, c: string)
    requires Before(a, b) && Before(b, c)
    ensures Before(a, c)
  {
    if a != "" && b != "" && c != "" && a[0] == b[0] == c[0] {
      BeforeIsTransitive(a[1..], b[1..], c[1..]);
    }
  }

  /** A text comes before another exactly when it is a proper prefix of it, or has the smaller
      code point where they first differ. */
  lemma {:induction false} BeforeIff(a: string, b: string)
    ensures Before(a, b) <==> exists k :: FirstDifference(a, b, k)
  {
    if a == "" && b != "" {
      assert FirstDifference(a, b, 0);
    } else if a != "" && b != "" && a[0] != b[0] {
      if a[0] < b[0] {
        assert FirstDifference(a, b, 0);
      }
      forall k | FirstDifference(a, b, k) ensures k == 0 {
        if k > 0 {
          SameStart(a, b, k);
        }
      }
    } else if a != "" && b != "" {
      BeforeIff(a[1..], b[1..]);
      if k :| FirstDifference(a[1..], b[1..], k) {
        assert a[..k + 1] == [a[0]] + a[1..][..k] && b[..k + 1] == [b[0]] + b[1..][..k];
        assert FirstDifference(a, b, k + 1);
      }
      if k :| FirstDifference(a, b, k) {
        assert a[1..][..k - 1] == a[..k][1..] && b[1..][..k - 1] == b[..k][1..];
        assert FirstDifference(a[1..], b[1..], k - 1);
      }
    }
  }

  lemma SameStart(a: string, b: string, k: nat)
    requires 0 < k <= |a| && k <= |b| && a[..k] == b[..k]
    ensures a[0] == b[0]
  {
    assert a[0] == a[..k][0] && b[0] == b[..k][0];
  }

  predicate FirstDifference(a: string, b: string, k: int) {
    && 0 <= k <= |a| && k < |b| && a[..k] == b[..k]
    && (k == |a| || a[k] < b[k])
  }

  /** Lexicographic by byte, as the program's own strings are compared. */
  predicate BytesBefore(a: seq<Byte>, b: seq<Byte>) {
    if b == [] then false
    else if a == [] then true
    else if a[0] != b[0] then a[0] < b[0]
    else BytesBefore(a[1..], b[1..])
  }

  lemma {:induction false} SharedStart(p: seq<Byte>, a: seq<Byte>, b: seq<Byte>)
    ensures BytesBefore(p + a, p + b) <==> BytesBefore(a, b)
  {
    if p == [] {
      assert p + a == a && p + b == b;
    } else {
      SharedStart(p[1..], a, b);
      assert (p + a)[1..] == p[1..] + a && (p + b)[1..] == p[1..] + b;
    }
  }

  lemma {:induction false} SmallerAt(a: seq<Byte>, b: seq<Byte>, k: nat)
    requires k < |a| && k < |b| && a[..k] == b[..k] && a[k] < b[k]
    ensures BytesBefore(a, b)
  {
    if k > 0 {
      assert a[0] == a[..k][0] == b[..k][0];
      assert a[1..][..k - 1] == a[..k][1..] == b[..k][1..] == b[1..][..k - 1];
      SmallerAt(a[1..], b[1..], k - 1);
    }
  }

  /** Where the encodings of two characters first differ, the smaller character has the smaller
      byte. */
  lemma SmallerCharacter(c: char, d: char, x: seq<Byte>, y: seq<Byte>)
    requires c < d
    ensures BytesBefore(EncodeChar(c) + x, EncodeChar(d) + y)
  {
    var a, b := EncodeChar(c), EncodeChar(d);
    var k := CharactersDifferAt(c, d);
    assert (a + x)[..k] == a[..k] && (b + y)[..k] == b[..k];
    SmallerAt(a + x, b + y, k);
  }

  lemma CharactersDifferAt(c: char, d: char) returns (k: nat)
    requires c < d
    ensures var a, b := EncodeChar(c), EncodeChar(d);
            k < |a| && k < |b| && a[..k] == b[..k] && a[k] < b[k]
  {
    var a, b := EncodeChar(c), EncodeChar(d);
    CharReadsBack(c);
    CharReadsBack(d);
    EncodingIsUtf8(c);
    EncodingIsUtf8(d);
    k := if a[0] != b[0] then 0 else if a[1] != b[1] then 1 else if a[2] != b[2] then 2 else 3;
    assert a[..k] == b[..k];
  }

  /** The order of the code points is the order of the UTF-8 bytes. */
  lemma {:induction false} BeforeIsTheByteOrder(a: string, b: string)
    ensures Before(a, b) <==> BytesBefore(Utf8(a), Utf8(b))
  {
    hide EncodeChar;
    if a != "" && b != "" {
      if a[0] == b[0] {
        SharedStart(EncodeChar(a[0]), Utf8(a[1..]), Utf8(b[1..]));
        BeforeIsTheByteOrder(a[1..], b[1..]);
      } else if a[0] < b[0] {
        SmallerCharacter(a[0], b[0], Utf8(a[1..]), Utf8(b[1..]));
      } else {
        SmallerCharacter(b[0], a[0], Utf8(b[1..]), Utf8(a[1..]));
        BytesBeforeIsStrict(Utf8(b), Utf8(a));
      }
    }
  }

  lemma {:induction false} BytesBeforeIsStrict(a: seq<Byte>, b: seq<Byte>)
    requires BytesBefore(a, b)
    ensures !BytesBefore(b, a)
  {
    if a != [] && b != [] && a[0] == b[0] {
      BytesBeforeIsStrict(a[1..], b[1..]);
    }
  }

  predicate IsFirst(m: string, s: set<string>) {
    m in s && forall x :: x in s ==> x == m || Before(m, x)
  }

  lemma {:induction false} HasFirst(s: set<string>) returns (m: string)
    requires s != {}
    ensures IsFirst(m, s)
    decreases |s|
  {
    var x :| x in s;
    if s == {x} {
      m := x;
    } else {
      var rest := s - {x};
      var y := HasFirst(rest);
      BeforeIsTotal(x, y);
      m := if Before(x, y) then x else y;
      forall z | z in s ensures z == m || Before(m, z) {
        if z != x && z != y && m == x {
          BeforeIsTransitive(x, y, z);
        }
      }
    }
  }

  lemma FirstIsUnique(a: string, b: string, s: set<string>)
    requires IsFirst(a, s) && IsFirst(b, s)
    ensures a == b
  {
    if a != b {
      BeforeIsStrict(a, b);
    }
  }

  /** The elements of a set, each once, in order. */
  function InOrder(s: set<string>): (ids: seq<string>)
    ensures forall x :: x in s <==> x in ids
    ensures |ids| == |s|
    decreases |s|
  {
    if s == {} then []
    else
      assert exists m :: IsFirst(m, s) by { var m := HasFirst(s); }
      assert forall a, b :: IsFirst(a, s) && IsFirst(b, s) ==> a == b by {
        forall a, b | IsFirst(a, s) && IsFirst(b, s) ensures a == b {
          FirstIsUnique(a, b, s);
        }
      }
      var m :| IsFirst(m, s);
      [m] + InOrder(s - {m})
  }

  lemma FirstInOrder(s: set<string>)
    requires s != {}
    ensures IsFirst(InOrder(s)[0], s) && InOrder(s)[1..] == InOrder(s - {InOrder(s)[0]})
  {
    hide Before;
  }

  predicate Increasing(ids: seq<string>) {
    forall i, j :: 0 <= i < j < |ids| ==> Before(ids[i], ids[j])
  }

  lemma {:induction false} InOrderIsIncreasing(s: set<string>)
    ensures Increasing(InOrder(s))
    decreases |s|
  {
    if s != {} {
      hide Before, InOrder;
      FirstInOrder(s);
      InOrderIsIncreasing(s - {InOrder(s)[0]});
    }
  }

  lemma IncreasingIsDistinct(ids: seq<string>)
    requires Increasing(ids)
    ensures Distinct(ids)
  {
    forall i, j | 0 <= i < j < |ids| ensures ids[i] != ids[j] {
      BeforeIsStrict(ids[i], ids[j]);
    }
  }

  // ----- Lists as sets -----------------------------------------------------

  function Elements(ids: seq<string>): set<string> {
    if ids == [] then {} else Elements(ids[..|ids| - 1]) + {ids[|ids| - 1]}
  }

  lemma {:induction false} ElementsAreMembers(ids: seq<string>)
    ensures forall x :: x in Elements(ids) <==> x in ids
  {
    if ids != [] {
      var n := |ids| - 1;
      ElementsAreMembers(ids[..n]);
      assert ids == ids[..n] + [ids[n]];
    }
  }

  lemma OrderedElements(s: set<string>)
    ensures Elements(InOrder(s)) == s
  {
    ElementsAreMembers(InOrder(s));
  }

  predicate Distinct(ids: seq<string>) {
    forall i, j :: 0 <= i < j < |ids| ==> ids[i] != ids[j]
  }

  lemma LastIsNew(ids: seq<string>)
    requires ids != [] && Distinct(ids)
    ensures Distinct(ids[..|ids| - 1]) && ids[|ids| - 1] !in Elements(ids[..|ids| - 1])
  {
    ElementsAreMembers(ids[..|ids| - 1]);
  }

  lemma OrderedIsDistinct(s: set<string>)
    ensures Distinct(InOrder(s))
  {
    InOrderIsIncreasing(s);
    IncreasingIsDistinct(InOrder(s));
  }

  lemma CountOneMore(s: set<string>, x: string, d: set<string>)
    requires x !in s
    ensures |(s + {x}) * d| == |s * d| + if x in d then 1 else 0
  {
    if x in d {
      assert (s + {x}) * d == s * d + {x};
    } else {
      assert (s + {x}) * d == s * d;
    }
  }

  lemma CountDisjoint(s: set<string>, t: set<string>)
    requires s !! t
    ensures |s + t| == |s| + |t|
  {
  }
}
