/** The multi-writer check: availability markers that different writers put into the store
    within one hour of each other. */
module WriterAudit {
  import opened Ordering

  datatype WriterIdentity = WriterIdentity(pid: nat, exePath: string, cwd: string, buildSha: string) {
    /** A restart of the same binary is the same writer. */
    function Key(): WriterKey {
      WriterKey(buildSha, exePath)
    }
  }

  /** Two identities are one writer exactly when build and executable agree, whatever their
      process and working directory. */
  lemma SameWriterIff(a: WriterIdentity, b: WriterIdentity)
    ensures a.Key() == b.Key() <==> a.buildSha == b.buildSha && a.exePath == b.exePath
    ensures a.Key().buildSha == a.buildSha && a.Key().exePath == a.exePath
  {
  }

  datatype WriterKey = WriterKey(buildSha: string, exePath: string)

  /** A marker with a full identity, at a time in nanoseconds. */
  datatype Marker = Marker(writer: WriterIdentity, time: int)

  const WINDOW: int := 3600 * 1_000_000_000

  // ----- The definition ----------------------------------------------------

  predicate Near(a: Marker, b: Marker) {
    -WINDOW <= a.time - b.time <= WINDOW
  }

  /** Two markers of different writers at most an hour apart, the first of them by `key`. */
  predicate Clash(a: Marker, b: Marker, key: WriterKey) {
    Near(a, b) && a.writer.Key() == key && b.writer.Key() != key
  }

  ghost predicate Flagged(markers: seq<Marker>, key: WriterKey) {
    exists a, b :: a in markers && b in markers && Clash(a, b, key)
  }

  function CountOf(markers: seq<Marker>, key: WriterKey): nat {
    if markers == [] then 0
    else CountOf(markers[..|markers| - 1], key) + if markers[|markers| - 1].writer.Key() == key then 1 else 0
  }

  // ----- Sorting and searching ---------------------------------------------

  predicate Chronological(markers: seq<Marker>) {
    forall i, j :: 0 <= i < j < |markers| ==> markers[i].time <= markers[j].time
  }

  /** Put one marker behind those that are not later. */
  method InsertByTime(m: Marker, sorted: seq<Marker>) returns (r: seq<Marker>)
    requires Chronological(sorted)
    ensures Chronological(r) && multiset(r) == multiset(sorted) + multiset{m}
  {
    var p := |sorted|;
    while p > 0 && sorted[p - 1].time > m.time
      invariant 0 <= p <= |sorted|
      invariant forall i :: p <= i < |sorted| ==> sorted[i].time > m.time
    {
      p := p - 1;
    }
    MembersWithOneMore(sorted, p, m);
    r := sorted[..p] + [m] + sorted[p..];
  }

  lemma MembersWithOneMore(markers: seq<Marker>, p: nat, m: Marker)
    requires p <= |markers|
    ensures multiset(markers[..p] + [m] + markers[p..]) == multiset(markers) + multiset{m}
  {
    assert markers == markers[..p] + markers[p..];
  }

  lemma MembersWithoutOne(markers: seq<Marker>, k: nat)
    requires k < |markers|
    ensures multiset(markers[..k] + markers[k + 1..]) == multiset(markers) - multiset{markers[k]}
  {
    assert markers == markers[..k] + [markers[k]] + markers[k + 1..];
  }

  /** A stable sort by time. */
  method SortByTime(markers: seq<Marker>) returns (sorted: seq<Marker>)
    ensures Chronological(sorted) && multiset(sorted) == multiset(markers)
  {
    sorted := [];
    for i := 0 to |markers|
      invariant Chronological(sorted) && multiset(sorted) == multiset(markers[..i])
    {
      assert markers[..i + 1] == markers[..i] + [markers[i]];
      sorted := InsertByTime(markers[i], sorted);
    }
    assert markers[..|markers|] == markers;
  }

  /** `partition_point`: how many leading markers are more than the window before `end`. */
  method WindowStart(sorted: seq<Marker>, end: nat) returns (start: nat)
    requires Chronological(sorted) && end < |sorted|
    ensures start <= end
    ensures forall i :: 0 <= i < start ==> sorted[end].time - sorted[i].time > WINDOW
    ensures forall i :: start <= i < |sorted| ==> sorted[end].time - sorted[i].time <= WINDOW
  {
    var lo, hi := 0, |sorted|;
    while lo < hi
      invariant 0 <= lo <= hi <= |sorted|
      invariant forall i :: 0 <= i < lo ==> sorted[end].time - sorted[i].time > WINDOW
      invariant forall i :: hi <= i < |sorted| ==> sorted[end].time - sorted[i].time <= WINDOW
    {
      var mid := lo + (hi - lo) / 2;
      if sorted[end].time - sorted[mid].time > WINDOW {
        lo := mid + 1;
      } else {
        hi := mid;
      }
    }
    start := lo;
    assert sorted[end].time - sorted[end].time <= WINDOW;
  }

  // ----- The sliding window ------------------------------------------------

  function KeysIn(markers: seq<Marker>): set<WriterKey> {
    set m | m in markers :: m.writer.Key()
  }

  /** The union of the windows that hold more than one writer is the set of flagged writers. */
  method FlaggedKeys(sorted: seq<Marker>) returns (flagged: set<WriterKey>)
    requires Chronological(sorted)
    ensures forall key :: key in flagged <==> Flagged(sorted, key)
  {
    flagged := {};
    for end := 0 to |sorted|
      invariant forall key :: key in flagged <==> Flagged(sorted[..end], key)
    {
      var start := WindowStart(sorted, end);
      var distinct := KeysIn(sorted[start..end + 1]);
      ghost var before := flagged;
      if |distinct| > 1 {
        flagged := flagged + distinct;
      }
      forall key ensures key in flagged <==> Flagged(sorted[..end + 1], key) {
        OneMoreMarker(sorted, start, end, before, key);
      }
    }
    assert sorted[..|sorted|] == sorted;
  }

  lemma OneMoreMarker(sorted: seq<Marker>, start: nat, end: nat, before: set<WriterKey>, key: WriterKey)
    requires Chronological(sorted) && start <= end < |sorted|
    requires forall i :: 0 <= i < start ==> sorted[end].time - sorted[i].time > WINDOW
    requires forall i :: start <= i < |sorted| ==> sorted[end].time - sorted[i].time <= WINDOW
    requires forall k :: k in before <==> Flagged(sorted[..end], k)
    ensures var distinct := KeysIn(sorted[start..end + 1]);
            Flagged(sorted[..end + 1], key) <==> key in before || (|distinct| > 1 && key in distinct)
  {
    hide Flagged, KeysIn;
    var distinct := KeysIn(sorted[start..end + 1]);
    if Flagged(sorted[..end + 1], key) && key !in before {
      NewClashIsInTheWindow(sorted, start, end, key);
    }
    if Flagged(sorted[..end], key) {
      FlaggedStays(sorted, end, key);
    }
    if |distinct| > 1 && key in distinct {
      WindowFlags(sorted, start, end, key);
    }
  }

  lemma FlaggedStays(sorted: seq<Marker>, end: nat, key: WriterKey)
    requires end < |sorted| && Flagged(sorted[..end], key)
    ensures Flagged(sorted[..end + 1], key)
  {
    assert sorted[..end + 1] == sorted[..end] + [sorted[end]];
  }

  lemma WindowFlags(sorted: seq<Marker>, start: nat, end: nat, key: WriterKey)
    requires Chronological(sorted) && start <= end < |sorted|
    requires forall i :: start <= i < |sorted| ==> sorted[end].time - sorted[i].time <= WINDOW
    requires var distinct := KeysIn(sorted[start..end + 1]); |distinct| > 1 && key in distinct
    ensures Flagged(sorted[..end + 1], key)
  {
    var window := sorted[start..end + 1];
    var other := AnotherKey(KeysIn(window), key);
    var a :| a in window && a.writer.Key() == key;
    var b :| b in window && b.writer.Key() == other;
    WindowIsNear(sorted, start, end, a, b);
    WindowIsRead(sorted, start, end, a);
    WindowIsRead(sorted, start, end, b);
    assert Clash(a, b, key);
  }

  lemma WindowIsRead(sorted: seq<Marker>, start: nat, end: nat, m: Marker)
    requires start <= end < |sorted| && m in sorted[start..end + 1]
    ensures m in sorted[..end + 1]
  {
    var i :| start <= i <= end && sorted[i] == m;
    assert sorted[..end + 1][i] == m;
  }

  lemma AnotherKey(keys: set<WriterKey>, key: WriterKey) returns (other: WriterKey)
    requires |keys| > 1 && key in keys
    ensures other in keys && other != key
  {
    assert keys == {key} + (keys - {key});
    other :| other in keys - {key};
  }

  lemma WindowIsNear(sorted: seq<Marker>, start: nat, end: nat, a: Marker, b: Marker)
    requires Chronological(sorted) && start <= end < |sorted|
    requires forall i :: start <= i < |sorted| ==> sorted[end].time - sorted[i].time <= WINDOW
    requires a in sorted[start..end + 1] && b in sorted[start..end + 1]
    ensures Near(a, b)
  {
    var i :| start <= i <= end && sorted[i] == a;
    var j :| start <= j <= end && sorted[j] == b;
  }

  lemma NewClashIsInTheWindow(sorted: seq<Marker>, start: nat, end: nat, key: WriterKey)
    requires Chronological(sorted) && start <= end < |sorted|
    requires forall i :: 0 <= i < start ==> sorted[end].time - sorted[i].time > WINDOW
    requires Flagged(sorted[..end + 1], key) && !Flagged(sorted[..end], key)
    ensures var distinct := KeysIn(sorted[start..end + 1]); |distinct| > 1 && key in distinct
  {
    var a, b :| a in sorted[..end + 1] && b in sorted[..end + 1] && Clash(a, b, key);
    var i :| 0 <= i <= end && sorted[i] == a;
    var j :| 0 <= j <= end && sorted[j] == b;
    OneIsLast(sorted, end, i, j, key);
    assert start <= i && start <= j;
    WindowHasBoth(sorted, start, end, i, j);
  }

  lemma WindowHasBoth(sorted: seq<Marker>, start: nat, end: nat, i: nat, j: nat)
    requires start <= i <= end < |sorted| && start <= j <= end
    requires sorted[i].writer.Key() != sorted[j].writer.Key()
    ensures var distinct := KeysIn(sorted[start..end + 1]); |distinct| > 1 && sorted[i].writer.Key() in distinct
  {
    var window := sorted[start..end + 1];
    assert window[i - start] == sorted[i] && window[j - start] == sorted[j];
    var both := {sorted[i].writer.Key(), sorted[j].writer.Key()};
    assert both <= KeysIn(window);
    SubsetSize(both, KeysIn(window));
  }

  lemma OneIsLast(sorted: seq<Marker>, end: nat, i: nat, j: nat, key: WriterKey)
    requires i <= end < |sorted| && j <= end && Clash(sorted[i], sorted[j], key)
    ensures Flagged(sorted[..end], key) || i == end || j == end
  {
    if i < end && j < end {
      assert sorted[i] == sorted[..end][i] && sorted[j] == sorted[..end][j];
    }
  }

  lemma SubsetSize(s: set<WriterKey>, t: set<WriterKey>)
    requires s <= t
    ensures |s| <= |t|
  {
    assert t == s + (t - s);
  }

  // ----- Counting ----------------------------------------------------------

  /** `count_by_writer_key`: each writer once, in order of first appearance, with its total. */
  method CountByWriterKey(markers: seq<Marker>) returns (order: seq<WriterKey>, counts: map<WriterKey, nat>)
    ensures forall key :: key in order <==> key in KeysIn(markers)
    ensures forall i, j :: 0 <= i < j < |order| ==> order[i] != order[j]
    ensures forall i, j :: 0 <= i < j < |order| ==> FirstMarkerOf(markers, order[i]) < FirstMarkerOf(markers, order[j])
    ensures counts.Keys == KeysIn(markers)
    ensures forall key :: key in counts ==> counts[key] == CountOf(markers, key)
  {
    hide SeenInOrder, CountOf, KeysIn;
    NothingSeen(markers);
    order, counts := [], map[];
    for i := 0 to |markers|
      invariant forall key :: key in order <==> key in counts
      invariant SeenInOrder(markers, order, i)
      invariant counts.Keys == KeysIn(markers[..i])
      invariant forall key :: key in counts ==> counts[key] == CountOf(markers[..i], key)
    {
      var key := markers[i].writer.Key();
      KeysOneMore(markers, i);
      OneMoreSeen(markers, order, i);
      if key !in counts {
        AbsentIsZero(markers[..i], key);
        order := order + [key];
      }
      counts := counts[key := (if key in counts then counts[key] else 0) + 1];
    }
    assert markers[..|markers|] == markers;
    SeenOnce(markers, order);
  }

  /** The position of a writer's first marker, or the number of markers if it has none. */
  function FirstMarkerOf(markers: seq<Marker>, key: WriterKey): nat {
    if markers == [] || markers[0].writer.Key() == key then 0 else 1 + FirstMarkerOf(markers[1..], key)
  }

  lemma {:induction false} FirstMarkerIs(markers: seq<Marker>, key: WriterKey, i: nat)
    requires i < |markers| && markers[i].writer.Key() == key && key !in KeysIn(markers[..i])
    ensures FirstMarkerOf(markers, key) == i
  {
    if i > 0 {
      assert markers[0] in markers[..i];
      assert forall m :: m in markers[1..][..i - 1] ==> m in markers[..i];
      FirstMarkerIs(markers[1..], key, i - 1);
    }
  }

  /** The keys stand in the order of their first markers, all of which are among the first `n`. */
  predicate SeenInOrder(markers: seq<Marker>, order: seq<WriterKey>, n: nat) {
    && (forall i :: 0 <= i < |order| ==> FirstMarkerOf(markers, order[i]) < n)
    && (forall i, j :: 0 <= i < j < |order| ==> FirstMarkerOf(markers, order[i]) < FirstMarkerOf(markers, order[j]))
  }

  lemma NothingSeen(markers: seq<Marker>)
    ensures SeenInOrder(markers, [], 0) && KeysIn([]) == {} && forall key :: CountOf([], key) == 0
  {
  }

  lemma OneMoreSeen(markers: seq<Marker>, order: seq<WriterKey>, i: nat)
    requires i < |markers| && SeenInOrder(markers, order, i)
    ensures SeenInOrder(markers, order, i + 1)
    ensures markers[i].writer.Key() !in KeysIn(markers[..i]) ==>
      SeenInOrder(markers, order + [markers[i].writer.Key()], i + 1)
  {
    hide KeysIn, FirstMarkerOf;
    if markers[i].writer.Key() !in KeysIn(markers[..i]) {
      FirstMarkerIs(markers, markers[i].writer.Key(), i);
    }
  }

  lemma SeenOnce(markers: seq<Marker>, order: seq<WriterKey>)
    requires SeenInOrder(markers, order, |markers|)
    ensures forall i, j :: 0 <= i < j < |order| ==>
      FirstMarkerOf(markers, order[i]) < FirstMarkerOf(markers, order[j]) && order[i] != order[j]
  {
    hide FirstMarkerOf;
  }

  lemma KeysOneMore(markers: seq<Marker>, i: nat)
    requires i < |markers|
    ensures KeysIn(markers[..i + 1]) == KeysIn(markers[..i]) + {markers[i].writer.Key()}
    ensures forall key :: CountOf(markers[..i + 1], key)
                          == CountOf(markers[..i], key) + if markers[i].writer.Key() == key then 1 else 0
  {
    var key := markers[i].writer.Key();
    assert markers[..i + 1] == markers[..i] + [markers[i]];
    assert markers[..i + 1][..i] == markers[..i];
    assert markers[i] in markers[..i + 1];
    assert key in KeysIn(markers[..i + 1]);
  }

  lemma {:induction false} AbsentIsZero(markers: seq<Marker>, key: WriterKey)
    ensures key in KeysIn(markers) <==> CountOf(markers, key) > 0
  {
    if markers == [] {
    } else {
      var n := |markers| - 1;
      AbsentIsZero(markers[..n], key);
      KeysOneMore(markers, n);
      assert markers[..n + 1] == markers;
    }
  }

  lemma {:induction false} CountAdds(a: seq<Marker>, b: seq<Marker>, key: WriterKey)
    ensures CountOf(a + b, key) == CountOf(a, key) + CountOf(b, key)
  {
    if b == [] {
      assert a + b == a;
    } else {
      assert (a + b)[..|a + b| - 1] == a + b[..|b| - 1];
      CountAdds(a, b[..|b| - 1], key);
    }
  }

  lemma CountWithoutOne(markers: seq<Marker>, k: nat, key: WriterKey)
    requires k < |markers|
    ensures CountOf(markers, key)
            == CountOf(markers[..k] + markers[k + 1..], key) + if markers[k].writer.Key() == key then 1 else 0
  {
    assert markers == markers[..k] + [markers[k]] + markers[k + 1..];
    CountAdds(markers[..k], markers[k + 1..], key);
    CountAdds(markers[..k] + [markers[k]], markers[k + 1..], key);
    KeysOneMore(markers, k);
    assert markers[..k + 1] == markers[..k] + [markers[k]];
  }

  /** Counting ignores order. */
  lemma {:induction false} CountIgnoresOrder(a: seq<Marker>, b: seq<Marker>, key: WriterKey)
    requires multiset(a) == multiset(b)
    ensures CountOf(a, key) == CountOf(b, key)
    decreases |a|
  {
    if a == [] {
      assert |b| == |multiset(b)| == 0;
    } else {
      var k := PositionOf(a[0], a, b);
      MembersWithoutOne(a, 0);
      MembersWithoutOne(b, k);
      CountWithoutOne(a, 0, key);
      CountWithoutOne(b, k, key);
      CountIgnoresOrder(a[..0] + a[1..], b[..k] + b[k + 1..], key);
    }
  }

  lemma PositionOf(m: Marker, a: seq<Marker>, b: seq<Marker>) returns (k: nat)
    requires multiset(a) == multiset(b) && m in a
    ensures k < |b| && b[k] == m
  {
    assert m in multiset(b);
    k :| 0 <= k < |b| && b[k] == m;
  }

  lemma SameMembers(a: seq<Marker>, b: seq<Marker>)
    requires multiset(a) == multiset(b)
    ensures forall m :: m in a <==> m in b
  {
    forall m ensures m in a <==> m in b {
      assert m in multiset(a) <==> m in multiset(b);
    }
  }

  // ----- The finding -------------------------------------------------------

  predicate KeyBefore(a: WriterKey, b: WriterKey) {
    Before(a.buildSha, b.buildSha) || (a.buildSha == b.buildSha && Before(a.exePath, b.exePath))
  }

  lemma KeysAreOrdered(a: WriterKey, b: WriterKey)
    ensures a == b || KeyBefore(a, b) || KeyBefore(b, a)
    ensures KeyBefore(a, b) ==> !KeyBefore(b, a) && a != b
  {
    BeforeIsTotal(a.buildSha, b.buildSha);
    BeforeIsTotal(a.exePath, b.exePath);
    if KeyBefore(a, b) {
      if Before(a.buildSha, b.buildSha) {
        BeforeIsStrict(a.buildSha, b.buildSha);
      } else {
        BeforeIsStrict(a.exePath, b.exePath);
      }
    }
  }

  lemma KeyBeforeIsTransitive(a: WriterKey, b: WriterKey, c: WriterKey)
    requires KeyBefore(a, b) && KeyBefore(b, c)
    ensures KeyBefore(a, c)
  {
    if Before(a.buildSha, b.buildSha) && Before(b.buildSha, c.buildSha) {
      BeforeIsTransitive(a.buildSha, b.buildSha, c.buildSha);
    } else if a.buildSha == b.buildSha == c.buildSha {
      BeforeIsTransitive(a.exePath, b.exePath, c.exePath);
    }
  }

  /** A writer the finding names, and how many markers it wrote in all. */
  datatype Tally = Tally(key: WriterKey, count: nat)

  predicate InKeyOrder(tallies: seq<Tally>) {
    forall i, j :: 0 <= i < j < |tallies| ==> KeyBefore(tallies[i].key, tallies[j].key)
  }

  /** What the check reports: every flagged writer once, in order, with its total over all
      markers. No tallies stand for no finding. */
  ghost predicate IsFinding(markers: seq<Marker>, tallies: seq<Tally>) {
    && InKeyOrder(tallies)
    && (forall i :: 0 <= i < |tallies| ==>
          Flagged(markers, tallies[i].key) && tallies[i].count == CountOf(markers, tallies[i].key))
    && (forall key :: Flagged(markers, key) ==> exists i :: 0 <= i < |tallies| && tallies[i].key == key)
  }

  method InsertTally(t: Tally, tallies: seq<Tally>) returns (r: seq<Tally>)
    requires InKeyOrder(tallies)
    requires forall i :: 0 <= i < |tallies| ==> tallies[i].key != t.key
    ensures InKeyOrder(r)
    ensures forall x :: x in r <==> x == t || x in tallies
  {
    hide KeyBefore;
    var p := |tallies|;
    while p > 0 && KeyBefore(t.key, tallies[p - 1].key)
      invariant 0 <= p <= |tallies|
      invariant forall i :: p <= i < |tallies| ==> KeyBefore(t.key, tallies[i].key)
    {
      p := p - 1;
    }
    forall i | 0 <= i < p ensures KeyBefore(tallies[i].key, t.key) {
      KeysAreOrdered(tallies[p - 1].key, t.key);
      if i < p - 1 {
        KeyBeforeIsTransitive(tallies[i].key, tallies[p - 1].key, t.key);
      }
    }
    InsertedInOrder(tallies, p, t);
    r := tallies[..p] + [t] + tallies[p..];
  }

  lemma InsertedInOrder(tallies: seq<Tally>, p: nat, t: Tally)
    requires InKeyOrder(tallies) && p <= |tallies|
    requires forall i :: 0 <= i < p ==> KeyBefore(tallies[i].key, t.key)
    requires forall i :: p <= i < |tallies| ==> KeyBefore(t.key, tallies[i].key)
    ensures InKeyOrder(tallies[..p] + [t] + tallies[p..])
    ensures forall x :: x in tallies[..p] + [t] + tallies[p..] <==> x == t || x in tallies
  {
    hide KeyBefore;
    assert tallies == tallies[..p] + tallies[p..];
  }

  /** `multi_writer_findings`: sort, slide the window, count, keep the flagged, order by key. */
  method MultiWriterFindings(markers: seq<Marker>) returns (tallies: seq<Tally>)
    ensures IsFinding(markers, tallies)
  {
    var sorted := SortByTime(markers);
    var flagged := FlaggedKeys(sorted);
    var order, counts := CountByWriterKey(sorted);
    tallies := [];
    for i := 0 to |order|
      invariant InKeyOrder(tallies)
      invariant forall t :: t in tallies ==> t.key in order[..i] && t.key in flagged && t.count == CountOf(sorted, t.key)
      invariant forall k :: 0 <= k < i && order[k] in flagged ==> Tally(order[k], counts[order[k]]) in tallies
    {
      if order[i] in flagged {
        tallies := InsertTally(Tally(order[i], counts[order[i]]), tallies);
      }
    }
    FindingOfTheInput(markers, sorted, order, tallies);
  }

  lemma FlaggedIgnoresOrder(a: seq<Marker>, b: seq<Marker>, key: WriterKey)
    requires multiset(a) == multiset(b)
    ensures Flagged(a, key) <==> Flagged(b, key)
  {
    SameMembers(a, b);
    if Flagged(a, key) {
      var x, y :| x in a && y in a && Clash(x, y, key);
      assert x in b && y in b;
    }
    if Flagged(b, key) {
      var x, y :| x in b && y in b && Clash(x, y, key);
      assert x in a && y in a;
    }
  }

  lemma FlaggedWroteAMarker(markers: seq<Marker>, key: WriterKey)
    requires Flagged(markers, key)
    ensures key in KeysIn(markers)
  {
  }

  lemma FindingOfTheInput(markers: seq<Marker>, sorted: seq<Marker>, order: seq<WriterKey>, tallies: seq<Tally>)
    requires multiset(sorted) == multiset(markers) && InKeyOrder(tallies)
    requires forall key :: key in order <==> key in KeysIn(sorted)
    requires forall t :: t in tallies ==> Flagged(sorted, t.key) && t.count == CountOf(sorted, t.key)
    requires forall k :: 0 <= k < |order| && Flagged(sorted, order[k]) ==>
      Tally(order[k], CountOf(sorted, order[k])) in tallies
    ensures IsFinding(markers, tallies)
  {
    hide Flagged, CountOf, KeysIn;
    forall i | 0 <= i < |tallies|
      ensures Flagged(markers, tallies[i].key) && tallies[i].count == CountOf(markers, tallies[i].key)
    {
      assert tallies[i] in tallies;
      FlaggedIgnoresOrder(sorted, markers, tallies[i].key);
      CountIgnoresOrder(sorted, markers, tallies[i].key);
    }
    forall key | Flagged(markers, key) ensures exists i :: 0 <= i < |tallies| && tallies[i].key == key {
      FlaggedIgnoresOrder(sorted, markers, key);
      FlaggedWroteAMarker(sorted, key);
      var k :| 0 <= k < |order| && order[k] == key;
      var t := Tally(order[k], CountOf(sorted, order[k]));
      assert t in tallies;
      var i :| 0 <= i < |tallies| && tallies[i] == t;
    }
  }

  // ----- What the finding means --------------------------------------------

  /** The finding depends on which markers there are, not on the order they are read in. */
  lemma FindingIgnoresOrder(a: seq<Marker>, b: seq<Marker>, x: seq<Tally>, y: seq<Tally>)
    requires multiset(a) == multiset(b) && IsFinding(a, x) && IsFinding(b, y)
    ensures x == y
  {
    hide Flagged, CountOf, KeyBefore;
    FindingWithin(a, b, x, y);
    FindingWithin(b, a, y, x);
    SameTalliesSameList(x, y);
  }

  lemma FindingWithin(a: seq<Marker>, b: seq<Marker>, x: seq<Tally>, y: seq<Tally>)
    requires multiset(a) == multiset(b) && IsFinding(a, x) && IsFinding(b, y)
    ensures forall t :: t in x ==> t in y
  {
    hide Flagged, CountOf, KeyBefore;
    forall t | t in x ensures t in y {
      var i :| 0 <= i < |x| && x[i] == t;
      FlaggedIgnoresOrder(a, b, t.key);
      CountIgnoresOrder(a, b, t.key);
      var j :| 0 <= j < |y| && y[j].key == t.key;
      assert y[j] == t;
    }
  }

  lemma {:induction false} SameTalliesSameList(x: seq<Tally>, y: seq<Tally>)
    requires InKeyOrder(x) && InKeyOrder(y)
    requires forall t :: t in x <==> t in y
    ensures x == y
  {
    hide KeyBefore;
    if x != [] { assert x[0] in x; }
    if y != [] { assert y[0] in y; }
    if x != [] {
      FirstTally(x, y);
      FirstTally(y, x);
      KeysAreOrdered(x[0].key, y[0].key);
      assert x[0] == y[0];
      forall t ensures t in x[1..] <==> t in y[1..] {
        TallyInTheRest(x, t);
        TallyInTheRest(y, t);
      }
      SameTalliesSameList(x[1..], y[1..]);
      assert x == [x[0]] + x[1..] && y == [y[0]] + y[1..];
    }
  }

  lemma FirstTally(x: seq<Tally>, y: seq<Tally>)
    requires x != [] && y != [] && InKeyOrder(x) && forall t :: t in y ==> t in x
    ensures y[0] == x[0] || KeyBefore(x[0].key, y[0].key)
  {
    hide KeyBefore;
    assert y[0] in x;
  }

  lemma TallyInTheRest(x: seq<Tally>, t: Tally)
    requires x != [] && InKeyOrder(x)
    ensures t in x[1..] <==> t in x && t != x[0]
  {
    hide KeyBefore;
    forall i | 1 <= i < |x| ensures x[i] != x[0] {
      KeysAreOrdered(x[0].key, x[i].key);
    }
    assert x == [x[0]] + x[1..];
  }

  /** A lone writer is never reported: whoever is flagged clashed with another flagged one. */
  lemma NeverExactlyOneWriter(markers: seq<Marker>, tallies: seq<Tally>)
    requires IsFinding(markers, tallies)
    ensures |tallies| != 1
  {
    if |tallies| == 1 {
      var key := tallies[0].key;
      var a, b :| a in markers && b in markers && Clash(a, b, key);
      assert Clash(b, a, b.writer.Key());
      assert Flagged(markers, b.writer.Key());
    }
  }

  lemma ClashFlags(markers: seq<Marker>, a: Marker, b: Marker)
    requires a in markers && b in markers && Near(a, b) && a.writer.Key() != b.writer.Key()
    ensures Flagged(markers, a.writer.Key())
  {
    assert Clash(a, b, a.writer.Key());
  }

  /** No finding means that markers within an hour of each other always share their writer. */
  lemma NoFindingIff(markers: seq<Marker>, tallies: seq<Tally>)
    requires IsFinding(markers, tallies)
    ensures tallies == [] <==>
      forall a, b :: a in markers && b in markers && -3_600_000_000_000 <= a.time - b.time <= 3_600_000_000_000 ==>
        a.writer.buildSha == b.writer.buildSha && a.writer.exePath == b.writer.exePath
  {
    if tallies == [] {
      forall a, b | a in markers && b in markers && Near(a, b) ensures a.writer.Key() == b.writer.Key() {
        if a.writer.Key() != b.writer.Key() {
          ClashFlags(markers, a, b);
        }
      }
    } else {
      var a, b :| a in markers && b in markers && Clash(a, b, tallies[0].key);
    }
  }
}
