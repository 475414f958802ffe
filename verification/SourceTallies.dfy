/** Per-source tallies of the event log, and when each source last succeeded. */
module SourceTallies {
  import opened Text
  import opened EventLog
  import Ordering

  datatype SourceEventCounts = SourceEventCounts(observed: nat, notObserved: nat) {
    function Total(): nat {
      observed + notObserved
    }
  }

  predicate Says(e: Event, source: string, health: Availability) {
    e.source == source && e.payload.Health() == Some(health)
  }

  /** How often a log says this of a source. */
  function Count(rows: seq<Event>, source: string, health: Availability): nat {
    if rows == [] then 0
    else Count(rows[..|rows| - 1], source, health) + if Says(rows[|rows| - 1], source, health) then 1 else 0
  }

  function CountsOf(rows: seq<Event>, source: string): SourceEventCounts {
    SourceEventCounts(Count(rows, source, Observed), Count(rows, source, NotObserved))
  }

  lemma OneRowCounts(rows: seq<Event>, i: nat)
    requires i <= |rows|
    ensures i == 0 ==> forall s :: CountsOf(rows[..i], s) == SourceEventCounts(0, 0)
    ensures i < |rows| ==> forall s ::
      CountsOf(rows[..i + 1], s) ==
        var before := CountsOf(rows[..i], s);
        if Says(rows[i], s, NotObserved) then before.(notObserved := before.notObserved + 1)
        else if Says(rows[i], s, Observed) then before.(observed := before.observed + 1)
        else before
  {
    hide Payload.Health;
    if i < |rows| {
      assert rows[..i + 1][..i] == rows[..i];
    }
  }

  function EntryOf(counts: map<string, SourceEventCounts>, source: string): SourceEventCounts {
    if source in counts then counts[source] else SourceEventCounts(0, 0)
  }

  method TallySourceEvents(rows: seq<Event>) returns (counts: map<string, SourceEventCounts>)
    ensures forall s :: s in counts <==> CountsOf(rows, s).Total() > 0
    ensures forall s :: s in counts ==> counts[s] == CountsOf(rows, s)
  {
    hide Payload.Health, CountsOf;
    counts := map[];
    OneRowCounts(rows, 0);
    for i := 0 to |rows|
      invariant forall s :: CountsOf(rows[..i], s) == EntryOf(counts, s)
      invariant forall s :: s in counts ==> counts[s].Total() > 0
    {
      OneRowCounts(rows, i);
      ghost var earlier := counts;
      var source, health := rows[i].source, rows[i].payload.Health();
      var entry := EntryOf(counts, source);
      if health == Some(NotObserved) {
        counts := counts[source := entry.(notObserved := entry.notObserved + 1)];
      } else if health == Some(Observed) {
        counts := counts[source := entry.(observed := entry.observed + 1)];
      }
      forall s | s != source ensures CountsOf(rows[..i + 1], s) == EntryOf(counts, s) {
        assert !Says(rows[i], s, Observed) && !Says(rows[i], s, NotObserved);
        assert CountsOf(rows[..i + 1], s) == CountsOf(rows[..i], s) == EntryOf(earlier, s);
      }
    }
    assert rows[..|rows|] == rows;
  }

  /** A source is counted exactly when it is on the roster the availability tally keeps. */
  lemma {:induction false} CountedIffOnTheRoster(rows: seq<Event>, source: string)
    ensures CountsOf(rows, source).Total() > 0 <==> NewestHealth(rows, source).Some?
  {
    if rows != [] {
      hide Payload.Health;
      CountedIffOnTheRoster(rows[..|rows| - 1], source);
    }
  }

  /** Tallies of two stretches of a log add up. */
  lemma {:induction false} TalliesAdd(a: seq<Event>, b: seq<Event>, source: string, health: Availability)
    ensures Count(a + b, source, health) == Count(a, source, health) + Count(b, source, health)
  {
    if b == [] {
      assert a + b == a;
    } else {
      TalliesAdd(a, b[..|b| - 1], source, health);
      assert (a + b)[..|a + b| - 1] == a + b[..|b| - 1];
    }
  }

  // ----- The tallies cover the log -----------------------------------------

  function HealthEvents(rows: seq<Event>): nat {
    if rows == [] then 0
    else HealthEvents(rows[..|rows| - 1]) + if rows[|rows| - 1].payload.Health().Some? then 1 else 0
  }

  function SumOfTotals(sources: seq<string>, rows: seq<Event>): nat {
    if sources == [] then 0
    else SumOfTotals(sources[..|sources| - 1], rows) + CountsOf(rows, sources[|sources| - 1]).Total()
  }

  lemma TotalOneMore(rows: seq<Event>, e: Event, source: string)
    ensures CountsOf(rows + [e], source).Total()
            == CountsOf(rows, source).Total() + if e.source == source && e.payload.Health().Some? then 1 else 0
  {
    assert (rows + [e])[..|rows|] == rows;
  }

  lemma LastSource(sources: seq<string>, source: string)
    requires sources != [] && Ordering.Distinct(sources)
    ensures var n := |sources| - 1;
            && Ordering.Distinct(sources[..n])
            && (source in sources <==> source in sources[..n] || source == sources[n])
            && (source == sources[n] ==> source !in sources[..n])
  {
    var n := |sources| - 1;
    assert sources == sources[..n] + [sources[n]];
  }

  lemma {:induction false} OneMoreRow(sources: seq<string>, rows: seq<Event>, e: Event)
    requires Ordering.Distinct(sources)
    ensures SumOfTotals(sources, rows + [e])
            == SumOfTotals(sources, rows) + if e.source in sources && e.payload.Health().Some? then 1 else 0
  {
    if sources != [] {
      hide Payload.Health, CountsOf, Ordering.Distinct, SourceEventCounts.Total;
      var n := |sources| - 1;
      LastSource(sources, e.source);
      OneMoreRow(sources[..n], rows, e);
      TotalOneMore(rows, e, sources[n]);
    }
  }

  lemma {:induction false} NothingSums(sources: seq<string>)
    ensures SumOfTotals(sources, []) == 0
  {
    if sources != [] {
      NothingSums(sources[..|sources| - 1]);
    }
  }

  /** Every health-bearing event is counted once, under its own source, and nothing else is. */
  lemma {:induction false} TotalsAreTheHealthEvents(sources: seq<string>, rows: seq<Event>)
    requires Ordering.Distinct(sources)
    requires forall i :: 0 <= i < |rows| && rows[i].payload.Health().Some? ==> rows[i].source in sources
    ensures SumOfTotals(sources, rows) == HealthEvents(rows)
  {
    hide Payload.Health;
    if rows == [] {
      NothingSums(sources);
    } else {
      var n := |rows| - 1;
      TotalsAreTheHealthEvents(sources, rows[..n]);
      OneMoreRow(sources, rows[..n], rows[n]);
      assert rows == rows[..n] + [rows[n]];
    }
  }

  lemma {:induction false} SourcesAreCounted(rows: seq<Event>, i: nat, health: Availability)
    requires i < |rows| && rows[i].payload.Health() == Some(health)
    ensures Count(rows, rows[i].source, health) > 0 && CountsOf(rows, rows[i].source).Total() > 0
  {
    hide Payload.Health;
    assert health == Observed || health == NotObserved;
    if i < |rows| - 1 {
      SourcesAreCounted(rows[..|rows| - 1], i, health);
    }
  }

  /** The tallies of the counted sources sum to the health-bearing events of the log. */
  lemma TallySumsToTheLog(rows: seq<Event>, counts: map<string, SourceEventCounts>)
    requires forall s :: s in counts <==> CountsOf(rows, s).Total() > 0
    ensures SumOfTotals(Ordering.InOrder(counts.Keys), rows) == HealthEvents(rows)
  {
    hide SumOfTotals, HealthEvents, Payload.Health;
    Ordering.OrderedIsDistinct(counts.Keys);
    forall i | 0 <= i < |rows| && rows[i].payload.Health().Some?
      ensures rows[i].source in Ordering.InOrder(counts.Keys)
    {
      SourcesAreCounted(rows, i, rows[i].payload.Health().value);
    }
    TotalsAreTheHealthEvents(Ordering.InOrder(counts.Keys), rows);
  }

  /** The not-observed share as a whole percent, rounded half up. */
  function NotObservedPercent(counts: SourceEventCounts): nat {
    if counts.Total() == 0 then 0 else (counts.notObserved * 100 + counts.Total() / 2) / counts.Total()
  }

  /** The percent is at most 100 and within half a point of the exact share, a tie going up. */
  lemma PercentIsNearest(counts: SourceEventCounts)
    ensures var n, t, p := counts.notObserved, counts.observed + counts.notObserved, NotObservedPercent(counts);
            if t == 0 then p == 0 else
            && p <= 100 && -(t / 2) <= 100 * n - p * t <= t / 2
            && 2 * (100 * n - p * t) < t
  {
    var n, t, p := counts.notObserved, counts.Total(), NotObservedPercent(counts);
    if t > 0 {
      var r := (n * 100 + t / 2) % t;
      DivMod(n * 100 + t / 2, t);
      assert n * 100 + t / 2 == p * t + r;
      if p > 100 {
        Scale(101, p, t);
        assert false;
      }
    }
  }

  lemma DivMod(a: nat, t: nat)
    requires t > 0
    ensures a == (a / t) * t + a % t && a % t < t
  {
  }

  lemma Scale(a: nat, b: nat, t: nat)
    requires a <= b
    ensures a * t <= b * t
  {
  }

  // ----- The last success --------------------------------------------------

  /** The later of two timestamps in their text form. */
  function Later(a: string, b: string): string {
    if Ordering.Before(a, b) then b else a
  }

  /** When the newest positive event of a source was observed. */
  function EventSuccess(events: seq<(Event, string)>, source: string): Option<string> {
    if events == [] then None
    else
      var last := events[|events| - 1];
      if last.0.source == source && last.0.payload.Health() == Some(Observed) then Some(last.1)
      else EventSuccess(events[..|events| - 1], source)
  }

  function WithCheckpoints(
    success: Option<string>, checkpoints: seq<(string, string)>, source: string): Option<string>
  {
    if checkpoints == [] then success
    else
      var last := checkpoints[|checkpoints| - 1];
      var earlier := WithCheckpoints(success, checkpoints[..|checkpoints| - 1], source);
      if last.0 != source then earlier
      else if earlier.None? then Some(last.1)
      else Some(Later(earlier.value, last.1))
  }

  method LastSuccessfulObservedAt(events: seq<(Event, string)>, checkpoints: seq<(string, string)>)
    returns (lastSuccess: map<string, string>)
    ensures forall s ::
      WithCheckpoints(EventSuccess(events, s), checkpoints, s)
      == if s in lastSuccess then Some(lastSuccess[s]) else None
  {
    hide Payload.Health, Ordering.Before;
    lastSuccess := map[];
    for i := 0 to |events|
      invariant forall s :: EventSuccess(events[..i], s) == if s in lastSuccess then Some(lastSuccess[s]) else None
    {
      assert events[..i + 1][..i] == events[..i];
      if events[i].0.payload.Health() == Some(Observed) {
        lastSuccess := lastSuccess[events[i].0.source := events[i].1];
      }
    }
    assert events[..|events|] == events;
    for i := 0 to |checkpoints|
      invariant forall s ::
        WithCheckpoints(EventSuccess(events, s), checkpoints[..i], s)
        == if s in lastSuccess then Some(lastSuccess[s]) else None
    {
      assert checkpoints[..i + 1][..i] == checkpoints[..i];
      var source, advancedAt := checkpoints[i].0, checkpoints[i].1;
      if source !in lastSuccess {
        lastSuccess := lastSuccess[source := advancedAt];
      } else if Ordering.Before(lastSuccess[source], advancedAt) {
        lastSuccess := lastSuccess[source := advancedAt];
      }
    }
    assert checkpoints[..|checkpoints|] == checkpoints;
  }

  /** One of the successes on record, and none of them is later: neither the newest positive
      event nor any checkpoint of the source. */
  lemma {:induction false} LastSuccessIsTheLatest(
      success: Option<string>, checkpoints: seq<(string, string)>, source: string)
    ensures var last := WithCheckpoints(success, checkpoints, source);
            && (last.None? <==> success.None? && forall t :: (source, t) !in checkpoints)
            && (last.Some? ==>
                  && (last == success || (source, last.value) in checkpoints)
                  && (success.Some? ==> !Ordering.Before(last.value, success.value))
                  && forall t :: (source, t) in checkpoints ==> !Ordering.Before(last.value, t))
  {
    if checkpoints == [] {
      if success.Some? && Ordering.Before(success.value, success.value) {
        Ordering.BeforeIsStrict(success.value, success.value);
      }
    } else {
      hide Ordering.Before;
      var n := |checkpoints| - 1;
      var earlier := WithCheckpoints(success, checkpoints[..n], source);
      LastSuccessIsTheLatest(success, checkpoints[..n], source);
      assert checkpoints == checkpoints[..n] + [checkpoints[n]];
      if checkpoints[n].0 == source && earlier.Some? {
        LaterIsNotBefore(earlier.value, checkpoints[n].1);
        forall t | !Ordering.Before(earlier.value, t) ensures !Ordering.Before(Later(earlier.value, checkpoints[n].1), t) {
          LaterStays(earlier.value, checkpoints[n].1, t);
        }
      } else if checkpoints[n].0 == source {
        LaterIsNotBefore(checkpoints[n].1, checkpoints[n].1);
      }
    }
  }

  lemma LaterIsNotBefore(a: string, b: string)
    ensures !Ordering.Before(Later(a, b), b)
  {
    if Ordering.Before(b, b) {
      Ordering.BeforeIsStrict(b, b);
    }
  }

  lemma LaterStays(a: string, b: string, t: string)
    requires !Ordering.Before(a, t)
    ensures !Ordering.Before(Later(a, b), t)
  {
    if Ordering.Before(a, b) && Ordering.Before(b, t) {
      Ordering.BeforeIsTransitive(a, b, t);
    }
  }

  /** A failing source keeps the success it had: no event but a positive observation of its own
      moves it. */
  lemma {:induction false} FailuresMoveNothing(events: seq<(Event, string)>, more: seq<(Event, string)>, source: string)
    requires forall i :: 0 <= i < |more| && more[i].0.source == source ==> more[i].0.payload.Health() != Some(Observed)
    ensures EventSuccess(events + more, source) == EventSuccess(events, source)
  {
    hide Payload.Health;
    if more == [] {
      assert events + more == events;
    } else {
      FailuresMoveNothing(events, more[..|more| - 1], source);
      assert (events + more)[..|events + more| - 1] == events + more[..|more| - 1];
    }
  }

  /** The newest positive event of a source dates its success, whatever came before it. */
  lemma NewestSuccessWins(events: seq<(Event, string)>, e: Event, observedAt: string, source: string)
    requires e.source == source && e.payload.Health() == Some(Observed)
    ensures EventSuccess(events + [(e, observedAt)], source) == Some(observedAt)
  {
    hide Payload.Health;
  }
}
