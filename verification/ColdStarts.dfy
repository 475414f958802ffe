/** The laws from a cold start, where epochs have room of themselves, and runs that show the
    laws at work. */
module ColdStarts {
  import opened Text
  import opened WorkItems
  import opened EventLog
  import opened Checkpoints
  import opened SourcePolling
  import opened Orchestrator
  import opened ItemRuns
  import opened WorkItemRuns
  import opened LaneBoard
  import opened ItemLimits
  import AvailabilityRuns
  import Limits

  // ----- Laws without epochs -----------------------------------------------

  /** Every poll saved, every normalizer emitting data, other writers under other names. */
  ghost predicate Saved(a: Adapter, steps: seq<AvailabilityRuns.Step>) {
    forall k :: 0 <= k < |steps| ==>
      match steps[k]
      case Turn(_, normalize, _, saved) => saved && AvailabilityRuns.EmitsData(a, normalize)
      case Elsewhere(event, _) => event.source != a.Name()
  }

  /** From a cold start no run short of 2^64 steps meets a saturated epoch. */
  lemma SavedRunIsLegal(a: Adapter, rows: seq<Event>, steps: seq<AvailabilityRuns.Step>)
    requires Saved(a, steps) && |steps| <= U64_MAX
    ensures AvailabilityRuns.LegalRun(a, AvailabilityRuns.World(rows, None), steps)
  {
    hide AvailabilityRuns.EmitsData, AvailabilityRuns.After, AvailabilityRuns.Reported;
    var cold := AvailabilityRuns.World(rows, None);
    forall k | 0 <= k < |steps|
      ensures AvailabilityRuns.Legal(a, AvailabilityRuns.Run(a, cold, steps[..k]), steps[k])
    {
      AvailabilityRuns.EpochsGrowSlowly(a, rows, steps[..k]);
    }
  }

  /** The availability law from a cold start, with nothing asked of epochs. */
  lemma ProjectionAgreesFromAColdStart(a: Adapter, rows: seq<Event>, steps: seq<AvailabilityRuns.Step>, k: nat)
    requires forall i :: 0 <= i < |rows| ==> rows[i].source != a.Name()
    requires Saved(a, steps) && |steps| <= U64_MAX
    requires k < |steps| && steps[k].Turn?
    requires var before := AvailabilityRuns.Run(a, AvailabilityRuns.World(rows, None), steps[..k]);
             Accepted(AvailabilityRuns.MarkerOutcome(a, before, steps[k]))
    ensures var cold := AvailabilityRuns.World(rows, None);
            var before := AvailabilityRuns.Run(a, cold, steps[..k]);
            && Requested(before.checkpoint).Ok?
            && NewestHealth(AvailabilityRuns.Run(a, cold, steps[..k + 1]).rows, a.Name())
               == Some(AvailabilityRuns.TurnReported(before, steps[k]))
  {
    hide AvailabilityRuns.Inv, AvailabilityRuns.LegalRun, Saved, AvailabilityRuns.Run, AvailabilityRuns.MarkerOutcome,
         NewestHealth, AvailabilityRuns.Reported;
    AvailabilityRuns.ColdStart(a, rows);
    SavedRunIsLegal(a, rows, steps);
    AvailabilityRuns.ProjectionAgreesWithTheLastPoll(a, AvailabilityRuns.World(rows, None), steps, k);
  }

  ghost predicate AtMost(ledger: Ledger, n: nat) {
    forall id :: id in ledger ==> ledger[id].epoch <= n
  }

  lemma AtMostOneMore(repo: string, item: WorkItem, ledger: Ledger, n: nat)
    requires AtMost(ledger, n)
    ensures AtMost(Recorded(repo, item, ledger), n + 1)
  {
    hide ContentVersion;
  }

  /** Epochs grow by one per record at most, so there is room for as many records as epochs. */
  lemma {:induction false} RecordsHaveRoom(repo: string, items: seq<WorkItem>, ledger: Ledger, n: nat)
    requires AtMost(ledger, n) && n + |items| <= U64_MAX
    ensures RoomyAll(repo, items, ledger) && AtMost(RecordedAll(repo, items, ledger), n + |items|)
    decreases items
  {
    hide Recorded, ContentVersion;
    if items != [] {
      AtMostOneMore(repo, items[0], ledger, n);
      RecordsHaveRoom(repo, items[1..], Recorded(repo, items[0], ledger), n + 1);
    }
  }

  /** Every poll saved, one spelling of each id, no foreign snapshots. */
  predicate SavedItems(spell: Spelling, steps: seq<Step>) {
    forall k :: 0 <= k < |steps| ==>
      match steps[k]
      case Turn(_, _, _, saved) => saved && AllSpelled(spell, TurnItems(steps[k]))
      case Elsewhere(event, _) => event.source != NAME && !event.payload.WorkItemSnapshot?
  }

  lemma {:induction false} FewerRemembered(steps: seq<Step>, k: nat)
    requires k <= |steps|
    ensures |RememberedItems(steps[..k])| <= |RememberedItems(steps)|
    decreases |steps| - k
  {
    hide TurnItems;
    if k < |steps| {
      FewerRemembered(steps, k + 1);
      assert steps[..k + 1][..k] == steps[..k];
    } else {
      assert steps[..k] == steps;
    }
  }

  lemma SavedItemsAreLegal(repo: string, spell: Spelling, rows: seq<Event>, steps: seq<Step>)
    requires SavedItems(spell, steps) && |RememberedItems(steps)| <= U64_MAX
    ensures LegalRun(repo, spell, AvailabilityRuns.World(rows, None), steps)
  {
    hide RecordedAll, TurnItems, After, RecoveredLedger, Readable, RoomyAll, AllSpelled;
    var cold := AvailabilityRuns.World(rows, None);
    forall k | 0 <= k < |steps| ensures Legal(repo, spell, Run(repo, cold, steps[..k]), steps[k]) {
      if steps[k].Turn? {
        var before, items := RememberedItems(steps[..k]), TurnItems(steps[k]);
        ColdLedger(rows);
        LedgerIsTheFold(repo, cold, steps[..k]);
        FewerRemembered(steps, k + 1);
        assert steps[..k + 1][..k] == steps[..k];
        RecordsHaveRoom(repo, before, map[], 0);
        RecordsHaveRoom(repo, items, RecordedAll(repo, before, map[]), |before|);
      }
    }
  }

  lemma ColdLedger(rows: seq<Event>)
    ensures Readable(AvailabilityRuns.World(rows, None)) && RecoveredLedger(None) == map[]
  {
  }

  /** The lane-board law from a cold start, with nothing asked of epochs. */
  lemma BoardShowsTheLastRecordFromAColdStart(
      repo: string, spell: Spelling, rows: seq<Event>, steps: seq<Step>, t: nat, k: nat)
    requires forall i :: 0 <= i < |rows| ==> rows[i].source != NAME && !rows[i].payload.WorkItemSnapshot?
    requires SavedItems(spell, steps) && |RememberedItems(steps)| <= U64_MAX
    requires t < |steps| && steps[t].Turn? && IsLastRecord(steps[t], k)
    requires var before := Run(repo, AvailabilityRuns.World(rows, None), steps[..t]);
             Accepted(SnapshotOutcome(repo, before, steps[t], k))
    ensures var item := TurnItems(steps[t])[k];
            var shown := LatestSnapshot(Run(repo, AvailabilityRuns.World(rows, None), steps[..t + 1]).rows, Trim(item.id));
            && shown.Some?
            && shown.value.version == ContentVersion(repo, item)
            && (NoCollision(repo, shown.value.item.(id := item.id), item) ==>
                  Content(shown.value.item) == Content(Stored(item)))
  {
    hide Inv, LegalRun, SavedItems, Run, SnapshotOutcome, TurnItems, LatestSnapshot, Trim, NoCollision, ContentVersion,
         RememberedItems;
    ColdStart(repo, spell, rows);
    ColdLedger(rows);
    SavedItemsAreLegal(repo, spell, rows, steps);
    BoardShowsTheLastRecord(repo, spell, AvailabilityRuns.World(rows, None), steps, t, k);
  }

  // ----- Runs that meet the side conditions --------------------------------

  /** The raw spelling of one item's id; every other id is spelled as it is. */
  function SpellingOf(x: WorkItem): Spelling {
    id => if id == Trim(x.id) then x.id else id
  }

  lemma ReadingIsLegal(repo: string, x: WorkItem, y: WorkItem, w: World)
    requires Own(repo, w.rows) && Readable(w) && !IsBlank(x.id) && y.id == x.id
    requires x.id in RecoveredLedger(w.checkpoint) ==> RecoveredLedger(w.checkpoint)[x.id].epoch < U64_MAX
    ensures Legal(repo, SpellingOf(x), w, Reads(y, true))
    ensures IsLastRecord(Reads(y, true), 0) && Accepted(SnapshotOutcome(repo, w, Reads(y, true), 0))
    ensures var next := After(repo, w, Reads(y, true));
            && Own(repo, next.rows) && Readable(next)
            && RecoveredLedger(next.checkpoint) == Recorded(repo, y, RecoveredLedger(w.checkpoint))
  {
    hide After, SnapshotOutcome, Own, ContentVersion, Trim, IsBlank, RecoveredLedger, TurnItems, Recorded;
    ItemLimits.OneItem(y, true);
    ReadingOneItem(repo, w, y, true);
    var items, ledger := TurnItems(Reads(y, true)), RecoveredLedger(w.checkpoint);
    assert items[1..] == [];
    assert Spelled(SpellingOf(x), y);
    assert RoomyAll(repo, items, ledger);
    assert AllSpelled(SpellingOf(x), items);
  }

  lemma EpochGrowsByOne(repo: string, y: WorkItem, ledger: Ledger, bound: nat)
    requires bound < U64_MAX && (y.id in ledger ==> ledger[y.id].epoch <= bound)
    ensures y.id in Recorded(repo, y, ledger) && Recorded(repo, y, ledger)[y.id].epoch <= bound + 1
  {
    hide ContentVersion;
  }

  /** Read an item, then another content of it, then the first again, from a cold start with
      nothing lost: such a run is legal, and the board ends with the first content. */
  lemma ReentryIsShown(repo: string, x: WorkItem, y: WorkItem)
    requires !IsBlank(x.id) && y.id == x.id
    ensures var cold, steps := AvailabilityRuns.World([], None), [Reads(x, true), Reads(y, true), Reads(x, true)];
            var shown := LatestSnapshot(Run(repo, cold, steps).rows, Trim(x.id));
            && LegalRun(repo, SpellingOf(x), cold, steps)
            && shown.Some? && shown.value.version == ContentVersion(repo, x)
  {
    hide After, Own, ContentVersion, Trim, IsBlank, RecoveredLedger, TurnItems, Recorded, Legal, LatestSnapshot, Inv,
         SnapshotOutcome, IsLastRecord, Reads, SpellingOf;
    var cold, steps := AvailabilityRuns.World([], None), [Reads(x, true), Reads(y, true), Reads(x, true)];
    ColdIsEmpty(repo, SpellingOf(x));
    assert steps[..1] == [Reads(x, true)] && steps[..2] == [Reads(x, true), Reads(y, true)] && steps[..3] == steps;
    var w1 := OneStep(repo, cold, steps, 0);
    var w2 := OneStep(repo, cold, steps, 1);
    ReadingIsLegal(repo, x, x, cold);
    EpochGrowsByOne(repo, x, map[], 0);
    ReadingIsLegal(repo, x, y, w1);
    EpochGrowsByOne(repo, y, RecoveredLedger(w1.checkpoint), 1);
    ReadingIsLegal(repo, x, x, w2);
    assert LegalRun(repo, SpellingOf(x), cold, steps);
    OnlyItem(x);
    BoardShowsTheLastRecord(repo, SpellingOf(x), cold, steps, 2, 0);
  }

  lemma OnlyItem(x: WorkItem)
    requires !IsBlank(x.id)
    ensures Reads(x, true).Turn? && TurnItems(Reads(x, true)) == [x]
  {
    ItemLimits.OneItem(x, true);
  }

  lemma ColdIsEmpty(repo: string, spell: Spelling)
    ensures var cold := AvailabilityRuns.World([], None);
            && Own(repo, []) && Readable(cold) && Inv(repo, spell, cold) && RecoveredLedger(None) == map[]
  {
    ColdStart(repo, spell, []);
  }

  lemma OneStep(repo: string, w: World, steps: seq<Step>, k: nat) returns (next: World)
    requires k < |steps|
    ensures next == Run(repo, w, steps[..k + 1]) == After(repo, Run(repo, w, steps[..k]), steps[k])
    ensures Run(repo, w, steps[..0]) == w
  {
    hide After;
    assert steps[..k + 1][..k] == steps[..k];
    next := Run(repo, w, steps[..k + 1]);
  }

  /** An outage, a recovery, and the same outage again, from a cold start with nothing lost:
      such a run is legal, and it ends with the source not observed. */
  lemma SameOutageIsShown(a: Adapter, normalize: Normalizer, reason: string)
    requires AvailabilityRuns.EmitsData(a, normalize)
    ensures var cold := AvailabilityRuns.World([], None);
            var steps := [Limits.Outage(normalize, reason, true), Limits.Idle(normalize, true),
                          Limits.Outage(normalize, reason, true)];
            && AvailabilityRuns.LegalRun(a, cold, steps)
            && NewestHealth(AvailabilityRuns.Run(a, cold, steps).rows, a.Name()) == Some(NotObserved)
  {
    hide AvailabilityRuns.After, AvailabilityRuns.Inv, AvailabilityRuns.EmitsData, AvailabilityRuns.MarkerOutcome,
         NewestHealth, Limits.OnlyMarkers, Limits.Holds, AvailabilityRuns.Legal, AvailabilityRuns.Reported,
         Limits.Outage, Limits.Idle;
    var cold, out, up := AvailabilityRuns.World([], None), Limits.Outage(normalize, reason, true), Limits.Idle(normalize, true);
    var steps := [out, up, out];
    assert steps[..1] == [out] && steps[..2] == [out, up] && steps[..3] == steps;
    ColdMarkers(a);
    var w1 := OneTurn(a, cold, steps, 0);
    var w2 := OneTurn(a, cold, steps, 1);
    MarkerTurnIsLegal(a, cold, normalize, reason);
    MarkerTurnIsLegal(a, w1, normalize, reason);
    MarkerTurnIsLegal(a, w2, normalize, reason);
    assert AvailabilityRuns.LegalRun(a, cold, steps);
    AvailabilityRuns.ProjectionAgreesWithTheLastPoll(a, cold, steps, 2);
  }

  /** A saved turn with nothing but a marker is legal while epochs have room. */
  lemma MarkerTurnIsLegal(a: Adapter, w: World, normalize: Normalizer, reason: string)
    requires Limits.OnlyMarkers(a, w.rows) && Requested(w.checkpoint).Ok? && AvailabilityRuns.EmitsData(a, normalize)
    requires Memory(w.checkpoint).Some? ==> Memory(w.checkpoint).value.transitionEpoch < U64_MAX
    ensures forall t :: t in [Limits.Outage(normalize, reason, true), Limits.Idle(normalize, true)] ==>
      && t.Turn? && AvailabilityRuns.Legal(a, w, t)
      && Limits.OnlyMarkers(a, AvailabilityRuns.After(a, w, t).rows)
      && Requested(AvailabilityRuns.After(a, w, t).checkpoint).Ok?
      && Accepted(AvailabilityRuns.MarkerOutcome(a, w, t))
      && Memory(AvailabilityRuns.After(a, w, t).checkpoint)
         == Some(AvailabilityRuns.Aim(w.checkpoint, AvailabilityRuns.TurnReported(w, t)))
    ensures AvailabilityRuns.TurnReported(w, Limits.Outage(normalize, reason, true)) == NotObserved
  {
    hide AvailabilityRuns.After, AvailabilityRuns.EmitsData, AvailabilityRuns.MarkerOutcome, Limits.OnlyMarkers,
         Limits.Holds, TransitionEpoch;
    Limits.OutageTurn(a, w, normalize, reason, true);
    Limits.IdleTurn(a, w, normalize, true);
  }

  lemma ColdMarkers(a: Adapter)
    ensures Limits.OnlyMarkers(a, []) && AvailabilityRuns.Inv(a, AvailabilityRuns.World([], None))
  {
  }

  lemma OneTurn(a: Adapter, w: World, steps: seq<AvailabilityRuns.Step>, k: nat) returns (next: World)
    requires k < |steps|
    ensures next == AvailabilityRuns.Run(a, w, steps[..k + 1])
                 == AvailabilityRuns.After(a, AvailabilityRuns.Run(a, w, steps[..k]), steps[k])
    ensures AvailabilityRuns.Run(a, w, steps[..0]) == w
  {
    hide AvailabilityRuns.After;
    assert steps[..k + 1][..k] == steps[..k];
    next := AvailabilityRuns.Run(a, w, steps[..k + 1]);
  }
}
