/** Where the lane-board law stops: id spellings, unsaved changes, and the one field that is
    not hashed. Each holds for every pair of records of its kind. */
module ItemLimits {
  import opened Text
  import opened WorkItems
  import opened EventLog
  import opened Identities
  import opened Checkpoints
  import opened SourcePolling
  import opened Orchestrator
  import opened ItemRuns
  import opened WorkItemRuns
  import opened LaneBoard
  import opened Repolls
  import opened Limits
  import AvailabilityRuns

  function AsRecord(x: WorkItem): (r: Record)
    ensures r.Record? && r.Interpret() == x
  {
    Record(x.id, x.lane, x.laneReason, Some(x.rank), Some(x.status), Some(x.admission), Some(x.acceptance), x.detail)
  }

  /** A poll that reads exactly one work-item and loses no append. */
  function Reads(x: WorkItem, saved: bool): Step {
    Turn(Reached(false, true, None), Records([AsRecord(x)]), {}, saved)
  }

  predicate Own(repo: string, rows: seq<Event>) {
    forall i :: 0 <= i < |rows| ==> rows[i].source == NAME && IsOrchestrators(rows[i].identity, repo)
  }

  function Put(rows: seq<Event>, e: Event): seq<Event> {
    if Holds(rows, e.identity) then rows else rows + [e]
  }

  /** Among the orchestrator's own rows, the store compares identities. */
  lemma OwnAppend(repo: string, rows: seq<Event>, e: Event)
    requires Own(repo, rows) && e.source == NAME && IsOrchestrators(e.identity, repo)
    ensures AppendOutcome(rows, e, false) == (if Holds(rows, e.identity) then Duplicate else Inserted)
    ensures Append(rows, e, false) == Put(rows, e) && Own(repo, Put(rows, e))
  {
    hide Identity.SourceEventId, Identity.EventId;
    OwnHasText(repo, e.identity);
    if Holds(rows, e.identity) {
      var i :| 0 <= i < |rows| && rows[i].identity == e.identity;
      assert rows[i].IsTheRowOf(e) && rows[i].Blocks(e);
    } else {
      forall i | 0 <= i < |rows| ensures !rows[i].Blocks(e) {
        if rows[i].Blocks(e) {
          BlockedByText(rows[i], e);
          OrchestratorsAreDistinct(rows[i].identity, e.identity, repo);
        }
      }
    }
  }

  lemma OwnHasText(repo: string, id: Identity)
    requires IsOrchestrators(id, repo)
    ensures id.SourceEventId().Some?
  {
  }

  lemma OneItem(x: WorkItem, saved: bool)
    requires !IsBlank(x.id)
    ensures TurnItems(Reads(x, saved)) == [x]
  {
    hide IsBlank;
    assert [AsRecord(x)][1..] == [];
    assert Interpreted([AsRecord(x)]) == [x] + Interpreted([]);
  }

  lemma ThreeEvents(rows: seq<Event>, x: Event, y: Event, z: Event)
    ensures AppendAll(rows, [x, y, z], {}, 0) == Append(Append(Append(rows, x, false), y, false), z, false)
  {
    hide Append, AppendAll;
    OfferFirst(rows, x, [y, z], {}, 0);
    OfferFirst(Append(rows, x, false), y, [z], {}, 1);
    AvailabilityRuns.AppendOnly(Append(Append(rows, x, false), y, false), z, {}, 2);
    assert [x, y, z] == [x] + [y, z] && [y, z] == [y] + [z];
  }

  lemma ReadingOneItem(repo: string, w: World, x: WorkItem, saved: bool)
    requires Own(repo, w.rows) && Readable(w) && !IsBlank(x.id)
    ensures var ledger := RecoveredLedger(w.checkpoint);
            var snapshot := SnapshotEvent(repo, x, ItemEpoch(repo, x, ledger));
            var marker := ObservedEvent(Source(repo), TransitionEpoch(w.checkpoint, Observed));
            var after := After(repo, w, Reads(x, saved));
            && after.rows == Put(Put(Put(w.rows, snapshot), CompletenessEvent(repo, x)), marker)
            && Own(repo, after.rows) && Readable(after)
            && SnapshotOutcome(repo, w, Reads(x, saved), 0)
               == (if Holds(w.rows, snapshot.identity) then Duplicate else Inserted)
            && RecoveredLedger(after.checkpoint) == (if saved then Recorded(repo, x, ledger) else ledger)
            && Memory(after.checkpoint)
               == (if saved then Some(AvailabilityRuns.Aim(w.checkpoint, Observed)) else Memory(w.checkpoint))
  {
    hide Append, AppendOutcome, Identity.SourceEventId, Own, TransitionEpoch, Holds, ContentVersion, ItemEpoch,
         Recorded, RecordedAll, EventsOf, TurnItems, Poll, LedgerFrom, Put;
    var ledger := RecoveredLedger(w.checkpoint);
    var snapshot := SnapshotEvent(repo, x, ItemEpoch(repo, x, ledger));
    var finding, marker := CompletenessEvent(repo, x), ObservedEvent(Source(repo), TransitionEpoch(w.checkpoint, Observed));
    OneItem(x, saved);
    DataTurn(repo, w, Reads(x, saved));
    SameMemory(w.checkpoint, Observed);
    EventsSplit(repo, [x], ledger);
    NothingToRecord(repo, Recorded(repo, x, ledger));
    RecordOne(repo, x, ledger);
    assert [x][1..] == [];
    assert TurnEvents(repo, w, Reads(x, saved)) == [snapshot, finding, marker];
    OwnAppend(repo, w.rows, snapshot);
    OwnAppend(repo, Put(w.rows, snapshot), finding);
    OwnAppend(repo, Put(Put(w.rows, snapshot), finding), marker);
    ThreeEvents(w.rows, snapshot, finding, marker);
    NoEvents(w.rows);
    TurnLedger(repo, w, Reads(x, saved));
  }

  lemma NoEvents(rows: seq<Event>)
    ensures AppendAll(rows, [], {}, 0) == rows
  {
  }

  lemma LatestAfter(rows: seq<Event>, e: Event, id: string)
    ensures LatestSnapshot(rows + [e], id)
            == if e.payload.WorkItemSnapshot? && e.payload.snapshot.item.id == id then Some(e.payload.snapshot)
               else LatestSnapshot(rows, id)
  {
    assert (rows + [e])[..|rows|] == rows;
  }

  // ----- The cases ---------------------------------------------------------

  /** The rows after one item was read, from a log with no rows. */
  lemma FirstReading(repo: string, x: WorkItem)
    requires !IsBlank(x.id)
    ensures var w := After(repo, AvailabilityRuns.World([], None), Reads(x, true));
            && w.rows == [] + [SnapshotEvent(repo, x, 1)] + [CompletenessEvent(repo, x)] + [ObservedEvent(Source(repo), 1)]
            && Own(repo, w.rows) && Readable(w)
            && RecoveredLedger(w.checkpoint) == map[x.id := Seen(ContentVersion(repo, x), 1)]
            && Memory(w.checkpoint) == Some(AvailabilityMemory(Observed, 1))
  {
    hide After, Holds, ContentVersion, Trim, IsBlank;
    var s, c, m := SnapshotEvent(repo, x, 1), CompletenessEvent(repo, x), ObservedEvent(Source(repo), 1);
    ReadingOneItem(repo, AvailabilityRuns.World([], None), x, true);
    HoldsMore([], s, s.identity);
    HoldsMore([], s, c.identity);
    HoldsMore([], s, m.identity);
    HoldsMore([] + [s], c, m.identity);
  }

  /** What the log holds after one reading. */
  lemma HeldAfterFirst(repo: string, x: WorkItem, id: Identity)
    ensures var rows := [] + [SnapshotEvent(repo, x, 1)] + [CompletenessEvent(repo, x)] + [ObservedEvent(Source(repo), 1)];
            Holds(rows, id) <==> id == SnapshotEvent(repo, x, 1).identity || id == CompletenessEvent(repo, x).identity
                                 || id == ObservedEvent(Source(repo), 1).identity
  {
    hide Holds, ContentVersion, Trim;
    var s, c, m := SnapshotEvent(repo, x, 1), CompletenessEvent(repo, x), ObservedEvent(Source(repo), 1);
    HoldsMore([], s, id);
    HoldsMore([] + [s], c, id);
    HoldsMore([] + [s] + [c], m, id);
  }

  /** Reading another version of an item next adds its snapshot and its finding. */
  lemma SecondReading(repo: string, x: WorkItem, y: WorkItem, epoch: nat, saved: bool)
    requires !IsBlank(x.id) && !IsBlank(y.id) && Trim(y.id) == Trim(x.id)
    requires ContentVersion(repo, x) != ContentVersion(repo, y)
    requires epoch == if y.id == x.id then 2 else 1
    ensures var w1 := After(repo, AvailabilityRuns.World([], None), Reads(x, true));
            var w2 := After(repo, w1, Reads(y, saved));
            && w2.rows == w1.rows + [SnapshotEvent(repo, y, epoch)] + [CompletenessEvent(repo, y)]
            && Own(repo, w2.rows) && Readable(w2)
            && Memory(w2.checkpoint) == Some(AvailabilityMemory(Observed, 1))
            && RecoveredLedger(w2.checkpoint)
               == (if saved then map[x.id := Seen(ContentVersion(repo, x), 1)][y.id := Seen(ContentVersion(repo, y), epoch)]
                   else map[x.id := Seen(ContentVersion(repo, x), 1)])
            && LatestSnapshot(w2.rows, Trim(x.id)).Some?
            && LatestSnapshot(w2.rows, Trim(x.id)).value.version == ContentVersion(repo, y)
            && Holds(w2.rows, SnapshotEvent(repo, x, 1).identity)
            && Holds(w2.rows, CompletenessEvent(repo, x).identity)
            && Holds(w2.rows, ObservedEvent(Source(repo), 1).identity)
  {
    hide After, Holds, ContentVersion, Trim, IsBlank, LatestSnapshot;
    FirstReading(repo, x);
    var w1 := After(repo, AvailabilityRuns.World([], None), Reads(x, true));
    var s, c, m := SnapshotEvent(repo, y, epoch), CompletenessEvent(repo, y), ObservedEvent(Source(repo), 1);
    ReadingOneItem(repo, w1, y, saved);
    HeldAfterFirst(repo, x, s.identity);
    HeldAfterFirst(repo, x, c.identity);
    HeldAfterFirst(repo, x, m.identity);
    HoldsMore(w1.rows, s, c.identity);
    HoldsMore(w1.rows, s, m.identity);
    HoldsMore(w1.rows + [s], c, m.identity);
    LatestAfter(w1.rows, s, Trim(x.id));
    LatestAfter(w1.rows + [s], c, Trim(x.id));
    FirstRowsStay(repo, x, w1.rows, s, c);
  }

  lemma FirstRowsStay(repo: string, x: WorkItem, rows: seq<Event>, s: Event, c: Event)
    requires rows == [] + [SnapshotEvent(repo, x, 1)] + [CompletenessEvent(repo, x)] + [ObservedEvent(Source(repo), 1)]
    ensures Holds(rows + [s] + [c], SnapshotEvent(repo, x, 1).identity)
    ensures Holds(rows + [s] + [c], CompletenessEvent(repo, x).identity)
    ensures Holds(rows + [s] + [c], ObservedEvent(Source(repo), 1).identity)
  {
    hide Holds, ContentVersion, Trim, SnapshotEvent, CompletenessEvent;
    HeldAfterFirst(repo, x, SnapshotEvent(repo, x, 1).identity);
    HeldAfterFirst(repo, x, CompletenessEvent(repo, x).identity);
    HeldAfterFirst(repo, x, ObservedEvent(Source(repo), 1).identity);
    HoldsMore(rows, s, SnapshotEvent(repo, x, 1).identity);
    HoldsMore(rows, s, CompletenessEvent(repo, x).identity);
    HoldsMore(rows, s, ObservedEvent(Source(repo), 1).identity);
    HoldsMore(rows + [s], c, SnapshotEvent(repo, x, 1).identity);
    HoldsMore(rows + [s], c, CompletenessEvent(repo, x).identity);
    HoldsMore(rows + [s], c, ObservedEvent(Source(repo), 1).identity);
  }

  /** Back to the first record at its first epoch: everything is already stored. */
  lemma ThirdReading(repo: string, x: WorkItem, w: World)
    requires !IsBlank(x.id) && Own(repo, w.rows) && Readable(w)
    requires Memory(w.checkpoint) == Some(AvailabilityMemory(Observed, 1))
    requires x.id in RecoveredLedger(w.checkpoint)
             && RecoveredLedger(w.checkpoint)[x.id] == Seen(ContentVersion(repo, x), 1)
    requires Holds(w.rows, SnapshotEvent(repo, x, 1).identity)
    requires Holds(w.rows, CompletenessEvent(repo, x).identity)
    requires Holds(w.rows, ObservedEvent(Source(repo), 1).identity)
    ensures SnapshotOutcome(repo, w, Reads(x, true), 0) == Duplicate
    ensures After(repo, w, Reads(x, true)).rows == w.rows
  {
    hide After, Holds, ContentVersion, Trim, IsBlank;
    ReadingOneItem(repo, w, x, true);
  }

  /** Two spellings of one id are two entries in the ledger and one item on the board. Read
      the first, then the second, then the first again: its snapshot counts as accepted, and
      the board keeps the second. */
  lemma TwoSpellingsMislead(repo: string, x: WorkItem, y: WorkItem)
    requires !IsBlank(x.id) && !IsBlank(y.id) && x.id != y.id && Trim(x.id) == Trim(y.id)
    requires ContentVersion(repo, x) != ContentVersion(repo, y)
    ensures var w1 := After(repo, AvailabilityRuns.World([], None), Reads(x, true));
            var w2 := After(repo, w1, Reads(y, true));
            var shown := LatestSnapshot(After(repo, w2, Reads(x, true)).rows, Trim(x.id));
            && SnapshotOutcome(repo, w2, Reads(x, true), 0) == Duplicate
            && shown.Some? && shown.value.version == ContentVersion(repo, y) != ContentVersion(repo, x)
  {
    hide After, Holds, ContentVersion, Trim, IsBlank, LatestSnapshot, SnapshotOutcome;
    FirstReading(repo, x);
    SecondReading(repo, x, y, 1, true);
    var w1 := After(repo, AvailabilityRuns.World([], None), Reads(x, true));
    ThirdReading(repo, x, After(repo, w1, Reads(y, true)));
  }

  /** A changed record whose checkpoint was not saved, then the old record again: its snapshot
      counts as accepted, and the board keeps the change that is no longer there. */
  lemma UnsavedChangeMisleads(repo: string, x: WorkItem, y: WorkItem)
    requires !IsBlank(x.id) && x.id == y.id && ContentVersion(repo, x) != ContentVersion(repo, y)
    ensures var w1 := After(repo, AvailabilityRuns.World([], None), Reads(x, true));
            var w2 := After(repo, w1, Reads(y, false));
            var shown := LatestSnapshot(After(repo, w2, Reads(x, true)).rows, Trim(x.id));
            && SnapshotOutcome(repo, w2, Reads(x, true), 0) == Duplicate
            && shown.Some? && shown.value.version == ContentVersion(repo, y) != ContentVersion(repo, x)
  {
    hide After, Holds, ContentVersion, Trim, IsBlank, LatestSnapshot, SnapshotOutcome;
    FirstReading(repo, x);
    SecondReading(repo, x, y, 2, false);
    var w1 := After(repo, AvailabilityRuns.World([], None), Reads(x, true));
    ThirdReading(repo, x, After(repo, w1, Reads(y, false)));
  }

  /** A change of the scope-override flag alone never lands: the snapshot counts as accepted,
      and the board keeps the old flag. */
  lemma FlagChangeIsSwallowed(repo: string, x: WorkItem, y: WorkItem)
    requires !IsBlank(x.id) && y == x.(detail := x.detail.(awaitsScopeOverride := !x.detail.awaitsScopeOverride))
    ensures var w1 := After(repo, AvailabilityRuns.World([], None), Reads(x, true));
            var shown := LatestSnapshot(After(repo, w1, Reads(y, true)).rows, Trim(x.id));
            && SnapshotOutcome(repo, w1, Reads(y, true), 0) == Duplicate
            && shown == Some(Snapshot(repo, Stored(x), ContentVersion(repo, x)))
            && shown.value.item.detail.awaitsScopeOverride != y.detail.awaitsScopeOverride
  {
    hide After, Holds, Trim, IsBlank, LatestSnapshot, SnapshotOutcome, EncodeDetail;
    DetailIsUniquelyEncoded(x.detail, y.detail);
    assert ContentVersion(repo, x) == ContentVersion(repo, y);
    FlagReading(repo, x, y);
  }

  lemma FlagReading(repo: string, x: WorkItem, y: WorkItem)
    requires !IsBlank(x.id) && x.id == y.id && ContentVersion(repo, x) == ContentVersion(repo, y)
    ensures var w1 := After(repo, AvailabilityRuns.World([], None), Reads(x, true));
            && SnapshotOutcome(repo, w1, Reads(y, true), 0) == Duplicate
            && LatestSnapshot(After(repo, w1, Reads(y, true)).rows, Trim(x.id))
               == Some(Snapshot(repo, Stored(x), ContentVersion(repo, x)))
  {
    hide After, Holds, Trim, IsBlank, LatestSnapshot, SnapshotOutcome, ContentVersion;
    FirstReading(repo, x);
    var w1 := After(repo, AvailabilityRuns.World([], None), Reads(x, true));
    ReadingOneItem(repo, w1, y, true);
    var s, c, m := SnapshotEvent(repo, x, 1), CompletenessEvent(repo, x), ObservedEvent(Source(repo), 1);
    HeldAfterFirst(repo, x, s.identity);
    HeldAfterFirst(repo, x, c.identity);
    HeldAfterFirst(repo, x, m.identity);
    LatestAfter([], s, Trim(x.id));
    LatestAfter([] + [s], c, Trim(x.id));
    LatestAfter([] + [s] + [c], m, Trim(x.id));
  }
}
