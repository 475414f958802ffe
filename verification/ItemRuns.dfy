/** Whole runs of the orchestrator adapter: re-entered states, leaving and returning items,
    repeated ids, outages and lost appends never pin a stale work-item. */
module ItemRuns {
  import opened Text
  import opened WorkItems
  import opened EventLog
  import opened Identities
  import opened Checkpoints
  import opened SourcePolling
  import opened Orchestrator

  function Source(repo: string): Adapter {
    Adapter(NAME, None, repo)
  }

  /** One raw spelling for every id the snapshots carry; snapshots trim, the ledger does not. */
  type Spelling = string -> string

  predicate Spelled(spell: Spelling, item: WorkItem) {
    item.id == spell(Trim(item.id))
  }

  predicate AllSpelled(spell: Spelling, items: seq<WorkItem>) {
    forall i :: 0 <= i < |items| ==> Spelled(spell, items[i])
  }

  // ----- The invariant -----------------------------------------------------

  /** Rows of this source are the adapter's own; snapshots come from nowhere else. */
  predicate OwnRow(repo: string, row: Event) {
    if row.source == NAME then
      IsOrchestrators(row.identity, repo) && (row.identity.SnapshotOf? <==> row.payload.WorkItemSnapshot?)
    else
      !row.payload.WorkItemSnapshot?
  }

  /** A snapshot row is content-addressed: identity, version and content go together. */
  predicate Addressed(repo: string, spell: Spelling, row: Event) {
    row.payload.WorkItemSnapshot? ==>
      && row.source == NAME && row.identity.SnapshotOf?
      && row.payload.snapshot.item.id == row.identity.itemId
      && row.payload.snapshot.version == row.identity.version
      && row.identity.version
         == ContentVersion(repo, row.payload.snapshot.item.(id := spell(row.identity.itemId)))
  }

  /** The ledger has seen this row, and its own epoch has one version. */
  predicate Behind(spell: Spelling, row: Event, ledger: Ledger) {
    row.payload.WorkItemSnapshot? && row.identity.SnapshotOf? ==>
      && spell(row.identity.itemId) in ledger
      && var seen := ledger[spell(row.identity.itemId)];
         && row.identity.epoch <= seen.epoch
         && (row.identity.epoch == seen.epoch ==> row.identity.version == seen.version)
  }

  predicate SameItem(a: Event, b: Event) {
    && a.payload.WorkItemSnapshot? && b.payload.WorkItemSnapshot?
    && a.identity.SnapshotOf? && b.identity.SnapshotOf?
    && a.identity.itemId == b.identity.itemId
  }

  predicate Ascending(a: Event, b: Event) {
    SameItem(a, b) ==> a.identity.epoch < b.identity.epoch
  }

  ghost predicate ItemsInStep(repo: string, spell: Spelling, rows: seq<Event>, ledger: Ledger) {
    && (forall i :: 0 <= i < |rows| ==>
          OwnRow(repo, rows[i]) && Addressed(repo, spell, rows[i]) && Behind(spell, rows[i], ledger))
    && (forall i, j :: 0 <= i < j < |rows| ==> Ascending(rows[i], rows[j]))
  }

  // ----- One append --------------------------------------------------------

  lemma AppendOther(repo: string, spell: Spelling, rows: seq<Event>, e: Event, lost: bool, ledger: Ledger)
    requires ItemsInStep(repo, spell, rows, ledger)
    requires OwnRow(repo, e) && !e.payload.WorkItemSnapshot?
    ensures ItemsInStep(repo, spell, Append(rows, e, lost), ledger)
    ensures forall id :: LatestSnapshot(Append(rows, e, lost), id) == LatestSnapshot(rows, id)
  {
    hide AppendOutcome, OwnRow, Addressed, Behind, Ascending;
    OtherRowIsNeutral(repo, spell, e, ledger);
    assert (rows + [e])[..|rows|] == rows;
  }

  lemma OtherRowIsNeutral(repo: string, spell: Spelling, e: Event, ledger: Ledger)
    requires !e.payload.WorkItemSnapshot?
    ensures Addressed(repo, spell, e) && Behind(spell, e, ledger)
    ensures forall row: Event :: Ascending(row, e)
  {
  }

  /** Whether recording the item leaves room for its next epoch. */
  predicate ItemRoomy(repo: string, item: WorkItem, ledger: Ledger) {
    item.id in ledger && ledger[item.id].version != ContentVersion(repo, item) ==> ledger[item.id].epoch < U64_MAX
  }

  /** Recording an observation never puts a row ahead of the ledger. */
  lemma RecordKeepsStep(repo: string, spell: Spelling, rows: seq<Event>, item: WorkItem, ledger: Ledger)
    requires ItemsInStep(repo, spell, rows, ledger)
    requires ItemRoomy(repo, item, ledger)
    ensures ItemsInStep(repo, spell, rows, Recorded(repo, item, ledger))
    ensures forall i :: 0 <= i < |rows| && rows[i].payload.WorkItemSnapshot?
                        && spell(rows[i].identity.itemId) == item.id
                        && rows[i].identity.epoch == ItemEpoch(repo, item, ledger)
                        ==> rows[i].identity.version == ContentVersion(repo, item)
  {
    hide OwnRow, ContentVersion;
    var next := Recorded(repo, item, ledger);
    forall i | 0 <= i < |rows| ensures Behind(spell, rows[i], next) {
      assert Behind(spell, rows[i], ledger);
    }
  }

  lemma SnapshotIsOwn(repo: string, spell: Spelling, item: WorkItem, epoch: nat)
    requires Spelled(spell, item)
    ensures var e := SnapshotEvent(repo, item, epoch);
            && OwnRow(repo, e) && Addressed(repo, spell, e)
            && e.identity == SnapshotOf(repo, Trim(item.id), ContentVersion(repo, item), epoch)
  {
    hide ContentVersion, Trim;
    assert Stored(item).(id := spell(Trim(item.id))) == item;
  }

  lemma SnapshotHasText(repo: string, item: WorkItem, epoch: nat)
    ensures SnapshotEvent(repo, item, epoch).identity.SourceEventId().Some?
  {
  }

  /** A snapshot row with the ledger's epoch of its item. */
  predicate IsCurrentRow(spell: Spelling, row: Event, itemId: string, ledger: Ledger) {
    && spell(itemId) in ledger
    && row.payload.WorkItemSnapshot? && row.identity.SnapshotOf?
    && row.identity.itemId == itemId && row.identity.epoch == ledger[spell(itemId)].epoch
  }

  ghost predicate HasCurrentRow(spell: Spelling, rows: seq<Event>, itemId: string, ledger: Ledger) {
    exists i :: 0 <= i < |rows| && IsCurrentRow(spell, rows[i], itemId, ledger)
  }

  /** Appending the snapshot of a freshly recorded item keeps the log in step; once accepted,
      new or already there, the item's current row is in the log. */
  lemma AppendSnapshot(repo: string, spell: Spelling, rows: seq<Event>, item: WorkItem, lost: bool, ledger: Ledger)
    requires Spelled(spell, item)
    requires ItemsInStep(repo, spell, rows, ledger)
    requires item.id in ledger && ledger[item.id].version == ContentVersion(repo, item)
    ensures var e := SnapshotEvent(repo, item, ledger[item.id].epoch);
            && ItemsInStep(repo, spell, Append(rows, e, lost), ledger)
            && (Accepted(AppendOutcome(rows, e, lost)) ==>
                  HasCurrentRow(spell, Append(rows, e, lost), Trim(item.id), ledger))
  {
    hide Identity.SourceEventId, Identity.EventId, ContentVersion, Trim, OwnRow, Addressed, IsOrchestrators;
    var epoch := ledger[item.id].epoch;
    var e := SnapshotEvent(repo, item, epoch);
    SnapshotIsOwn(repo, spell, item, epoch);
    SnapshotHasText(repo, item, epoch);
    if AppendOutcome(rows, e, lost) == Inserted {
      NothingAtThisEpoch(repo, spell, rows, item, ledger);
      var after := rows + [e];
      assert after[|rows|] == e && IsCurrentRow(spell, e, Trim(item.id), ledger);
      forall i, j | 0 <= i < j < |after| ensures Ascending(after[i], after[j]) {
        assert Behind(spell, after[i], ledger);
      }
    } else if AppendOutcome(rows, e, lost) == Duplicate {
      var i :| 0 <= i < |rows| && rows[i].IsTheRowOf(e);
      RowsOfOneText(repo, rows[i], e);
      assert Addressed(repo, spell, rows[i]) && IsCurrentRow(spell, rows[i], Trim(item.id), ledger);
    }
  }

  /** Same source and same text is the same observation. */
  lemma RowsOfOneText(repo: string, row: Event, e: Event)
    requires OwnRow(repo, row) && OwnRow(repo, e) && e.source == NAME
    requires e.identity.SourceEventId().Some? && row.IsTheRowOf(e)
    ensures row.identity == e.identity && (row.payload.WorkItemSnapshot? <==> e.payload.WorkItemSnapshot?)
  {
    hide Identity.SourceEventId, Identity.EventId, IsOrchestrators;
    OrchestratorsAreDistinct(row.identity, e.identity, repo);
  }

  /** When the store takes a snapshot as new, every stored epoch of its item is older. */
  lemma NothingAtThisEpoch(repo: string, spell: Spelling, rows: seq<Event>, item: WorkItem, ledger: Ledger)
    requires Spelled(spell, item)
    requires ItemsInStep(repo, spell, rows, ledger)
    requires item.id in ledger && ledger[item.id].version == ContentVersion(repo, item)
    requires !HasBlocker(rows, SnapshotEvent(repo, item, ledger[item.id].epoch))
    ensures forall i :: 0 <= i < |rows| && rows[i].payload.WorkItemSnapshot? && rows[i].identity.SnapshotOf?
                        && rows[i].identity.itemId == Trim(item.id)
                        ==> rows[i].identity.epoch < ledger[item.id].epoch
  {
    hide Event.Blocks, OwnRow, Addressed, ContentVersion, Trim, SnapshotEvent;
    forall i | 0 <= i < |rows| && rows[i].payload.WorkItemSnapshot? && rows[i].identity.SnapshotOf?
               && rows[i].identity.itemId == Trim(item.id)
      ensures rows[i].identity.epoch < ledger[item.id].epoch
    {
      assert Behind(spell, rows[i], ledger);
      if rows[i].identity.epoch == ledger[item.id].epoch {
        SameEpochBlocks(repo, spell, rows[i], item, ledger);
      }
    }
  }

  lemma SameEpochBlocks(repo: string, spell: Spelling, row: Event, item: WorkItem, ledger: Ledger)
    requires Spelled(spell, item)
    requires item.id in ledger && ledger[item.id].version == ContentVersion(repo, item)
    requires OwnRow(repo, row) && Behind(spell, row, ledger)
    requires row.payload.WorkItemSnapshot? && row.identity.SnapshotOf?
    requires row.identity.itemId == Trim(item.id) && row.identity.epoch == ledger[item.id].epoch
    ensures row.Blocks(SnapshotEvent(repo, item, ledger[item.id].epoch))
  {
    hide Identity.SourceEventId, Identity.EventId, ContentVersion, Trim;
    assert IsOrchestrators(row.identity, repo);
    assert row.identity == SnapshotEvent(repo, item, ledger[item.id].epoch).identity;
  }

  // ----- One array of records ----------------------------------------------

  predicate RoomyAll(repo: string, items: seq<WorkItem>, ledger: Ledger)
    decreases items
  {
    items != [] ==> ItemRoomy(repo, items[0], ledger) && RoomyAll(repo, items[1..], Recorded(repo, items[0], ledger))
  }

  /** The rows after one item's two events were offered. */
  function RowsAfterItem(repo: string, rows: seq<Event>, item: WorkItem, ledger: Ledger, lost: set<nat>, from: nat)
    : seq<Event>
  {
    Append(Append(rows, SnapshotEvent(repo, item, ItemEpoch(repo, item, ledger)), from in lost),
           CompletenessEvent(repo, item), from + 1 in lost)
  }

  lemma OfferItem(repo: string, rows: seq<Event>, items: seq<WorkItem>, ledger: Ledger, lost: set<nat>, from: nat)
    requires items != []
    ensures AppendAll(rows, EventsOf(repo, items, ledger), lost, from)
            == AppendAll(RowsAfterItem(repo, rows, items[0], ledger, lost, from),
                         EventsOf(repo, items[1..], Recorded(repo, items[0], ledger)), lost, from + 2)
  {
    hide Append, AppendAll, SnapshotEvent, CompletenessEvent, Recorded, EventsOf;
    EventsSplit(repo, items, ledger);
    OfferTwo(rows, SnapshotEvent(repo, items[0], ItemEpoch(repo, items[0], ledger)), CompletenessEvent(repo, items[0]),
             EventsOf(repo, items[1..], Recorded(repo, items[0], ledger)), lost, from);
  }

  lemma EventsSplit(repo: string, items: seq<WorkItem>, ledger: Ledger)
    requires items != []
    ensures EventsOf(repo, items, ledger)
            == [SnapshotEvent(repo, items[0], ItemEpoch(repo, items[0], ledger)), CompletenessEvent(repo, items[0])]
               + EventsOf(repo, items[1..], Recorded(repo, items[0], ledger))
  {
    hide SnapshotEvent, CompletenessEvent, Recorded, ItemEpoch;
  }

  lemma ItemKeepsStep(repo: string, spell: Spelling, rows: seq<Event>, item: WorkItem, ledger: Ledger,
                      lost: set<nat>, from: nat)
    requires ItemsInStep(repo, spell, rows, ledger) && Spelled(spell, item) && ItemRoomy(repo, item, ledger)
    ensures var after := RowsAfterItem(repo, rows, item, ledger, lost, from);
            && ItemsInStep(repo, spell, after, Recorded(repo, item, ledger))
            && (Accepted(AppendOutcome(rows, SnapshotEvent(repo, item, ItemEpoch(repo, item, ledger)), from in lost))
                ==> HasCurrentRow(spell, after, Trim(item.id), Recorded(repo, item, ledger)))
  {
    hide ItemsInStep, AppendOutcome, SnapshotEvent, ContentVersion, Trim, ItemEpoch;
    var next := Recorded(repo, item, ledger);
    RecordKeepsStep(repo, spell, rows, item, ledger);
    AppendSnapshot(repo, spell, rows, item, from in lost, next);
    var once := Append(rows, SnapshotEvent(repo, item, next[item.id].epoch), from in lost);
    AppendOther(repo, spell, once, CompletenessEvent(repo, item), from + 1 in lost, next);
    if HasCurrentRow(spell, once, Trim(item.id), next) {
      CurrentRowStays(spell, once, CompletenessEvent(repo, item), from + 1 in lost, Trim(item.id), next);
    }
  }

  lemma CurrentRowStays(spell: Spelling, rows: seq<Event>, e: Event, lost: bool, itemId: string, ledger: Ledger)
    requires HasCurrentRow(spell, rows, itemId, ledger)
    ensures HasCurrentRow(spell, Append(rows, e, lost), itemId, ledger)
  {
    hide AppendOutcome;
    var i :| 0 <= i < |rows| && IsCurrentRow(spell, rows[i], itemId, ledger);
    assert Append(rows, e, lost)[i] == rows[i];
  }

  lemma {:induction false} ArrayKeepsStep(repo: string, spell: Spelling, rows: seq<Event>, items: seq<WorkItem>,
                                          ledger: Ledger, lost: set<nat>, from: nat)
    requires ItemsInStep(repo, spell, rows, ledger) && AllSpelled(spell, items) && RoomyAll(repo, items, ledger)
    ensures ItemsInStep(repo, spell, AppendAll(rows, EventsOf(repo, items, ledger), lost, from),
                        RecordedAll(repo, items, ledger))
    decreases items
  {
    hide ItemsInStep, RowsAfterItem, Recorded, Spelled, ItemRoomy, ItemEvents;
    if items != [] {
      OfferItem(repo, rows, items, ledger, lost, from);
      ItemKeepsStep(repo, spell, rows, items[0], ledger, lost, from);
      ArrayKeepsStep(repo, spell, RowsAfterItem(repo, rows, items[0], ledger, lost, from), items[1..],
                     Recorded(repo, items[0], ledger), lost, from + 2);
    }
  }

  predicate NotAmong(items: seq<WorkItem>, id: string) {
    forall i :: 0 <= i < |items| ==> items[i].id != id
  }

  /** Recording other items leaves an item's current row current. */
  lemma {:induction false} OthersLeaveItCurrent(
      repo: string, spell: Spelling, rows: seq<Event>, items: seq<WorkItem>, ledger: Ledger,
      lost: set<nat>, from: nat, itemId: string)
    requires HasCurrentRow(spell, rows, itemId, ledger) && NotAmong(items, spell(itemId))
    ensures HasCurrentRow(spell, AppendAll(rows, EventsOf(repo, items, ledger), lost, from), itemId,
                          RecordedAll(repo, items, ledger))
    decreases items
  {
    hide AppendOutcome, Append, SnapshotEvent, CompletenessEvent, ContentVersion, ItemEpoch;
    if items != [] {
      OfferItem(repo, rows, items, ledger, lost, from);
      var next := Recorded(repo, items[0], ledger);
      var i :| 0 <= i < |rows| && IsCurrentRow(spell, rows[i], itemId, ledger);
      assert IsCurrentRow(spell, rows[i], itemId, next);
      var e := SnapshotEvent(repo, items[0], ItemEpoch(repo, items[0], ledger));
      CurrentRowStays(spell, rows, e, from in lost, itemId, next);
      CurrentRowStays(spell, Append(rows, e, from in lost), CompletenessEvent(repo, items[0]), from + 1 in lost, itemId, next);
      OthersLeaveItCurrent(repo, spell, RowsAfterItem(repo, rows, items[0], ledger, lost, from), items[1..], next,
                           lost, from + 2, itemId);
    }
  }

  /** In the array, the last record of an item whose snapshot was accepted leaves its row
      current once the whole array is through. */
  lemma {:induction false} AcceptedLastRecordIsCurrent(
      repo: string, spell: Spelling, rows: seq<Event>, items: seq<WorkItem>, ledger: Ledger,
      lost: set<nat>, from: nat, k: nat)
    requires ItemsInStep(repo, spell, rows, ledger) && AllSpelled(spell, items) && RoomyAll(repo, items, ledger)
    requires k < |items| && NotAmong(items[k + 1..], items[k].id)
    requires |EventsOf(repo, items, ledger)| == 2 * |items|
    requires Accepted(OutcomeAt(rows, EventsOf(repo, items, ledger), lost, from, 2 * k))
    ensures HasCurrentRow(spell, AppendAll(rows, EventsOf(repo, items, ledger), lost, from), Trim(items[k].id),
                          RecordedAll(repo, items, ledger))
    ensures items[k].id in RecordedAll(repo, items, ledger)
            && RecordedAll(repo, items, ledger)[items[k].id].version == ContentVersion(repo, items[k])
    decreases items
  {
    hide ItemsInStep, HasCurrentRow, AppendOutcome, Append, SnapshotEvent, CompletenessEvent, ContentVersion, ItemEpoch,
         ItemRoomy, RowsAfterItem;
    var events := EventsOf(repo, items, ledger);
    var next := Recorded(repo, items[0], ledger);
    var after := RowsAfterItem(repo, rows, items[0], ledger, lost, from);
    var rest := EventsOf(repo, items[1..], next);
    OfferItem(repo, rows, items, ledger, lost, from);
    ItemKeepsStep(repo, spell, rows, items[0], ledger, lost, from);
    if k == 0 {
      assert events[..0] == [] && events[0] == SnapshotEvent(repo, items[0], ItemEpoch(repo, items[0], ledger));
      assert spell(Trim(items[0].id)) == items[0].id;
      OthersLeaveItCurrent(repo, spell, after, items[1..], next, lost, from + 2, Trim(items[0].id));
      OthersKeepTheEntry(repo, items[1..], next, items[0].id);
    } else {
      EventsAreTwoPerItem(repo, items[1..], next);
      OutcomeInTheRest(repo, rows, items, ledger, lost, from, 2 * k);
      assert items[1..][k - 1] == items[k] && items[1..][k..] == items[k + 1..];
      AcceptedLastRecordIsCurrent(repo, spell, after, items[1..], next, lost, from + 2, k - 1);
    }
  }

  lemma OutcomeInTheRest(repo: string, rows: seq<Event>, items: seq<WorkItem>, ledger: Ledger,
                         lost: set<nat>, from: nat, i: nat)
    requires items != [] && 2 <= i < |EventsOf(repo, items, ledger)|
    ensures var next := Recorded(repo, items[0], ledger);
            && i - 2 < |EventsOf(repo, items[1..], next)|
            && OutcomeAt(rows, EventsOf(repo, items, ledger), lost, from, i)
               == OutcomeAt(RowsAfterItem(repo, rows, items[0], ledger, lost, from),
                            EventsOf(repo, items[1..], next), lost, from + 2, i - 2)
  {
    hide OutcomeAt, Append, SnapshotEvent, CompletenessEvent, Recorded, EventsOf;
    EventsSplit(repo, items, ledger);
    OutcomeBehindTwo(rows, SnapshotEvent(repo, items[0], ItemEpoch(repo, items[0], ledger)),
                     CompletenessEvent(repo, items[0]),
                     EventsOf(repo, items[1..], Recorded(repo, items[0], ledger)), lost, from, i - 2);
  }

  lemma OfferTwo(rows: seq<Event>, x: Event, y: Event, rest: seq<Event>, lost: set<nat>, from: nat)
    ensures AppendAll(rows, [x, y] + rest, lost, from)
            == AppendAll(Append(Append(rows, x, from in lost), y, from + 1 in lost), rest, lost, from + 2)
  {
    hide Append;
    assert ([x, y] + rest)[1..] == [y] + rest;
    assert ([y] + rest)[1..] == rest;
  }

  lemma OutcomeBehindTwo(rows: seq<Event>, x: Event, y: Event, rest: seq<Event>, lost: set<nat>, from: nat, i: nat)
    requires i < |rest|
    ensures OutcomeAt(rows, [x, y] + rest, lost, from, i + 2)
            == OutcomeAt(Append(Append(rows, x, from in lost), y, from + 1 in lost), rest, lost, from + 2, i)
  {
    hide Append, AppendOutcome, AppendAll;
    assert ([x, y] + rest)[..i + 2] == [x, y] + rest[..i];
    OfferTwo(rows, x, y, rest[..i], lost, from);
  }

  lemma {:induction false} OthersKeepTheEntry(repo: string, items: seq<WorkItem>, ledger: Ledger, id: string)
    requires id in ledger && NotAmong(items, id)
    ensures id in RecordedAll(repo, items, ledger) && RecordedAll(repo, items, ledger)[id] == ledger[id]
    decreases items
  {
    hide ContentVersion, ItemEpoch;
    if items != [] {
      OthersKeepTheEntry(repo, items[1..], Recorded(repo, items[0], ledger), id);
    }
  }

  /** A current row is the latest observation of its item. */
  lemma {:induction false} CurrentRowIsLatest(
      repo: string, spell: Spelling, rows: seq<Event>, i: nat, itemId: string, ledger: Ledger)
    requires ItemsInStep(repo, spell, rows, ledger)
    requires i < |rows| && IsCurrentRow(spell, rows[i], itemId, ledger)
    ensures LatestSnapshot(rows, itemId) == Some(rows[i].payload.snapshot)
    ensures var latest := rows[i].payload.snapshot;
            && latest.version == ledger[spell(itemId)].version
            && latest.item.id == itemId
            && ContentVersion(repo, latest.item.(id := spell(itemId))) == latest.version
  {
    hide ContentVersion, IsOrchestrators;
    var n := |rows| - 1;
    assert Addressed(repo, spell, rows[i]) && Behind(spell, rows[i], ledger);
    if i < n {
      assert Addressed(repo, spell, rows[n]) && Behind(spell, rows[n], ledger) && Ascending(rows[i], rows[n]);
      assert rows[..n][i] == rows[i];
      CurrentRowIsLatest(repo, spell, rows[..n], i, itemId, ledger);
    }
  }
}
