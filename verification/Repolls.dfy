/** Polling unchanged work-items again: nothing new lands, and nothing is forgotten. */
module Repolls {
  import opened Text
  import opened WorkItems
  import opened EventLog
  import opened Checkpoints
  import opened SourcePolling
  import opened Orchestrator
  import opened ItemRuns
  import opened WorkItemRuns
  import opened LaneBoard
  import opened Identities
  import AvailabilityRuns

  // ----- Stored events are ignored -----------------------------------------

  lemma StoredIsIgnored(rows: seq<Event>, e: Event, lost: bool)
    requires HasRowOf(rows, e)
    ensures Append(rows, e, lost) == rows
  {
    hide Event.IsTheRowOf;
    var i :| 0 <= i < |rows| && rows[i].IsTheRowOf(e);
    assert rows[i].Blocks(e);
  }

  lemma {:induction false} StoredAreIgnored(rows: seq<Event>, events: seq<Event>, lost: set<nat>, from: nat)
    requires forall i :: 0 <= i < |events| ==> HasRowOf(rows, events[i])
    ensures AppendAll(rows, events, lost, from) == rows
    decreases events
  {
    hide Append, HasRowOf;
    if events != [] {
      StoredIsIgnored(rows, events[0], from in lost);
      StoredAreIgnored(rows, events[1..], lost, from + 1);
    }
  }

  // ----- The same records at the same epochs -------------------------------

  predicate DistinctIds(items: seq<WorkItem>) {
    forall i, j :: 0 <= i < j < |items| ==> items[i].id != items[j].id
  }

  /** The events of items that are all at the epochs `ledger` records. */
  function EventsAt(repo: string, items: seq<WorkItem>, ledger: Ledger): seq<Event> {
    if items == [] || items[0].id !in ledger then []
    else
      [SnapshotEvent(repo, items[0], ledger[items[0].id].epoch), CompletenessEvent(repo, items[0])]
      + EventsAt(repo, items[1..], ledger)
  }

  predicate AllRecorded(repo: string, items: seq<WorkItem>, ledger: Ledger) {
    forall i :: 0 <= i < |items| ==>
      items[i].id in ledger && ledger[items[i].id].version == ContentVersion(repo, items[i])
  }

  lemma {:induction false} DistinctItemsEndRecorded(repo: string, items: seq<WorkItem>, ledger: Ledger)
    requires DistinctIds(items)
    ensures AllRecorded(repo, items, RecordedAll(repo, items, ledger))
    ensures EventsOf(repo, items, ledger) == EventsAt(repo, items, RecordedAll(repo, items, ledger))
    decreases items
  {
    hide ContentVersion, SnapshotEvent, CompletenessEvent, ItemEpoch;
    if items != [] {
      var next := Recorded(repo, items[0], ledger);
      DistinctItemsEndRecorded(repo, items[1..], next);
      OthersKeepTheEntry(repo, items[1..], next, items[0].id);
    }
  }

  lemma {:induction false} RecordedItemsStay(repo: string, items: seq<WorkItem>, ledger: Ledger)
    requires AllRecorded(repo, items, ledger)
    ensures RecordedAll(repo, items, ledger) == ledger
    ensures EventsOf(repo, items, ledger) == EventsAt(repo, items, ledger)
    decreases items
  {
    hide ContentVersion, SnapshotEvent, CompletenessEvent;
    if items != [] {
      assert Recorded(repo, items[0], ledger) == ledger;
      RecordedItemsStay(repo, items[1..], ledger);
    }
  }

  // ----- The law -----------------------------------------------------------

  lemma DataTurn(repo: string, w: World, step: Step)
    requires step.Turn? && Readable(w) && TurnItems(step) != []
    ensures var items, ledger, previous := TurnItems(step), RecoveredLedger(w.checkpoint), Requested(w.checkpoint).value;
            var poll := AvailabilityRuns.PollOf(Source(repo), w, step.Of(repo));
            && poll.events == EventsOf(repo, items, ledger) + [ObservedEvent(Source(repo), TransitionEpoch(previous, Observed))]
            && poll.checkpoint == Transition(previous, Observed, LedgerCheckpoint(RecordedAll(repo, items, ledger)))
  {
    hide RecordedAll, EventsOf, Interpreted, ObservedEvent, TransitionEpoch;
    var previous := Requested(w.checkpoint).value;
    assert LedgerFrom(SourceCheckpoint(previous)) == RecoveredLedger(w.checkpoint);
    NormalizedItems(repo, step, SourceCheckpoint(previous));
    NoRecordsNoItems();
    EventsAreTwoPerItem(repo, TurnItems(step), RecoveredLedger(w.checkpoint));
  }

  /** After a saved data-bearing turn without repeated ids that lost nothing, polling the
      same listing again changes neither the log nor the checkpoint, whatever the second
      poll loses or fails to save. */
  lemma RepollingChangesNothing(repo: string, w: World, first: Step, second: Step)
    requires first.Turn? && second.Turn? && Readable(w)
    requires TurnItems(first) != [] && DistinctIds(TurnItems(first)) && first.saved
    requires var events := TurnEvents(repo, w, first);
             forall i :: 0 <= i < |events| ==> !Refuses(w.rows, events, first.lost, i)
    requires second.probe == first.probe && second.listing == first.listing
    ensures After(repo, After(repo, w, first), second) == After(repo, w, first)
  {
    hide RecordedAll, EventsOf, EventsAt, TurnItems, AppendAll, Refuses, HasRowOf, AllRecorded, ObservedEvent, Poll;
    var items, ledger := TurnItems(first), RecoveredLedger(w.checkpoint);
    var middle := After(repo, w, first);
    assert TurnItems(second) == items by {
      SameListingSameItems(first, second);
    }
    DataTurn(repo, w, first);
    DataTurn(repo, middle, second);
    DistinctItemsEndRecorded(repo, items, ledger);
    RecordedItemsStay(repo, items, RecordedAll(repo, items, ledger));
    var events := TurnEvents(repo, w, first);
    forall i | 0 <= i < |events| ensures HasRowOf(middle.rows, events[i]) {
      AcceptedIsStored(w.rows, events, first.lost, i);
    }
    assert TurnEvents(repo, middle, second) == events;
    StoredAreIgnored(middle.rows, events, second.lost, 0);
  }

  lemma SameListingSameItems(first: Step, second: Step)
    requires first.Turn? && second.Turn?
    requires second.probe == first.probe && second.listing == first.listing
    ensures TurnItems(second) == TurnItems(first)
  {
  }

  // ----- The one field the version does not cover --------------------------

  /** The first row of the same source and identity as `e`. */
  function StoredUnder(rows: seq<Event>, e: Event): Option<Event> {
    if rows == [] then None
    else if rows[0].source == e.source && rows[0].identity == e.identity then Some(rows[0])
    else StoredUnder(rows[1..], e)
  }

  lemma {:induction false} StoredUnderIsARow(rows: seq<Event>, e: Event) returns (i: nat)
    ensures StoredUnder(rows, e).Some? ==>
      && i < |rows| && rows[i].source == e.source && rows[i].identity == e.identity
      && StoredUnder(rows, e) == Some(rows[i])
    ensures StoredUnder(rows, e).None? ==>
      forall k :: 0 <= k < |rows| ==> !(rows[k].source == e.source && rows[k].identity == e.identity)
  {
    i := 0;
    if rows != [] && !(rows[0].source == e.source && rows[0].identity == e.identity) {
      i := StoredUnderIsARow(rows[1..], e);
      i := i + 1;
    }
  }

  /** The row an accepted snapshot stands for: the stored one, or itself. */
  function StandsFor(rows: seq<Event>, e: Event): Event {
    if StoredUnder(rows, e).Some? then StoredUnder(rows, e).value else e
  }

  lemma AcceptedStandsInTheLog(repo: string, rows: seq<Event>, e: Event, lost: bool) returns (i: nat)
    requires forall k :: 0 <= k < |rows| ==> OwnRow(repo, rows[k])
    requires OwnRow(repo, e) && e.source == NAME && e.identity.SourceEventId().Some?
    requires Accepted(AppendOutcome(rows, e, lost))
    ensures i < |Append(rows, e, lost)| && Append(rows, e, lost)[i] == StandsFor(rows, e)
  {
    hide Identity.SourceEventId, Identity.EventId, OwnRow, StoredUnder;
    var k := StoredUnderIsARow(rows, e);
    if StoredUnder(rows, e).Some? {
      i := k;
    } else if AppendOutcome(rows, e, lost) == Inserted {
      i := |rows|;
    } else {
      var j :| 0 <= j < |rows| && rows[j].IsTheRowOf(e);
      RowsOfOneText(repo, rows[j], e);
      assert false;
    }
  }

  lemma {:induction false} AppendAllOwn(repo: string, rows: seq<Event>, events: seq<Event>, lost: set<nat>, from: nat)
    requires forall k :: 0 <= k < |rows| ==> OwnRow(repo, rows[k])
    requires forall k :: 0 <= k < |events| ==> OwnRow(repo, events[k])
    ensures forall k :: 0 <= k < |AppendAll(rows, events, lost, from)| ==>
      OwnRow(repo, AppendAll(rows, events, lost, from)[k])
    decreases events
  {
    hide OwnRow, AppendOutcome;
    if events != [] {
      AppendAllOwn(repo, Append(rows, events[0], from in lost), events[1..], lost, from + 1);
    }
  }

  lemma {:induction false} EventsAreOwn(repo: string, items: seq<WorkItem>, ledger: Ledger)
    ensures forall k :: 0 <= k < |EventsOf(repo, items, ledger)| ==> OwnRow(repo, EventsOf(repo, items, ledger)[k])
    decreases items
  {
    hide ContentVersion, Recorded;
    if items != [] {
      EventsAreOwn(repo, items[1..], Recorded(repo, items[0], ledger));
      EventsSplit(repo, items, ledger);
    }
  }

  /** The last record of an item is offered at the epoch the ledger ends up with. */
  lemma {:induction false} OfferedAtTheFinalEpoch(repo: string, items: seq<WorkItem>, ledger: Ledger, k: nat)
    requires k < |items| && NotAmong(items[k + 1..], items[k].id)
    ensures 2 * k < |EventsOf(repo, items, ledger)|
    ensures items[k].id in RecordedAll(repo, items, ledger)
    ensures EventsOf(repo, items, ledger)[2 * k]
            == SnapshotEvent(repo, items[k], RecordedAll(repo, items, ledger)[items[k].id].epoch)
    decreases items
  {
    hide ContentVersion, SnapshotEvent, CompletenessEvent, ItemEpoch;
    var next := Recorded(repo, items[0], ledger);
    if k == 0 {
      OthersKeepTheEntry(repo, items[1..], next, items[0].id);
    } else {
      assert items[1..][k - 1] == items[k] && items[1..][k..] == items[k + 1..];
      OfferedAtTheFinalEpoch(repo, items[1..], next, k - 1);
    }
  }

  lemma OfferedIsTheLastRecord(repo: string, w: World, step: Step, k: nat)
    requires step.Turn? && Readable(w) && IsLastRecord(step, k)
    ensures var item, ledger := TurnItems(step)[k], RecordedAll(repo, TurnItems(step), RecoveredLedger(w.checkpoint));
            && 2 * k < |TurnEvents(repo, w, step)| && item.id in ledger
            && OfferedSnapshot(repo, w, step, k) == SnapshotEvent(repo, item, ledger[item.id].epoch)
  {
    hide RecordedAll, EventsOf, TurnItems, Poll, RecoveredLedger, ContentVersion, AppendAll, SnapshotEvent, OutcomeAt;
    SnapshotOutcomeInTheArray(repo, w, step, k);
    OfferedAtTheFinalEpoch(repo, TurnItems(step), RecoveredLedger(w.checkpoint), k);
  }

  /** What was accepted in the middle of a turn is still there after it. */
  lemma AcceptedIsInTheLogAfter(repo: string, w: World, step: Step, k: nat) returns (i: nat)
    requires step.Turn? && Readable(w) && k < |TurnItems(step)|
    requires forall j :: 0 <= j < |w.rows| ==> OwnRow(repo, w.rows[j])
    requires 2 * k < |TurnEvents(repo, w, step)| && Accepted(SnapshotOutcome(repo, w, step, k))
    requires var e := OfferedSnapshot(repo, w, step, k);
             OwnRow(repo, e) && e.source == NAME && e.identity.SourceEventId().Some?
    ensures i < |After(repo, w, step).rows|
    ensures After(repo, w, step).rows[i] == StandsFor(RowsBefore(repo, w, step, k), OfferedSnapshot(repo, w, step, k))
  {
    hide RecordedAll, EventsOf, TurnItems, Poll, RecoveredLedger, OwnRow, AppendOutcome, Identity.SourceEventId, StandsFor,
         AppendAll, Append;
    var marker := TurnRows(repo, w, step);
    var events := EventsOf(repo, TurnItems(step), RecoveredLedger(w.checkpoint));
    SnapshotOutcomeInTheArray(repo, w, step, k);
    EventsAreOwn(repo, TurnItems(step), RecoveredLedger(w.checkpoint));
    var before, e := RowsBefore(repo, w, step, k), events[2 * k];
    AppendAllOwn(repo, w.rows, events[..2 * k], step.lost, 0);
    i := AcceptedStandsInTheLog(repo, before, e, 2 * k in step.lost);
    AppendAllSplits(w.rows, events[..2 * k], [e] + events[2 * k + 1..], step.lost, 0);
    assert events == events[..2 * k] + ([e] + events[2 * k + 1..]);
    OfferFirst(before, e, events[2 * k + 1..], step.lost, 2 * k);
    AppendAllGrows(Append(before, e, 2 * k in step.lost), events[2 * k + 1..], step.lost, 2 * k + 1);
    AppendGrows(AppendAll(w.rows, events, step.lost, 0), marker, |events| in step.lost);
  }

  lemma OfferFirst(rows: seq<Event>, e: Event, rest: seq<Event>, lost: set<nat>, from: nat)
    ensures AppendAll(rows, [e] + rest, lost, from) == AppendAll(Append(rows, e, from in lost), rest, lost, from + 1)
  {
    hide Append;
    assert ([e] + rest)[1..] == rest;
  }

  lemma AppendGrows(rows: seq<Event>, e: Event, lost: bool)
    ensures rows <= Append(rows, e, lost)
  {
    hide AppendOutcome;
  }

  /** The board against the whole record. After an accepted last record, the item shown is the
      record itself, scope-override flag included, exactly when its identity was new to the
      store or was stored with the same flag. */
  lemma BoardShowsTheFlagIff(repo: string, spell: Spelling, w: World, step: Step, k: nat)
    requires step.Turn? && Readable(w) && Inv(repo, spell, w) && Legal(repo, spell, w, step)
    requires IsLastRecord(step, k) && Accepted(SnapshotOutcome(repo, w, step, k))
    requires 2 * k < |TurnEvents(repo, w, step)|
    ensures var item := TurnItems(step)[k];
            var stored := StoredUnder(RowsBefore(repo, w, step, k), OfferedSnapshot(repo, w, step, k));
            var shown := LatestSnapshot(After(repo, w, step).rows, Trim(item.id));
            && shown.Some?
            && (stored.Some? ==> stored.value.payload.WorkItemSnapshot?)
            && (NoCollision(repo, shown.value.item.(id := item.id), item) ==>
                  (shown.value.item == Stored(item) <==>
                     stored.None?
                     || stored.value.payload.snapshot.item.detail.awaitsScopeOverride == item.detail.awaitsScopeOverride))
  {
    hide RecordedAll, ItemsInStep, TurnItems, RoomyAll, SnapshotOutcome, ContentVersion, RecoveredLedger, Trim,
         NoCollision, AllSpelled, EventsOf, AppendAll, IsOrchestrators, StoredUnder, RowsBefore, OfferedSnapshot, Poll;
    var item := TurnItems(step)[k];
    var after := After(repo, w, step).rows;
    var ledger := RecordedAll(repo, TurnItems(step), RecoveredLedger(w.checkpoint));
    AcceptedRecordIsCurrent(repo, spell, w, step, k);
    OfferedIsTheLastRecord(repo, w, step, k);
    var e := OfferedSnapshot(repo, w, step, k);
    SnapshotIsOwn(repo, spell, item, ledger[item.id].epoch);
    SnapshotHasText(repo, item, ledger[item.id].epoch);
    InvRowsAreOwn(repo, spell, w);
    var i := AcceptedIsInTheLogAfter(repo, w, step, k);
    var j := StoredUnderIsARow(RowsBefore(repo, w, step, k), e);
    InStepRowsAreOwn(repo, spell, after, ledger, i);
    CurrentRowIsLatest(repo, spell, after, i, Trim(item.id), ledger);
    var shown := after[i].payload.snapshot.item;
    if NoCollision(repo, shown.(id := item.id), item) {
      VersionIdentifiesContent(repo, shown.(id := item.id), item);
      SameContentSameFlag(shown, item);
    }
  }

  lemma SameContentSameFlag(shown: WorkItem, item: WorkItem)
    requires shown.id == Trim(item.id) && Content(shown.(id := item.id)) == Content(item)
    ensures shown == Stored(item) <==> shown.detail.awaitsScopeOverride == item.detail.awaitsScopeOverride
  {
    hide Trim;
    var a, b := shown.detail, item.detail;
    assert Hashed(a) == Hashed(b);
    if a.awaitsScopeOverride == b.awaitsScopeOverride {
      assert a == Hashed(a).(awaitsScopeOverride := a.awaitsScopeOverride);
      assert b == Hashed(b).(awaitsScopeOverride := b.awaitsScopeOverride);
    }
  }

  lemma InvRowsAreOwn(repo: string, spell: Spelling, w: World)
    requires Inv(repo, spell, w)
    ensures forall j :: 0 <= j < |w.rows| ==> OwnRow(repo, w.rows[j])
  {
  }

  lemma InStepRowsAreOwn(repo: string, spell: Spelling, rows: seq<Event>, ledger: Ledger, i: nat)
    requires ItemsInStep(repo, spell, rows, ledger) && i < |rows|
    ensures OwnRow(repo, rows[i])
  {
  }
}
