/** What the lane board shows after a poll: the last record the poll brought for an item,
    on every field the version covers. */
module LaneBoard {
  import opened Text
  import opened WorkItems
  import opened EventLog
  import opened Checkpoints
  import opened SourcePolling
  import opened Orchestrator
  import opened ItemRuns
  import opened WorkItemRuns
  import AvailabilityRuns

  // ----- Legal runs and their invariant ------------------------------------

  ghost predicate Inv(repo: string, spell: Spelling, w: World) {
    ItemsInStep(repo, spell, w.rows, RecoveredLedger(w.checkpoint))
  }

  /** The side conditions of a step: each id has one raw spelling, epochs have room, a save
      may only fail when there is nothing new to remember, and no other writer writes
      snapshots or uses this source's name. */
  predicate Legal(repo: string, spell: Spelling, w: World, step: Step) {
    match step
    case Turn(_, _, _, saved) =>
      var items, ledger := TurnItems(step), RecoveredLedger(w.checkpoint);
      && AllSpelled(spell, items)
      && RoomyAll(repo, items, ledger)
      && (saved || RecordedAll(repo, items, ledger) == ledger)
    case Elsewhere(event, _) => event.source != NAME && !event.payload.WorkItemSnapshot?
  }

  predicate LegalRun(repo: string, spell: Spelling, w: World, steps: seq<Step>) {
    forall k :: 0 <= k < |steps| ==> Legal(repo, spell, Run(repo, w, steps[..k]), steps[k])
  }

  lemma ColdStart(repo: string, spell: Spelling, rows: seq<Event>)
    requires forall i :: 0 <= i < |rows| ==> rows[i].source != NAME && !rows[i].payload.WorkItemSnapshot?
    ensures Inv(repo, spell, AvailabilityRuns.World(rows, None))
  {
  }

  lemma TurnRows(repo: string, w: World, step: Step) returns (marker: Event)
    requires step.Turn? && Readable(w)
    ensures var items, ledger := TurnItems(step), RecoveredLedger(w.checkpoint);
            && AvailabilityRuns.PollOf(Source(repo), w, step.Of(repo)).events
               == EventsOf(repo, items, ledger) + [marker]
            && After(repo, w, step).rows
               == Append(AppendAll(w.rows, EventsOf(repo, items, ledger), step.lost, 0), marker,
                         |EventsOf(repo, items, ledger)| in step.lost)
    ensures OwnRow(repo, marker) && !marker.payload.WorkItemSnapshot?
  {
    hide RecordedAll, EventsOf, Poll, OwnRow, AppendAll, TurnItems, Append, RecoveredLedger;
    marker := TurnShape(repo, w, step);
    var events := EventsOf(repo, TurnItems(step), RecoveredLedger(w.checkpoint));
    AppendAllSplits(w.rows, events, [marker], step.lost, 0);
    AvailabilityRuns.AppendOnly(AppendAll(w.rows, events, step.lost, 0), marker, step.lost, |events|);
  }

  lemma StepKeepsInv(repo: string, spell: Spelling, w: World, step: Step)
    requires Readable(w) && Inv(repo, spell, w) && Legal(repo, spell, w, step)
    ensures Readable(After(repo, w, step)) && Inv(repo, spell, After(repo, w, step))
  {
    hide RecordedAll, EventsOf, ItemsInStep, AppendAll, TurnItems, Append, RecoveredLedger, RoomyAll, AllSpelled;
    TurnLedger(repo, w, step);
    var ledger := RecoveredLedger(w.checkpoint);
    match step
    case Elsewhere(event, refused) =>
      AppendOther(repo, spell, w.rows, event, refused, ledger);
    case Turn(_, _, lost, _) =>
      var items := TurnItems(step);
      var marker := TurnRows(repo, w, step);
      var data := AppendAll(w.rows, EventsOf(repo, items, ledger), lost, 0);
      ArrayKeepsStep(repo, spell, w.rows, items, ledger, lost, 0);
      AppendOther(repo, spell, data, marker, |EventsOf(repo, items, ledger)| in lost, RecordedAll(repo, items, ledger));
  }

  lemma {:induction false} RunKeepsInv(repo: string, spell: Spelling, w: World, steps: seq<Step>)
    requires Readable(w) && Inv(repo, spell, w) && LegalRun(repo, spell, w, steps)
    ensures Readable(Run(repo, w, steps)) && Inv(repo, spell, Run(repo, w, steps))
  {
    hide Inv, Legal, After, Readable;
    if steps != [] {
      var n := |steps| - 1;
      forall k | 0 <= k < n ensures Legal(repo, spell, Run(repo, w, steps[..n][..k]), steps[..n][k]) {
        assert steps[..n][..k] == steps[..k];
      }
      RunKeepsInv(repo, spell, w, steps[..n]);
      StepKeepsInv(repo, spell, Run(repo, w, steps[..n]), steps[n]);
    }
  }

  // ----- The last record of an item ----------------------------------------

  /** Whether the `k`-th item a turn brings is the last the turn says of that id. */
  predicate IsLastRecord(step: Step, k: nat) {
    k < |TurnItems(step)| && NotAmong(TurnItems(step)[k + 1..], TurnItems(step)[k].id)
  }

  function TurnEvents(repo: string, w: World, step: Step): seq<Event>
    requires step.Turn? && Readable(w)
  {
    AvailabilityRuns.PollOf(Source(repo), w, step.Of(repo)).events
  }

  /** The log as the `k`-th item's snapshot is offered to it. */
  function RowsBefore(repo: string, w: World, step: Step, k: nat): seq<Event>
    requires step.Turn? && Readable(w)
  {
    var events := TurnEvents(repo, w, step);
    if 2 * k < |events| then AppendAll(w.rows, events[..2 * k], step.lost, 0) else w.rows
  }

  function OfferedSnapshot(repo: string, w: World, step: Step, k: nat): Event
    requires step.Turn? && Readable(w) && 2 * k < |TurnEvents(repo, w, step)|
  {
    TurnEvents(repo, w, step)[2 * k]
  }

  /** The store's answer to the `k`-th item's snapshot. */
  function SnapshotOutcome(repo: string, w: World, step: Step, k: nat): Outcome {
    if step.Turn? && Readable(w) && 2 * k < |TurnEvents(repo, w, step)| then
      AppendOutcome(RowsBefore(repo, w, step, k), OfferedSnapshot(repo, w, step, k), 2 * k in step.lost)
    else Failed
  }

  lemma SnapshotOutcomeInTheArray(repo: string, w: World, step: Step, k: nat)
    requires step.Turn? && Readable(w) && k < |TurnItems(step)|
    ensures var events := EventsOf(repo, TurnItems(step), RecoveredLedger(w.checkpoint));
            && |events| == 2 * |TurnItems(step)|
            && 2 * k < |TurnEvents(repo, w, step)|
            && OfferedSnapshot(repo, w, step, k) == events[2 * k]
            && RowsBefore(repo, w, step, k) == AppendAll(w.rows, events[..2 * k], step.lost, 0)
            && SnapshotOutcome(repo, w, step, k) == OutcomeAt(w.rows, events, step.lost, 0, 2 * k)
  {
    hide EventsOf, Poll, OwnRow, AppendAll, TurnItems, Append, AppendOutcome, RecoveredLedger;
    var marker := TurnRows(repo, w, step);
    var items, ledger := TurnItems(step), RecoveredLedger(w.checkpoint);
    var events := EventsOf(repo, items, ledger);
    EventsAreTwoPerItem(repo, items, ledger);
    assert TurnEvents(repo, w, step) == events + [marker];
    assert (events + [marker])[..2 * k] == events[..2 * k];
  }

  /** After a turn, an accepted last record has its current row in the log. */
  lemma AcceptedRecordIsCurrent(repo: string, spell: Spelling, w: World, step: Step, k: nat)
    requires step.Turn? && Readable(w) && Inv(repo, spell, w) && Legal(repo, spell, w, step)
    requires IsLastRecord(step, k) && Accepted(SnapshotOutcome(repo, w, step, k))
    ensures var item, after := TurnItems(step)[k], After(repo, w, step);
            var ledger := RecordedAll(repo, TurnItems(step), RecoveredLedger(w.checkpoint));
            && ItemsInStep(repo, spell, after.rows, ledger)
            && HasCurrentRow(spell, after.rows, Trim(item.id), ledger)
            && spell(Trim(item.id)) == item.id && item.id in ledger
            && ledger[item.id].version == ContentVersion(repo, item)
  {
    hide RecordedAll, EventsOf, ItemsInStep, HasCurrentRow, AppendAll, TurnItems, Append, RecoveredLedger, RoomyAll,
         OutcomeAt, SnapshotOutcome, ContentVersion;
    var items, ledger := TurnItems(step), RecoveredLedger(w.checkpoint);
    var events := EventsOf(repo, items, ledger);
    var marker := TurnRows(repo, w, step);
    SnapshotOutcomeInTheArray(repo, w, step, k);
    ArrayKeepsStep(repo, spell, w.rows, items, ledger, step.lost, 0);
    AcceptedLastRecordIsCurrent(repo, spell, w.rows, items, ledger, step.lost, 0, k);
    var data, next := AppendAll(w.rows, events, step.lost, 0), RecordedAll(repo, items, ledger);
    AppendOther(repo, spell, data, marker, |events| in step.lost, next);
    CurrentRowStays(spell, data, marker, |events| in step.lost, Trim(items[k].id), next);
  }

  /** The lane-board law. In any run, whatever an item did before - re-entering a state,
      leaving, returning, appearing twice in one array - after any turn whose snapshot of its
      last record was accepted the board holds that record: at its version always, and equal
      in everything but the scope-override flag unless the two collide under the hash. */
  lemma BoardShowsTheLastRecord(repo: string, spell: Spelling, w: World, steps: seq<Step>, t: nat, k: nat)
    requires Readable(w) && Inv(repo, spell, w) && LegalRun(repo, spell, w, steps)
    requires t < |steps| && steps[t].Turn? && IsLastRecord(steps[t], k)
    requires Accepted(SnapshotOutcome(repo, Run(repo, w, steps[..t]), steps[t], k))
    ensures var item := TurnItems(steps[t])[k];
            var shown := LatestSnapshot(Run(repo, w, steps[..t + 1]).rows, Trim(item.id));
            && shown.Some?
            && shown.value.version == ContentVersion(repo, item)
            && shown.value.item.id == Trim(item.id)
            && (NoCollision(repo, shown.value.item.(id := item.id), item) ==>
                  Content(shown.value.item) == Content(Stored(item)))
  {
    hide RecordedAll, ItemsInStep, TurnItems, RoomyAll, SnapshotOutcome, ContentVersion, RecoveredLedger, Trim,
         NoCollision, AllSpelled;
    var before := Run(repo, w, steps[..t]);
    forall j | 0 <= j < t ensures Legal(repo, spell, Run(repo, w, steps[..t][..j]), steps[..t][j]) {
      assert steps[..t][..j] == steps[..j];
      assert Legal(repo, spell, Run(repo, w, steps[..j]), steps[j]);
    }
    RunKeepsInv(repo, spell, w, steps[..t]);
    assert steps[..t + 1][..t] == steps[..t];
    assert Legal(repo, spell, before, steps[t]);
    AcceptedRecordIsCurrent(repo, spell, before, steps[t], k);
    var item := TurnItems(steps[t])[k];
    var after := After(repo, before, steps[t]).rows;
    var ledger := RecordedAll(repo, TurnItems(steps[t]), RecoveredLedger(before.checkpoint));
    var i :| 0 <= i < |after| && IsCurrentRow(spell, after[i], Trim(item.id), ledger);
    CurrentRowIsLatest(repo, spell, after, i, Trim(item.id), ledger);
    var shown := after[i].payload.snapshot.item;
    if NoCollision(repo, shown.(id := item.id), item) {
      VersionIdentifiesContent(repo, shown.(id := item.id), item);
    }
  }

  // ----- From the raw record to the board ----------------------------------

  lemma {:induction false} NoRecordNoItem(records: seq<Record>, id: string)
    requires forall j :: 0 <= j < |records| && records[j].Record? ==> records[j].id != id
    ensures NotAmong(Interpreted(records), id)
  {
    if records != [] {
      NoRecordNoItem(records[1..], id);
    }
  }

  /** The last record of an id in a listing gives the last item of that id in the turn. */
  lemma LastRecordIsLastItem(step: Step, i: nat)
    requires step.Turn? && step.listing.Records? && i < |step.listing.records|
    requires var records := step.listing.records;
             && records[i].Record?
             && forall j :: i < j < |records| && records[j].Record? ==> records[j].id != records[i].id
    requires TurnItems(step) != []
    ensures var k := CountInterpretable(step.listing.records[..i]);
            IsLastRecord(step, k) && TurnItems(step)[k] == step.listing.records[i].Interpret()
  {
    hide AllNamed;
    var records := step.listing.records;
    var k := CountInterpretable(records[..i]);
    RecordsItem(records, i);
    InterpretedSplits(records[..i + 1], records[i + 1..]);
    assert records == records[..i + 1] + records[i + 1..];
    InterpretedAreCounted(records[..i + 1]);
    assert records[..i + 1][..i] == records[..i];
    assert Interpreted(records)[k + 1..] == Interpreted(records[i + 1..]);
    var rest := records[i + 1..];
    forall j | 0 <= j < |rest| && rest[j].Record? ensures rest[j].id != records[i].id {
      assert rest[j] == records[i + 1 + j];
    }
    NoRecordNoItem(rest, records[i].id);
  }

  /** The lane-board law on what the source sent. After any turn of any run, the board's row for
      the last record of an id shows that raw record - its given fields verbatim, its missing
      and null ones as their defaults - but for the scope-override flag and for a collision. */
  lemma BoardShowsTheRawRecord(repo: string, spell: Spelling, w: World, steps: seq<Step>, t: nat, i: nat)
    requires Readable(w) && Inv(repo, spell, w) && LegalRun(repo, spell, w, steps)
    requires t < |steps| && steps[t].Turn? && steps[t].listing.Records? && TurnItems(steps[t]) != []
    requires var records := steps[t].listing.records;
             && i < |records| && records[i].Record?
             && forall j :: i < j < |records| && records[j].Record? ==> records[j].id != records[i].id
    requires var k := CountInterpretable(steps[t].listing.records[..i]);
             Accepted(SnapshotOutcome(repo, Run(repo, w, steps[..t]), steps[t], k))
    ensures var r := steps[t].listing.records[i];
            var shown := LatestSnapshot(Run(repo, w, steps[..t + 1]).rows, Trim(r.id));
            && shown.Some?
            && (NoCollision(repo, shown.value.item.(id := r.id), r.Interpret()) ==>
                  var detail := shown.value.item.detail.(awaitsScopeOverride := r.detail.awaitsScopeOverride);
                  Shows(shown.value.item.(detail := detail), r))
  {
    hide TurnItems, SnapshotOutcome, Trim, NoCollision, Inv, LegalRun, Readable, LatestSnapshot, Run, ContentVersion, Interpreted;
    var r := steps[t].listing.records[i];
    LastRecordIsLastItem(steps[t], i);
    BoardShowsTheLastRecord(repo, spell, w, steps, t, CountInterpretable(steps[t].listing.records[..i]));
    InterpretedShows(r);
  }
}
