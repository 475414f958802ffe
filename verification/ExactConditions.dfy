/** When the projections are right without any side condition: exact conditions on one poll,
    from any log and any checkpoint, and what every unsaved change leads to. */
module ExactConditions {
  import opened Text
  import opened WorkItems
  import opened EventLog
  import opened Checkpoints
  import opened SourcePolling
  import opened Orchestrator
  import opened ItemRuns
  import opened WorkItemRuns
  import opened LaneBoard
  import opened Repolls
  import opened ItemLimits
  import AvailabilityRuns
  import Limits

  // ----- Availability ------------------------------------------------------

  lemma MarkerComesLast(a: Adapter, w: World, t: AvailabilityRuns.Step)
    requires t.Turn? && Requested(w.checkpoint).Ok?
    ensures var poll := AvailabilityRuns.PollOf(a, w, t);
            var before := AppendAll(w.rows, AvailabilityRuns.Data(poll), t.lost, 0);
            && poll.events != []
            && AvailabilityRuns.MarkerOutcome(a, w, t)
               == AppendOutcome(before, AvailabilityRuns.Marker(poll), |AvailabilityRuns.Data(poll)| in t.lost)
            && AvailabilityRuns.After(a, w, t).rows
               == Append(before, AvailabilityRuns.Marker(poll), |AvailabilityRuns.Data(poll)| in t.lost)
            && AvailabilityRuns.Marker(poll).source == a.Name()
            && AvailabilityRuns.Marker(poll).payload.Health() == Some(AvailabilityRuns.TurnReported(w, t))
  {
    hide Poll, AvailabilityRuns.Reported, AppendOutcome, AppendAll, Append;
    var poll := AvailabilityRuns.PollOf(a, w, t);
    AvailabilityRuns.PollEndsInItsMarker(a, Requested(w.checkpoint).value, t.probe, t.normalize);
    var data, marker := AvailabilityRuns.Data(poll), AvailabilityRuns.Marker(poll);
    assert poll.events == data + [marker];
    AppendAllSplits(w.rows, data, [marker], t.lost, 0);
    AvailabilityRuns.AppendOnly(AppendAll(w.rows, data, t.lost, 0), marker, t.lost, |data|);
  }

  /** From any log and any checkpoint, after an accepted marker the projection agrees with the
      poll exactly when the marker was new to the log, or the log agreed already before it. */
  lemma ProjectionAgreesIff(a: Adapter, w: World, t: AvailabilityRuns.Step)
    requires t.Turn? && Requested(w.checkpoint).Ok? && Accepted(AvailabilityRuns.MarkerOutcome(a, w, t))
    ensures var before := AppendAll(w.rows, AvailabilityRuns.Data(AvailabilityRuns.PollOf(a, w, t)), t.lost, 0);
            var reported := Some(AvailabilityRuns.TurnReported(w, t));
            NewestHealth(AvailabilityRuns.After(a, w, t).rows, a.Name()) == reported
            <==> AvailabilityRuns.MarkerOutcome(a, w, t) == Inserted || NewestHealth(before, a.Name()) == reported
  {
    hide Poll, AvailabilityRuns.PollOf, AvailabilityRuns.TurnReported, AvailabilityRuns.After,
         AvailabilityRuns.MarkerOutcome, AvailabilityRuns.Data, AvailabilityRuns.Marker,
         AppendOutcome, AppendAll, NewestHealth;
    MarkerComesLast(a, w, t);
    var poll := AvailabilityRuns.PollOf(a, w, t);
    var before := AppendAll(w.rows, AvailabilityRuns.Data(poll), t.lost, 0);
    AvailabilityRuns.NewestAfter(before, AvailabilityRuns.Marker(poll), a.Name());
  }

  // ----- The lane board ----------------------------------------------------

  predicate Shows(rows: seq<Event>, id: string, snapshot: Snapshot) {
    LatestSnapshot(rows, id) == Some(snapshot)
  }

  predicate Bystander(e: Event, id: string) {
    e.payload.WorkItemSnapshot? ==> e.payload.snapshot.item.id != id
  }

  lemma {:induction false} BystandersChangeNothing(
      rows: seq<Event>, events: seq<Event>, lost: set<nat>, from: nat, id: string)
    requires forall i :: 0 <= i < |events| ==> Bystander(events[i], id)
    ensures LatestSnapshot(AppendAll(rows, events, lost, from), id) == LatestSnapshot(rows, id)
    decreases events
  {
    hide AppendOutcome, LatestSnapshot;
    if events != [] {
      LatestAfter(rows, events[0], id);
      BystandersChangeNothing(Append(rows, events[0], from in lost), events[1..], lost, from + 1, id);
    }
  }

  /** No item but those of this trimmed id has a snapshot that bears on it. */
  lemma {:induction false} OthersAreBystanders(repo: string, items: seq<WorkItem>, ledger: Ledger, id: string)
    requires forall i :: 0 <= i < |items| ==> Trim(items[i].id) != id
    ensures forall i :: 0 <= i < |EventsOf(repo, items, ledger)| ==> Bystander(EventsOf(repo, items, ledger)[i], id)
    decreases items
  {
    hide Trim, ContentVersion;
    if items != [] {
      OthersAreBystanders(repo, items[1..], Recorded(repo, items[0], ledger), id);
    }
  }

  /** The `k`-th item's snapshot, and that nothing offered after it bears on its id. */
  lemma {:induction false} SnapshotInTheArray(repo: string, items: seq<WorkItem>, ledger: Ledger, k: nat)
    requires k < |items| && forall j :: k < j < |items| ==> Trim(items[j].id) != Trim(items[k].id)
    ensures var events := EventsOf(repo, items, ledger);
            && 2 * k < |events|
            && events[2 * k].payload == WorkItemSnapshot(Snapshot(repo, Stored(items[k]), ContentVersion(repo, items[k])))
            && forall i :: 2 * k < i < |events| ==> Bystander(events[i], Trim(items[k].id))
    decreases items
  {
    hide Trim, ContentVersion, Bystander;
    var next := Recorded(repo, items[0], ledger);
    var rest := EventsOf(repo, items[1..], next);
    var finding := CompletenessEvent(repo, items[0]);
    assert EventsOf(repo, items, ledger) == ItemEvents(repo, items[0], ledger) + rest;
    if k == 0 {
      OthersAreBystanders(repo, items[1..], next, Trim(items[0].id));
      FindingIsABystander(repo, items[0], Trim(items[0].id));
    } else {
      SnapshotInTheArray(repo, items[1..], next, k - 1);
    }
  }

  lemma FindingIsABystander(repo: string, item: WorkItem, id: string)
    ensures Bystander(CompletenessEvent(repo, item), id)
  {
  }

  /** From any log and any checkpoint, after a poll that accepted the snapshot of an item's
      last record, the board shows that record whole exactly when the snapshot was new to the
      log, or the board showed it already. */
  lemma BoardShowsTheRecordIff(repo: string, w: World, step: Step, k: nat)
    requires step.Turn? && Readable(w) && k < |TurnItems(step)|
    requires forall j :: k < j < |TurnItems(step)| ==> Trim(TurnItems(step)[j].id) != Trim(TurnItems(step)[k].id)
    requires Accepted(SnapshotOutcome(repo, w, step, k))
    ensures var item := TurnItems(step)[k];
            var record := Snapshot(repo, Stored(item), ContentVersion(repo, item));
            Shows(After(repo, w, step).rows, Trim(item.id), record)
            <==> SnapshotOutcome(repo, w, step, k) == Inserted || Shows(RowsBefore(repo, w, step, k), Trim(item.id), record)
  {
    hide EventsOf, Poll, TurnItems, Trim, ContentVersion, AppendAll, Append, AppendOutcome, RecoveredLedger, LatestSnapshot,
         SnapshotOutcome, OutcomeAt, RowsBefore, OfferedSnapshot;
    var items, ledger := TurnItems(step), RecoveredLedger(w.checkpoint);
    var events, id := EventsOf(repo, items, ledger), Trim(items[k].id);
    var marker := TurnRows(repo, w, step);
    SnapshotOutcomeInTheArray(repo, w, step, k);
    SnapshotInTheArray(repo, items, ledger, k);
    var before, e, rest := RowsBefore(repo, w, step, k), events[2 * k], events[2 * k + 1..];
    AppendAllSplits(w.rows, events[..2 * k], [e] + rest, step.lost, 0);
    assert events == events[..2 * k] + ([e] + rest);
    OfferFirst(before, e, rest, step.lost, 2 * k);
    var offered := Append(before, e, 2 * k in step.lost);
    BystandersChangeNothing(offered, rest, step.lost, 2 * k + 1, id);
    OneOffered(before, e, 2 * k in step.lost, id);
    OneOffered(AppendAll(w.rows, events, step.lost, 0), marker, |events| in step.lost, id);
    OutcomeIsOffered(w.rows, events, step.lost, 2 * k);
  }

  lemma OutcomeIsOffered(rows: seq<Event>, events: seq<Event>, lost: set<nat>, i: nat)
    requires i < |events|
    ensures OutcomeAt(rows, events, lost, 0, i)
            == AppendOutcome(AppendAll(rows, events[..i], lost, 0), events[i], i in lost)
  {
  }

  lemma OneOffered(rows: seq<Event>, e: Event, lost: bool, id: string)
    ensures LatestSnapshot(Append(rows, e, lost), id)
            == if AppendOutcome(rows, e, lost) == Inserted && e.payload.WorkItemSnapshot? && e.payload.snapshot.item.id == id
               then Some(e.payload.snapshot) else LatestSnapshot(rows, id)
  {
    hide AppendOutcome, LatestSnapshot;
    LatestAfter(rows, e, id);
  }

  // ----- Unsaved changes ---------------------------------------------------

  lemma TurnGrows(a: Adapter, w: World, t: AvailabilityRuns.Step)
    requires t.Turn?
    ensures w.rows <= AvailabilityRuns.After(a, w, t).rows
  {
    hide AppendAll, Poll;
    if Requested(w.checkpoint).Ok? {
      AppendAllGrows(w.rows, AvailabilityRuns.PollOf(a, w, t).events, t.lost, 0);
    }
  }

  /** A turn that offers nothing but the marker of what it reports. */
  function MarkerTurn(normalize: Normalizer, state: Availability, reason: string): AvailabilityRuns.Step {
    if state == Observed then Limits.Idle(normalize, true) else Limits.Outage(normalize, reason, true)
  }

  function MarkerOf(a: Adapter, state: Availability, reason: string, epoch: nat): Event {
    if state == Observed then ObservedEvent(a, epoch) else NotObservedEvent(a, reason, epoch)
  }

  lemma MarkerTurnPolls(a: Adapter, w: World, normalize: Normalizer, state: Availability, reason: string)
    requires Requested(w.checkpoint).Ok?
    ensures var t := MarkerTurn(normalize, state, reason);
            && t.Turn? && t.lost == {} && AvailabilityRuns.TurnReported(w, t) == state
            && AvailabilityRuns.PollOf(a, w, t).events
               == [MarkerOf(a, state, reason, TransitionEpoch(Requested(w.checkpoint).value, state))]
  {
    hide TransitionEpoch, SourceCheckpointOr, Requested;
  }

  lemma MarkerTurnOffersItsMarker(a: Adapter, w: World, normalize: Normalizer, state: Availability, reason: string)
    requires Requested(w.checkpoint).Ok?
    ensures var t := MarkerTurn(normalize, state, reason);
            var e := MarkerOf(a, state, reason, TransitionEpoch(w.checkpoint, state));
            && t.Turn? && AvailabilityRuns.TurnReported(w, t) == state
            && AvailabilityRuns.MarkerOutcome(a, w, t) == AppendOutcome(w.rows, e, false)
            && AvailabilityRuns.After(a, w, t).rows == Append(w.rows, e, false)
  {
    hide AppendOutcome, Append, AppendAll, TransitionEpoch, Poll, Requested, MarkerTurn, MarkerOf, AvailabilityRuns.TurnReported;
    var t := MarkerTurn(normalize, state, reason);
    Limits.SameMemory(w.checkpoint, state);
    MarkerTurnPolls(a, w, normalize, state, reason);
    var e := MarkerOf(a, state, reason, TransitionEpoch(w.checkpoint, state));
    assert AvailabilityRuns.PollOf(a, w, t).events == [e];
    AvailabilityRuns.AppendOnly(w.rows, e, {}, 0);
    NothingOffered(w.rows, [e], {});
    assert [e][..0] == [];
  }

  /** The reason a turn's marker carries; of no matter where the turn observed its source. */
  function ReasonOf(w: World, t: AvailabilityRuns.Step): string
    requires t.Turn? && Requested(w.checkpoint).Ok?
  {
    if AvailabilityRuns.TurnReported(w, t) == NotObserved then AvailabilityRuns.TurnReason(w, t) else ""
  }

  /** An accepted marker leaves a row that later turns take for theirs. */
  lemma AcceptedMarkerHasARow(a: Adapter, w: World, t: AvailabilityRuns.Step)
    requires t.Turn? && Requested(w.checkpoint).Ok? && Accepted(AvailabilityRuns.MarkerOutcome(a, w, t))
    ensures var state := AvailabilityRuns.TurnReported(w, t);
            HasRowOf(AvailabilityRuns.After(a, w, t).rows,
                     MarkerOf(a, state, ReasonOf(w, t), TransitionEpoch(w.checkpoint, state)))
  {
    hide AppendOutcome, Append, AppendAll, TransitionEpoch, HasRowOf, Identity.SourceEventId, Identity.EventId,
         AvailabilityRuns.MarkerOutcome, AvailabilityRuns.After, Poll, AvailabilityRuns.Reported,
         AvailabilityRuns.FailureReason, NotObservedEvent;
    MarkerComesLast(a, w, t);
    var poll, state := AvailabilityRuns.PollOf(a, w, t), AvailabilityRuns.TurnReported(w, t);
    var before, marker := AppendAll(w.rows, AvailabilityRuns.Data(poll), t.lost, 0), AvailabilityRuns.Marker(poll);
    AcceptedHasRow(before, marker, |AvailabilityRuns.Data(poll)| in t.lost);
    MarkerIsOfItsState(a, w, t);
    SameTextSameRow(AvailabilityRuns.After(a, w, t).rows, marker,
                    MarkerOf(a, state, ReasonOf(w, t), TransitionEpoch(w.checkpoint, state)));
  }

  lemma MarkerIsOfItsState(a: Adapter, w: World, t: AvailabilityRuns.Step)
    requires t.Turn? && Requested(w.checkpoint).Ok?
    ensures var poll, state := AvailabilityRuns.PollOf(a, w, t), AvailabilityRuns.TurnReported(w, t);
            var e := MarkerOf(a, state, ReasonOf(w, t), TransitionEpoch(w.checkpoint, state));
            && poll.events != []
            && AvailabilityRuns.Marker(poll).source == e.source && AvailabilityRuns.Marker(poll).identity == e.identity
  {
    hide TransitionEpoch, Poll, AvailabilityRuns.Reported, AvailabilityRuns.FailureReason, SourceCheckpointOr;
    var previous := Requested(w.checkpoint).value;
    AvailabilityRuns.PollEndsInItsMarker(a, previous, t.probe, t.normalize);
    Limits.SameMemory(w.checkpoint, AvailabilityRuns.TurnReported(w, t));
    if AvailabilityRuns.TurnReported(w, t) == NotObserved {
      AvailabilityRuns.FailureIsReported(a, previous, t.probe, t.normalize);
    }
  }

  lemma SameTextSameRow(rows: seq<Event>, x: Event, y: Event)
    requires HasRowOf(rows, x) && x.source == y.source && x.identity == y.identity
    ensures HasRowOf(rows, y)
  {
    hide Identity.SourceEventId, Identity.EventId;
    var i :| 0 <= i < |rows| && rows[i].IsTheRowOf(x);
    assert rows[i].IsTheRowOf(y);
  }

  /** No unsaved change is harmless. Let a poll report something the checkpoint does not say,
      its marker be accepted, and its save fail. Let any poll then report the opposite, and be
      accepted. Then either that poll is already contradicted by the projection, or the next
      poll that reports the first thing again is taken for a duplicate and is contradicted.
      Where there was no checkpoint at all, the opposite poll is not saved either. */
  lemma NoUnsavedChangeIsHarmless(a: Adapter, w: World, t: AvailabilityRuns.Step, back: AvailabilityRuns.Step,
                              normalize: Normalizer)
    requires t.Turn? && !t.saved && Requested(w.checkpoint).Ok?
    requires Accepted(AvailabilityRuns.MarkerOutcome(a, w, t))
    requires Memory(w.checkpoint).Some? ==> Memory(w.checkpoint).value.availability != AvailabilityRuns.TurnReported(w, t)
    requires back.Turn? && (Memory(w.checkpoint).None? ==> !back.saved)
    requires var w1 := AvailabilityRuns.After(a, w, t);
             && AvailabilityRuns.TurnReported(w1, back) != AvailabilityRuns.TurnReported(w, t)
             && Accepted(AvailabilityRuns.MarkerOutcome(a, w1, back))
    ensures var w1 := AvailabilityRuns.After(a, w, t);
            var w2 := AvailabilityRuns.After(a, w1, back);
            var opposite := Some(AvailabilityRuns.TurnReported(w1, back));
            var again := MarkerTurn(normalize, AvailabilityRuns.TurnReported(w, t), ReasonOf(w, t));
            || NewestHealth(w2.rows, a.Name()) != opposite
            || (&& Requested(w2.checkpoint).Ok?
                && AvailabilityRuns.TurnReported(w2, again) == AvailabilityRuns.TurnReported(w, t)
                && AvailabilityRuns.MarkerOutcome(a, w2, again) == Duplicate
                && NewestHealth(AvailabilityRuns.After(a, w2, again).rows, a.Name()) == opposite)
  {
    hide AppendOutcome, AppendAll, HasRowOf, NewestHealth, AvailabilityRuns.MarkerOutcome, MarkerOf,
         Poll, AvailabilityRuns.Reported, ReasonOf, MarkerTurn;
    var state, reason := AvailabilityRuns.TurnReported(w, t), ReasonOf(w, t);
    var w1 := AvailabilityRuns.After(a, w, t);
    var w2 := AvailabilityRuns.After(a, w1, back);
    AcceptedMarkerHasARow(a, w, t);
    TurnGrows(a, w1, back);
    var e := MarkerOf(a, state, reason, TransitionEpoch(w.checkpoint, state));
    RowOfStays(w1.rows, w2.rows, e);
    AvailabilityRuns.PollLeavesItsReport(a, Requested(w.checkpoint).value, back.probe, back.normalize);
    assert TransitionEpoch(w2.checkpoint, state) == TransitionEpoch(w.checkpoint, state);
    MarkerTurnOffersItsMarker(a, w2, normalize, state, reason);
    StoredIsIgnored(w2.rows, e, false);
    RowsBlock(w2.rows, e);
  }
}
