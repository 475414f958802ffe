/** Where the laws stop: for each side condition of a legal run, a run that breaks it and the
    projection that then disagrees with the last accepted poll. */
module Limits {
  import opened Text
  import opened EventLog
  import opened Identities
  import opened Checkpoints
  import opened SourcePolling
  import opened AvailabilityRuns
  import Fnv

  // ----- Turns with nothing but a marker -----------------------------------

  function Outage(normalize: Normalizer, reason: string, saved: bool): Step {
    Turn(Unreachable(reason), normalize, {}, saved)
  }

  function Idle(normalize: Normalizer, saved: bool): Step {
    Turn(Reached(true, true, None), normalize, {}, saved)
  }

  predicate OnlyMarkers(a: Adapter, rows: seq<Event>) {
    forall i :: 0 <= i < |rows| ==> rows[i].source == a.Name() && IsMarker(rows[i].identity, a.Name(), a.repo)
  }

  predicate Holds(rows: seq<Event>, identity: Identity) {
    exists i :: 0 <= i < |rows| && rows[i].identity == identity
  }

  lemma HoldsMore(rows: seq<Event>, e: Event, identity: Identity)
    ensures Holds(rows + [e], identity) <==> Holds(rows, identity) || e.identity == identity
    ensures !Holds([], identity)
  {
    if e.identity == identity {
      assert (rows + [e])[|rows|].identity == identity;
    }
    if Holds(rows, identity) {
      var i :| 0 <= i < |rows| && rows[i].identity == identity;
      assert (rows + [e])[i].identity == identity;
    }
  }

  /** Among markers of one source, the store compares identities. */
  lemma MarkerAppend(a: Adapter, rows: seq<Event>, e: Event)
    requires OnlyMarkers(a, rows)
    requires e.source == a.Name() && IsMarker(e.identity, a.Name(), a.repo)
    ensures AppendOutcome(rows, e, false) == (if Holds(rows, e.identity) then Duplicate else Inserted)
    ensures Append(rows, e, false) == (if Holds(rows, e.identity) then rows else rows + [e])
    ensures OnlyMarkers(a, Append(rows, e, false))
  {
    hide Identity.SourceEventId, Identity.EventId;
    MarkersHaveText(e.identity, a);
    if Holds(rows, e.identity) {
      var i :| 0 <= i < |rows| && rows[i].identity == e.identity;
      assert rows[i].IsTheRowOf(e) && rows[i].Blocks(e);
    } else {
      forall i | 0 <= i < |rows| ensures !rows[i].Blocks(e) {
        if rows[i].Blocks(e) {
          BlockedByText(rows[i], e);
          MarkersAreDistinct(rows[i].identity, e.identity, a.Name(), a.repo);
        }
      }
    }
  }

  /** Derived event ids block each other only when their source event ids are equal. */
  lemma BlockedByText(row: Event, e: Event)
    requires !row.identity.Verbatim? && !e.identity.Verbatim? && row.Blocks(e)
    ensures row.identity.SourceEventId() == e.identity.SourceEventId()
  {
    hide Identity.Prefix, Identity.Tail;
    if row.identity.EventId() == e.identity.EventId() {
      PrefixCancels("evt:", row.identity.SourceEventId().value, e.identity.SourceEventId().value);
    }
  }

  lemma OutageTurn(a: Adapter, w: World, normalize: Normalizer, reason: string, saved: bool)
    requires OnlyMarkers(a, w.rows) && Requested(w.checkpoint).Ok?
    ensures var e := NotObservedEvent(a, reason, TransitionEpoch(w.checkpoint, NotObserved));
            var t := Outage(normalize, reason, saved);
            && OnlyMarkers(a, After(a, w, t).rows)
            && MarkerOutcome(a, w, t) == (if Holds(w.rows, e.identity) then Duplicate else Inserted)
            && After(a, w, t).rows == (if Holds(w.rows, e.identity) then w.rows else w.rows + [e])
            && Requested(After(a, w, t).checkpoint).Ok?
            && Memory(After(a, w, t).checkpoint)
               == (if saved then Some(Aim(w.checkpoint, NotObserved)) else Memory(w.checkpoint))
  {
    hide Append, AppendOutcome, Identity.SourceEventId, Fnv.Cause, OnlyMarkers, TransitionEpoch, Holds, SourceCheckpointOr;
    var previous := Requested(w.checkpoint).value;
    SameMemory(w.checkpoint, NotObserved);
    var e := NotObservedEvent(a, reason, TransitionEpoch(previous, NotObserved));
    NotObservedIsAMarker(a, reason, TransitionEpoch(previous, NotObserved));
    MarkerAppend(a, w.rows, e);
    AppendOnly(w.rows, e, {}, 0);
  }

  lemma IdleTurn(a: Adapter, w: World, normalize: Normalizer, saved: bool)
    requires OnlyMarkers(a, w.rows) && Requested(w.checkpoint).Ok?
    ensures var e := ObservedEvent(a, TransitionEpoch(w.checkpoint, Observed));
            var t := Idle(normalize, saved);
            && OnlyMarkers(a, After(a, w, t).rows)
            && MarkerOutcome(a, w, t) == (if Holds(w.rows, e.identity) then Duplicate else Inserted)
            && After(a, w, t).rows == (if Holds(w.rows, e.identity) then w.rows else w.rows + [e])
            && Requested(After(a, w, t).checkpoint).Ok?
            && Memory(After(a, w, t).checkpoint)
               == (if saved then Some(Aim(w.checkpoint, Observed)) else Memory(w.checkpoint))
  {
    hide Append, AppendOutcome, Identity.SourceEventId, OnlyMarkers, TransitionEpoch, Holds, SourceCheckpointOr;
    var previous := Requested(w.checkpoint).value;
    SameMemory(w.checkpoint, Observed);
    var e := ObservedEvent(a, TransitionEpoch(previous, Observed));
    ObservedIsAMarker(a, TransitionEpoch(previous, Observed));
    MarkerAppend(a, w.rows, e);
    AppendOnly(w.rows, e, {}, 0);
  }

  lemma SameMemory(stored: Option<Checkpoint>, next: Availability)
    requires Requested(stored).Ok?
    ensures Memory(Requested(stored).value) == Memory(stored)
    ensures TransitionEpoch(Requested(stored).value, next) == TransitionEpoch(stored, next)
  {
  }

  // ----- A failed save after a state change --------------------------------

  /** An outage, a recovery whose checkpoint is not saved, and the same outage again: the last
      marker counts as accepted, and the projection says the source was observed. */
  lemma FailedSaveMisleads(a: Adapter, normalize: Normalizer, reason: string)
    ensures var out := Outage(normalize, reason, true);
            var w1 := After(a, World([], None), out);
            var w2 := After(a, w1, Idle(normalize, false));
            && MarkerOutcome(a, w2, out) == Duplicate
            && NewestHealth(After(a, w2, out).rows, a.Name()) == Some(Observed)
  {
    hide After, MarkerOutcome, Fnv.Cause, Holds, NewestHealth, Identity.SourceEventId;
    var w0, out, idle := World([], None), Outage(normalize, reason, true), Idle(normalize, false);
    var down, up := NotObservedEvent(a, reason, 1), ObservedEvent(a, 2);
    OutageTurn(a, w0, normalize, reason, true);
    HoldsMore([], down, down.identity);
    var w1 := After(a, w0, out);
    assert w1.rows == [] + [down];
    IdleTurn(a, w1, normalize, false);
    HoldsMore([], down, up.identity);
    var w2 := After(a, w1, idle);
    assert w2.rows == w1.rows + [up];
    HoldsMore(w1.rows, up, down.identity);
    OutageTurn(a, w2, normalize, reason, true);
    NewestAfter(w1.rows, up, a.Name());
  }

  // ----- A saturated epoch -------------------------------------------------

  /** At the last epoch a recovery cannot open a new one: the outage after it reuses the
      outage's old marker, and the projection says the source was observed. */
  lemma SaturatedEpochMisleads(a: Adapter, normalize: Normalizer, reason: string, position: Checkpoint)
    ensures var w0 := World([NotObservedEvent(a, reason, U64_MAX)],
                            Some(Envelope(ENVELOPE_SCHEMA, Some(position), NotObserved, U64_MAX)));
            var w1 := After(a, w0, Idle(normalize, true));
            var out := Outage(normalize, reason, true);
            && Inv(a, w0)
            && MarkerOutcome(a, w1, out) == Duplicate
            && NewestHealth(After(a, w1, out).rows, a.Name()) == Some(Observed)
  {
    hide After, MarkerOutcome, Fnv.Cause, Identity.SourceEventId, Holds;
    var first, up := NotObservedEvent(a, reason, U64_MAX), ObservedEvent(a, U64_MAX);
    var w0 := World([first], Some(Envelope(ENVELOPE_SCHEMA, Some(position), NotObserved, U64_MAX)));
    NotObservedIsAMarker(a, reason, U64_MAX);
    assert [first] == [] + [first];
    NewestAfter([], first, a.Name());
    IdleTurn(a, w0, normalize, true);
    HoldsMore([], first, up.identity);
    HoldsMore([], first, first.identity);
    var w1 := After(a, w0, Idle(normalize, true));
    assert w1.rows == w0.rows + [up];
    HoldsMore(w0.rows, up, first.identity);
    OutageTurn(a, w1, normalize, reason, true);
    NewestAfter(w0.rows, up, a.Name());
  }

  // ----- A checkpoint that lost its epoch ----------------------------------

  /** A legacy or foreign checkpoint over a log that already has markers restarts at the first
      epoch, and the recovery marker of that epoch is already taken. */
  lemma LostEpochMisleads(a: Adapter, normalize: Normalizer, reason: string, stored: Option<Checkpoint>)
    requires Requested(stored).Ok? && Memory(stored).None?
    ensures var w0 := World([ObservedEvent(a, 1), NotObservedEvent(a, reason, 2)], stored);
            && MarkerOutcome(a, w0, Idle(normalize, true)) == Duplicate
            && NewestHealth(After(a, w0, Idle(normalize, true)).rows, a.Name()) == Some(NotObserved)
  {
    hide After, MarkerOutcome, Fnv.Cause, Holds, NewestHealth, Identity.SourceEventId;
    var up, down := ObservedEvent(a, 1), NotObservedEvent(a, reason, 2);
    var w0 := World([up, down], stored);
    ObservedIsAMarker(a, 1);
    NotObservedIsAMarker(a, reason, 2);
    IdleTurn(a, w0, normalize, true);
    assert w0.rows == [up] + [down] && [up] == [] + [up];
    HoldsMore([], up, up.identity);
    HoldsMore([up], down, up.identity);
    NewestAfter([up], down, a.Name());
  }

  // ----- Which cause the log calls newest ----------------------------------

  /** The newest not-observed finding of a source, whose reason the operator is shown. */
  function NewestFinding(rows: seq<Event>, source: string): Option<Event> {
    if rows == [] then None
    else
      var last := rows[|rows| - 1];
      if last.source == source && last.payload.NotObservedFinding? then Some(last)
      else NewestFinding(rows[..|rows| - 1], source)
  }

  /** Two causes inside one outage, then the first again: the availability is right, and the
      reason shown is the second one. */
  lemma RecurringCauseIsNotNewest(a: Adapter, normalize: Normalizer, first: string, second: string)
    requires Fnv.Cause(first) != Fnv.Cause(second)
    ensures var w1 := After(a, World([], None), Outage(normalize, first, true));
            var w2 := After(a, w1, Outage(normalize, second, true));
            var w3 := After(a, w2, Outage(normalize, first, true));
            && MarkerOutcome(a, w2, Outage(normalize, first, true)) == Duplicate
            && NewestHealth(w3.rows, a.Name()) == Some(NotObserved)
            && NewestFinding(w3.rows, a.Name()).Some?
            && NewestFinding(w3.rows, a.Name()).value.payload == NotObservedFinding(second)
  {
    hide After, MarkerOutcome, Fnv.Cause, Holds, NewestHealth, NewestFinding, Identity.SourceEventId;
    var w0, x, y := World([], None), NotObservedEvent(a, first, 1), NotObservedEvent(a, second, 1);
    OutageTurn(a, w0, normalize, first, true);
    HoldsMore([], x, x.identity);
    HoldsMore([], x, y.identity);
    var w1 := After(a, w0, Outage(normalize, first, true));
    assert w1.rows == [] + [x];
    OutageTurn(a, w1, normalize, second, true);
    var w2 := After(a, w1, Outage(normalize, second, true));
    assert w2.rows == w1.rows + [y];
    HoldsMore(w1.rows, y, x.identity);
    OutageTurn(a, w2, normalize, first, true);
    NewestAfter(w1.rows, y, a.Name());
    NewestFindingAfter(w1.rows, y, a.Name());
  }

  lemma NewestFindingAfter(rows: seq<Event>, e: Event, source: string)
    ensures NewestFinding(rows + [e], source)
            == if e.source == source && e.payload.NotObservedFinding? then Some(e) else NewestFinding(rows, source)
  {
    assert (rows + [e])[..|rows|] == rows;
  }

  predicate ShowsReason(rows: seq<Event>, source: string, reason: string) {
    var newest := NewestFinding(rows, source);
    newest.Some? && newest.value.payload == NotObservedFinding(reason)
  }

  /** A turn that did not observe its source offers its finding and nothing else. */
  lemma FailedTurn(a: Adapter, w: World, t: Step)
    requires t.Turn? && Requested(w.checkpoint).Ok? && TurnReported(w, t) == NotObserved
    ensures var e := NotObservedEvent(a, TurnReason(w, t), TransitionEpoch(w.checkpoint, NotObserved));
            && MarkerOutcome(a, w, t) == AppendOutcome(w.rows, e, 0 in t.lost)
            && After(a, w, t).rows == Append(w.rows, e, 0 in t.lost)
            && Requested(After(a, w, t).checkpoint).Ok?
            && (t.saved ==> Memory(After(a, w, t).checkpoint) == Some(Aim(w.checkpoint, NotObserved)))
  {
    hide Append, AppendOutcome, Poll, Reported, FailureReason, NotObservedEvent, TransitionEpoch, SourceCheckpointOr;
    var previous := Requested(w.checkpoint).value;
    FailureIsReported(a, previous, t.probe, t.normalize);
    SameMemory(w.checkpoint, NotObserved);
    var e := NotObservedEvent(a, TurnReason(w, t), TransitionEpoch(previous, NotObserved));
    assert PollOf(a, w, t).events == [e];
    AppendOnly(w.rows, e, t.lost, 0);
    assert AppendAll(w.rows, [], t.lost, 0) == w.rows;
  }

  /** From any log and any checkpoint: the reason shown after an accepted outage marker is this
      outage's exactly when the marker was new to the log, or the reason shown before it was
      the same. */
  lemma NewestCauseIff(a: Adapter, w: World, t: Step)
    requires t.Turn? && Requested(w.checkpoint).Ok? && TurnReported(w, t) == NotObserved
    requires Accepted(MarkerOutcome(a, w, t))
    ensures ShowsReason(After(a, w, t).rows, a.Name(), TurnReason(w, t))
            <==> MarkerOutcome(a, w, t) == Inserted || ShowsReason(w.rows, a.Name(), TurnReason(w, t))
  {
    hide After, MarkerOutcome, AppendOutcome, NewestFinding, TransitionEpoch, TurnReported, TurnReason, Fnv.Cause;
    FailedTurn(a, w, t);
    var e := NotObservedEvent(a, TurnReason(w, t), TransitionEpoch(w.checkpoint, NotObserved));
    NewestFindingAfter(w.rows, e, a.Name());
  }

  /** From any log and any checkpoint: an outage, then another reason new to the log, then the
      first reason again. The third marker is swallowed, and the second reason stays. */
  lemma RecurringCauseIsSwallowed(a: Adapter, w: World, first: Step, second: Step, third: Step)
    requires Requested(w.checkpoint).Ok?
    requires first.Turn? && TurnReported(w, first) == NotObserved && first.saved
    requires Accepted(MarkerOutcome(a, w, first))
    requires var w1 := After(a, w, first);
             && second.Turn? && second.saved && Requested(w1.checkpoint).Ok? && TurnReported(w1, second) == NotObserved
             && MarkerOutcome(a, w1, second) == Inserted
    requires var w1 := After(a, w, first);
             var w2 := After(a, w1, second);
             && third.Turn? && Requested(w2.checkpoint).Ok? && TurnReported(w2, third) == NotObserved
             && Accepted(MarkerOutcome(a, w2, third)) && TurnReason(w2, third) == TurnReason(w, first)
    ensures var w1 := After(a, w, first);
            var w2 := After(a, w1, second);
            var w3 := After(a, w2, third);
            && MarkerOutcome(a, w2, third) == Duplicate
            && ShowsReason(w3.rows, a.Name(), TurnReason(w1, second))
  {
    hide After, MarkerOutcome, NewestFinding, TurnReported, TurnReason, NotObservedEvent;
    FailedTurn(a, w, first);
    var w1 := After(a, w, first);
    FailedTurn(a, w1, second);
    var w2 := After(a, w1, second);
    FailedTurn(a, w2, third);
    var e := NotObservedEvent(a, TurnReason(w, first), TransitionEpoch(w.checkpoint, NotObserved));
    AcceptedHasRow(w.rows, e, 0 in first.lost);
    var f := NotObservedEvent(a, TurnReason(w1, second), TransitionEpoch(w1.checkpoint, NotObserved));
    StoredBlocks(w1.rows, f, e);
    NewestCauseIff(a, w1, second);
  }

  lemma StoredBlocks(rows: seq<Event>, more: Event, e: Event)
    requires HasRowOf(rows, e)
    ensures forall lost :: AppendOutcome(rows + [more], e, lost) != Inserted
    ensures forall lost :: Accepted(AppendOutcome(rows + [more], e, lost)) ==> AppendOutcome(rows + [more], e, lost) == Duplicate
  {
    hide Event.IsTheRowOf;
    var i :| 0 <= i < |rows| && rows[i].IsTheRowOf(e);
    assert (rows + [more])[i].Blocks(e);
  }

  // ----- One record under two names ----------------------------------------

  /** Instances move the name an event is stored under, and not its ids. Once a record is stored
      under one name, the store accepts it under another only if it holds it there already;
      otherwise the append fails, on every poll, and the record is never seen at the second
      instance. */
  lemma RestampedRecordIsRefused(rows: seq<Event>, a: Adapter, b: Adapter, record: Event)
    requires a.instance.Some? && b.instance.Some? && a.Name() != b.Name()
    requires record.identity.SourceEventId().Some?
    requires SeenAt(a, record) in rows
    ensures Accepted(AppendOutcome(rows, SeenAt(b, record), false)) <==> HasRowOf(rows, SeenAt(b, record))
    ensures (forall i :: 0 <= i < |rows| ==> rows[i].source != b.Name()) ==>
      AppendOutcome(rows, SeenAt(b, record), false) == Failed
  {
    hide Identity.SourceEventId, Identity.EventId;
    var i :| 0 <= i < |rows| && rows[i] == SeenAt(a, record);
    assert rows[i].Blocks(SeenAt(b, record));
  }
}
