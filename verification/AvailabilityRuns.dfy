/** Whole runs of one adapter over a shared log: whatever the probes report and whatever
    appends fail, an accepted marker leaves the projection in step with the poll. */
module AvailabilityRuns {
  import opened Text
  import opened EventLog
  import opened Identities
  import opened Checkpoints
  import opened SourcePolling
  import Fnv

  datatype World = World(rows: seq<Event>, checkpoint: Option<Checkpoint>)

  datatype Step =
    // One poll: what the host saw, what the normalizer makes of it, the positions whose
    // append fails, and whether the checkpoint was saved.
    | Turn(probe: Probe, normalize: Normalizer, lost: set<nat>, saved: bool)
    // Another writer of the same store appends an event of some other source.
    | Elsewhere(event: Event, refused: bool)

  /** The poll a turn makes, once its stored checkpoint is readable. */
  function PollOf(a: Adapter, w: World, t: Step): AdapterPoll
    requires t.Turn? && Requested(w.checkpoint).Ok?
  {
    Poll(a, Requested(w.checkpoint).value, t.probe, t.normalize)
  }

  function After(a: Adapter, w: World, step: Step): World {
    match step
    case Elsewhere(event, refused) => w.(rows := Append(w.rows, event, refused))
    case Turn(_, _, lost, saved) =>
      if Requested(w.checkpoint).Err? then w
      else
        var poll := PollOf(a, w, step);
        World(AppendAll(w.rows, poll.events, lost, 0), if saved then Some(poll.checkpoint) else w.checkpoint)
  }

  function Run(a: Adapter, w: World, steps: seq<Step>): World {
    if steps == [] then w
    else After(a, Run(a, w, steps[..|steps| - 1]), steps[|steps| - 1])
  }

  /** A turn of the run is one call of the imperative driver. */
  method TakeTurn(a: Adapter, adapterId: string, observedAt: string, t: Step,
                  checkpoints: CheckpointStore, log: EventStore)
    returns (r: Result<Summary, AdapterError>)
    requires t.Turn? && !IsBlank(adapterId) && !IsBlank(observedAt)
    modifies checkpoints, log
    ensures World(log.rows, checkpoints.Stored(Trim(adapterId)))
            == After(a, World(old(log.rows), old(checkpoints.Stored(Trim(adapterId)))), t)
    ensures forall id :: id != Trim(adapterId) ==> checkpoints.Stored(id) == old(checkpoints.Stored(id))
  {
    hide AppendAll, Poll, IsBlank, Trim;
    r := RunAdapterPoll(a, adapterId, observedAt, t.probe, t.normalize, checkpoints, log,
                        Faults(false, t.lost, !t.saved));
  }

  // ----- What a poll reports -----------------------------------------------

  /** Whether a poll observed its source: it was reached, and its payload was either empty
      or made sense. */
  function Reported(probe: Probe, normalize: Normalizer, previous: Option<Checkpoint>): Availability {
    if probe.Unreachable? || !probe.success then NotObserved
    else if probe.idlePayload then Observed
    else
      match normalize(SourceCheckpoint(previous))
      case Err(_) => NotObserved
      case Ok(parsed) => if parsed.idle || parsed.events != [] then Observed else NotObserved
  }

  /** A data-bearing event of this source: it never speaks against the source, and its
      identity is not a marker's. */
  ghost predicate IsData(a: Adapter, e: Event) {
    && e.source == a.Name()
    && e.payload.Health() != Some(NotObserved)
    && forall m: Identity :: IsMarker(m, a.Name(), a.repo) ==> m.SourceEventId() != e.identity.SourceEventId()
  }

  ghost predicate IsMarkerEvent(a: Adapter, e: Event) {
    && e.source == a.Name()
    && IsMarker(e.identity, a.Name(), a.repo)
    && e.payload.Health() == Some(if e.identity.ObservedAt? then Observed else NotObserved)
  }

  /** A normalizer emits nothing but data. */
  ghost predicate EmitsData(a: Adapter, normalize: Normalizer) {
    forall previous :: normalize(previous).Ok? ==>
      forall i :: 0 <= i < |normalize(previous).value.events| ==>
        IsData(a, a.Attributed(normalize(previous).value.events)[i])
  }

  /** Whatever a normalizer does, the envelope a poll leaves says what the poll reports. */
  lemma PollLeavesItsReport(a: Adapter, previous: Option<Checkpoint>, probe: Probe, normalize: Normalizer)
    ensures var poll, state := Poll(a, previous, probe, normalize), Reported(probe, normalize, previous);
            && poll.checkpoint.Envelope?
            && Memory(Some(poll.checkpoint)) == Some(AvailabilityMemory(state, TransitionEpoch(previous, state)))
  {
    hide TransitionEpoch, SourceCheckpoint;
  }

  /** Every poll ends in the marker of what it reports, whatever the normalizer emits. */
  lemma PollEndsInItsMarker(a: Adapter, previous: Option<Checkpoint>, probe: Probe, normalize: Normalizer)
    ensures var poll, state := Poll(a, previous, probe, normalize), Reported(probe, normalize, previous);
            && poll.events != []
            && IsMarkerEvent(a, poll.events[|poll.events| - 1])
            && poll.events[|poll.events| - 1].payload.Health() == Some(state)
            && poll.events[|poll.events| - 1].identity.epoch == TransitionEpoch(previous, state)
            && (state == NotObserved ==> |poll.events| == 1)
  {
    hide IsMarkerEvent, NotObservedEvent, ObservedEvent, TransitionEpoch, SourceCheckpoint;
    var state := Reported(probe, normalize, previous);
    var epoch := TransitionEpoch(previous, state);
    ObservedIsAMarker(a, epoch);
    if state == NotObserved {
      FailureIsReported(a, previous, probe, normalize);
      NotObservedIsAMarker(a, FailureReason(probe, normalize, previous), epoch);
    }
  }

  /** What a poll offers before its marker is data of an observed source. */
  lemma PollShape(a: Adapter, previous: Option<Checkpoint>, probe: Probe, normalize: Normalizer)
    requires EmitsData(a, normalize)
    ensures var poll, state := Poll(a, previous, probe, normalize), Reported(probe, normalize, previous);
            forall i :: 0 <= i < |poll.events| - 1 ==> state == Observed && IsData(a, poll.events[i])
  {
    hide IsMarkerEvent, IsData, NotObservedEvent, ObservedEvent, TransitionEpoch, SourceCheckpoint;
    PollEndsInItsMarker(a, previous, probe, normalize);
  }

  /** Whether a poll brings records: its source was observed, and the normalizer made events
      of what it held. */
  predicate BringsRecords(probe: Probe, normalize: Normalizer, previous: Option<Checkpoint>) {
    && Reported(probe, normalize, previous) == Observed
    && !probe.idlePayload
    && !normalize(SourceCheckpoint(previous)).value.idle
  }

  /** The record as the log is to hold it: under the name of the instance it was seen at. */
  function SeenAt(a: Adapter, record: Event): Event {
    record.(source := if a.instance.None? then record.source else a.Name())
  }

  /** A poll that brings records offers every one of them in order, and leaves the position the
      normalizer reached; any other poll offers its marker alone, and carries whatever position
      the source had. */
  lemma PollOffersEveryRecord(a: Adapter, previous: Option<Checkpoint>, probe: Probe, normalize: Normalizer)
    ensures var poll, position := Poll(a, previous, probe, normalize), SourceCheckpoint(previous);
            if BringsRecords(probe, normalize, previous) then
              var parsed := normalize(position).value;
              && |poll.events| == |parsed.events| + 1
              && (forall i :: 0 <= i < |parsed.events| ==> poll.events[i] == SeenAt(a, parsed.events[i]))
              && SourceCheckpoint(Some(poll.checkpoint)) == Some(parsed.checkpoint)
            else
              && |poll.events| == 1
              && (position.Some? ==> SourceCheckpoint(Some(poll.checkpoint)) == position)
              && (position.None? ==> SourceCheckpoint(Some(poll.checkpoint)) == Some(Plain(
                    if Reported(probe, normalize, previous) == Observed then "observed_idle" else "not_observed")))
  {
    hide NotObservedEvent, ObservedEvent, TransitionEpoch;
  }

  /** Why a poll did not observe its source. */
  function FailureReason(probe: Probe, normalize: Normalizer, previous: Option<Checkpoint>): string
    requires Reported(probe, normalize, previous) == NotObserved
  {
    if probe.Unreachable? then probe.reason
    else if !probe.success then
      if probe.diagnostic.Some? then probe.diagnostic.value else "source command exited non-zero"
    else if normalize(SourceCheckpoint(previous)).Err? then normalize(SourceCheckpoint(previous)).error
    else "source produced no records"
  }

  lemma FailureIsReported(a: Adapter, previous: Option<Checkpoint>, probe: Probe, normalize: Normalizer)
    requires Reported(probe, normalize, previous) == NotObserved
    ensures Poll(a, previous, probe, normalize)
            == NotObservedPoll(a, previous, FailureReason(probe, normalize, previous))
  {
    hide NotObservedPoll;
  }

  lemma ObservedIsAMarker(a: Adapter, epoch: nat)
    ensures var e := ObservedEvent(a, epoch);
            IsMarkerEvent(a, e) && e.payload.Health() == Some(Observed) && e.identity.epoch == epoch
  {
  }

  lemma NotObservedIsAMarker(a: Adapter, reason: string, epoch: nat)
    ensures var e := NotObservedEvent(a, reason, epoch);
            IsMarkerEvent(a, e) && e.payload.Health() == Some(NotObserved) && e.identity.epoch == epoch
  {
    hide Fnv.Cause;
    Fnv.CauseIsTheHash(reason, reason);
  }

  // ----- The invariant -----------------------------------------------------

  ghost predicate KnownRow(a: Adapter, row: Event) {
    row.source == a.Name() ==> IsMarkerEvent(a, row) || IsData(a, row)
  }

  /** The markers in the log never run ahead of `now`, each epoch has one state, and epochs
      do not decrease. */
  ghost predicate InStep(a: Adapter, rows: seq<Event>, now: AvailabilityMemory) {
    && (forall i :: 0 <= i < |rows| ==> KnownRow(a, rows[i]))
    && (forall i :: 0 <= i < |rows| && IsMarkerEvent(a, rows[i]) ==>
          && rows[i].identity.epoch <= now.transitionEpoch
          && (rows[i].identity.epoch == now.transitionEpoch ==>
                && rows[i].payload.Health() == Some(now.availability)
                && NewestHealth(rows, a.Name()) == Some(now.availability)))
    && (forall i, j :: 0 <= i < j < |rows| && IsMarkerEvent(a, rows[i]) && IsMarkerEvent(a, rows[j]) ==>
          && rows[i].identity.epoch <= rows[j].identity.epoch
          && (rows[i].identity.epoch == rows[j].identity.epoch ==>
                rows[i].payload.Health() == rows[j].payload.Health()))
  }

  ghost predicate Inv(a: Adapter, w: World) {
    match Memory(w.checkpoint)
    case Some(now) => InStep(a, w.rows, now)
    case None =>
      && (forall i :: 0 <= i < |w.rows| ==> KnownRow(a, w.rows[i]))
      && (forall i :: 0 <= i < |w.rows| ==> !IsMarkerEvent(a, w.rows[i]))
  }

  /** A cold start keeps the invariant: no checkpoint, and nothing from this source yet. */
  lemma ColdStart(a: Adapter, rows: seq<Event>)
    requires forall i :: 0 <= i < |rows| ==> rows[i].source != a.Name()
    ensures Inv(a, World(rows, None))
  {
  }

  // ----- One append --------------------------------------------------------

  lemma NewestAfter(rows: seq<Event>, e: Event, source: string)
    ensures NewestHealth(rows + [e], source)
            == if e.source == source && e.payload.Health().Some? then e.payload.Health()
               else NewestHealth(rows, source)
  {
    assert (rows + [e])[..|rows|] == rows;
  }

  lemma InStepOneMore(a: Adapter, rows: seq<Event>, e: Event, now: AvailabilityMemory)
    requires InStep(a, rows, now) && KnownRow(a, e)
    requires IsMarkerEvent(a, e) ==>
      e.identity.epoch == now.transitionEpoch && e.payload.Health() == Some(now.availability)
    requires NewestHealth(rows + [e], a.Name()) in {NewestHealth(rows, a.Name()), Some(now.availability)}
    requires IsMarkerEvent(a, e) ==> NewestHealth(rows + [e], a.Name()) == Some(now.availability)
    ensures InStep(a, rows + [e], now)
  {
    hide IsMarkerEvent, KnownRow, NewestHealth;
  }

  lemma AppendForeign(a: Adapter, rows: seq<Event>, e: Event, lost: bool, now: AvailabilityMemory)
    requires InStep(a, rows, now) && e.source != a.Name()
    ensures InStep(a, Append(rows, e, lost), now)
  {
    hide AppendOutcome, IsMarker, IsData, InStep;
    NewestAfter(rows, e, a.Name());
    InStepOneMore(a, rows, e, now);
  }

  /** An event of this source that agrees with `now` keeps the log in step. */
  ghost predicate Agrees(a: Adapter, e: Event, now: AvailabilityMemory) {
    || (IsData(a, e) && now.availability == Observed)
    || (IsMarkerEvent(a, e) && e.identity.epoch == now.transitionEpoch
        && e.payload.Health() == Some(now.availability))
  }

  lemma AppendAgreeing(a: Adapter, rows: seq<Event>, e: Event, lost: bool, now: AvailabilityMemory)
    requires InStep(a, rows, now) && Agrees(a, e, now)
    ensures InStep(a, Append(rows, e, lost), now)
  {
    hide AppendOutcome, IsMarker, InStep;
    DataIsNotAMarker(a, e);
    NewestAfter(rows, e, a.Name());
    InStepOneMore(a, rows, e, now);
  }

  lemma DataIsNotAMarker(a: Adapter, e: Event)
    ensures !(IsData(a, e) && IsMarkerEvent(a, e))
  {
  }

  lemma {:induction false} AppendAllAgreeing(
      a: Adapter, rows: seq<Event>, events: seq<Event>, lost: set<nat>, from: nat, now: AvailabilityMemory)
    requires InStep(a, rows, now)
    requires forall i :: 0 <= i < |events| ==> Agrees(a, events[i], now)
    ensures InStep(a, AppendAll(rows, events, lost, from), now)
    decreases events
  {
    hide InStep, Agrees, Append;
    if events != [] {
      AppendAgreeing(a, rows, events[0], from in lost, now);
      AppendAllAgreeing(a, Append(rows, events[0], from in lost), events[1..], lost, from + 1, now);
    }
  }

  /** An accepted marker, new or already there, is in the log. */
  lemma AcceptedMarkerIsStored(a: Adapter, rows: seq<Event>, e: Event, lost: bool) returns (i: nat)
    requires (forall k :: 0 <= k < |rows| ==> KnownRow(a, rows[k])) && IsMarkerEvent(a, e)
    requires Accepted(AppendOutcome(rows, e, lost))
    ensures i < |Append(rows, e, lost)|
    ensures IsMarkerEvent(a, Append(rows, e, lost)[i]) && Append(rows, e, lost)[i].identity == e.identity
  {
    hide Identity.SourceEventId, Identity.EventId, IsMarker;
    DataIsNotAMarker(a, e);
    if AppendOutcome(rows, e, lost) == Inserted {
      i := |rows|;
    } else {
      i :| 0 <= i < |rows| && rows[i].IsTheRowOf(e);
      MarkersHaveText(e.identity, a);
      assert rows[i].identity.SourceEventId() == e.identity.SourceEventId();
      assert KnownRow(a, rows[i]);
      MarkersAreDistinct(rows[i].identity, e.identity, a.Name(), a.repo);
    }
  }

  /** After an accepted marker the projection says what the marker says. */
  lemma AcceptedMarkerIsCurrent(a: Adapter, rows: seq<Event>, e: Event, lost: bool, now: AvailabilityMemory)
    requires InStep(a, rows, now) && Agrees(a, e, now) && IsMarkerEvent(a, e)
    requires Accepted(AppendOutcome(rows, e, lost))
    ensures NewestHealth(Append(rows, e, lost), a.Name()) == Some(now.availability)
  {
    hide IsMarker, IsData, IsMarkerEvent, Append, AppendOutcome, NewestHealth;
    var i := AcceptedMarkerIsStored(a, rows, e, lost);
    AppendAgreeing(a, rows, e, lost, now);
    MarkerIsNotData(a, e);
  }

  lemma MarkerIsNotData(a: Adapter, e: Event)
    requires IsMarkerEvent(a, e)
    ensures !IsData(a, e)
  {
  }

  lemma MarkersHaveText(id: Identity, a: Adapter)
    requires IsMarker(id, a.Name(), a.repo)
    ensures id.SourceEventId().Some?
  {
  }

  // ----- One turn ----------------------------------------------------------

  /** Whether the epoch can still grow when the state changes. */
  predicate Roomy(previous: Option<Checkpoint>, next: Availability) {
    Memory(previous).Some? && Memory(previous).value.availability != next
    ==> Memory(previous).value.transitionEpoch < U64_MAX
  }

  /** What a turn moves the log towards. */
  function Aim(previous: Option<Checkpoint>, next: Availability): AvailabilityMemory {
    AvailabilityMemory(next, TransitionEpoch(previous, next))
  }

  /** A state change opens an epoch no marker has used yet. */
  lemma TransitionKeepsStep(a: Adapter, w: World, next: Availability)
    requires Inv(a, w) && Roomy(w.checkpoint, next)
    ensures InStep(a, w.rows, Aim(w.checkpoint, next))
  {
    hide IsMarker, IsData, NewestHealth;
  }

  /** A save may fail only on a turn that reports what the checkpoint already says. */
  predicate Permitted(a: Adapter, w: World, t: Step)
    requires t.Turn?
  {
    Requested(w.checkpoint).Ok? ==>
      && Roomy(w.checkpoint, TurnReported(w, t))
      && (t.saved || Memory(w.checkpoint) == Some(Aim(w.checkpoint, TurnReported(w, t))))
  }

  /** The events a turn offers before its marker, and the marker. */
  function Data(poll: AdapterPoll): seq<Event> {
    if poll.events == [] then [] else poll.events[..|poll.events| - 1]
  }

  function Marker(poll: AdapterPoll): Event
    requires poll.events != []
  {
    poll.events[|poll.events| - 1]
  }

  /** The store's answer to a turn's marker. */
  function MarkerOutcome(a: Adapter, w: World, t: Step): Outcome
    requires t.Turn?
  {
    if Requested(w.checkpoint).Err? || PollOf(a, w, t).events == [] then Failed
    else
      var poll := PollOf(a, w, t);
      AppendOutcome(AppendAll(w.rows, Data(poll), t.lost, 0), Marker(poll), (|poll.events| - 1) in t.lost)
  }

  function TurnReported(w: World, t: Step): Availability
    requires t.Turn? && Requested(w.checkpoint).Ok?
  {
    Reported(t.probe, t.normalize, Requested(w.checkpoint).value)
  }

  /** The reason of a turn that did not observe its source. */
  function TurnReason(w: World, t: Step): string
    requires t.Turn? && Requested(w.checkpoint).Ok? && TurnReported(w, t) == NotObserved
  {
    FailureReason(t.probe, t.normalize, Requested(w.checkpoint).value)
  }

  lemma TurnKeepsStep(a: Adapter, w: World, t: Step)
    requires t.Turn? && Inv(a, w) && EmitsData(a, t.normalize) && Requested(w.checkpoint).Ok?
    requires Roomy(w.checkpoint, TurnReported(w, t))
    ensures var aim := Aim(w.checkpoint, TurnReported(w, t));
            && InStep(a, After(a, w, t).rows, aim)
            && (Accepted(MarkerOutcome(a, w, t)) ==>
                  NewestHealth(After(a, w, t).rows, a.Name()) == Some(aim.availability))
  {
    hide InStep, IsMarkerEvent, IsData, Poll, Reported, AppendOutcome, NewestHealth;
    var previous := Requested(w.checkpoint).value;
    var poll, aim := PollOf(a, w, t), Aim(w.checkpoint, TurnReported(w, t));
    PollEndsInItsMarker(a, previous, t.probe, t.normalize);
    PollShape(a, previous, t.probe, t.normalize);
    TransitionKeepsStep(a, w, aim.availability);
    var before := AppendAll(w.rows, Data(poll), t.lost, 0);
    AppendAllAgreeing(a, w.rows, Data(poll), t.lost, 0, aim);
    assert poll.events == Data(poll) + [Marker(poll)];
    AppendAllSplits(w.rows, Data(poll), [Marker(poll)], t.lost, 0);
    AppendOnly(before, Marker(poll), t.lost, |Data(poll)|);
    AppendAgreeing(a, before, Marker(poll), |Data(poll)| in t.lost, aim);
    if Accepted(MarkerOutcome(a, w, t)) {
      AcceptedMarkerIsCurrent(a, before, Marker(poll), |Data(poll)| in t.lost, aim);
    }
  }

  lemma AppendOnly(rows: seq<Event>, e: Event, lost: set<nat>, from: nat)
    ensures AppendAll(rows, [e], lost, from) == Append(rows, e, from in lost)
  {
    hide Append;
    var next := Append(rows, e, from in lost);
    assert AppendAll(next, [e][1..], lost, from + 1) == next;
  }

  /** Whatever the log and the checkpoint held, after a turn every record the normalizer
      returned has its row in the log, under the name of the instance it was seen at, unless
      the store refused just that record. */
  lemma AcceptedRecordsAreStored(a: Adapter, w: World, t: Step, i: nat)
    requires t.Turn? && Requested(w.checkpoint).Ok?
    requires BringsRecords(t.probe, t.normalize, Requested(w.checkpoint).value)
    ensures var position := SourceCheckpoint(Requested(w.checkpoint).value);
            var records, events := t.normalize(position).value.events, PollOf(a, w, t).events;
            i < |records| ==>
              && i < |events|
              && (!Refuses(w.rows, events, t.lost, i) ==> HasRowOf(After(a, w, t).rows, SeenAt(a, records[i])))
  {
    hide Poll, AppendAll, Refuses, HasRowOf, SeenAt;
    var previous := Requested(w.checkpoint).value;
    PollOffersEveryRecord(a, previous, t.probe, t.normalize);
    var events := PollOf(a, w, t).events;
    if i < |t.normalize(SourceCheckpoint(previous)).value.events| && !Refuses(w.rows, events, t.lost, i) {
      AcceptedIsStored(w.rows, events, t.lost, i);
    }
  }

  // ----- Whole runs --------------------------------------------------------

  /** The side conditions of a step: normalizers emit data, saves of a state change succeed,
      epochs have room, and other writers write under other source names. */
  ghost predicate Legal(a: Adapter, w: World, step: Step) {
    match step
    case Turn(_, normalize, _, _) => EmitsData(a, normalize) && Permitted(a, w, step)
    case Elsewhere(event, _) => event.source != a.Name()
  }

  ghost predicate LegalRun(a: Adapter, w: World, steps: seq<Step>) {
    forall k :: 0 <= k < |steps| ==> Legal(a, Run(a, w, steps[..k]), steps[k])
  }

  lemma StepKeepsInv(a: Adapter, w: World, step: Step)
    requires Inv(a, w) && Legal(a, w, step)
    ensures Inv(a, After(a, w, step))
  {
    hide InStep, IsMarkerEvent, IsData, Poll, Reported, AppendOutcome, NewestHealth, AppendAll, EmitsData;
    match step
    case Elsewhere(event, refused) => ForeignKeepsInv(a, w, event, refused);
    case Turn(probe, normalize, _, _) =>
      if Requested(w.checkpoint).Ok? {
        TurnKeepsStep(a, w, step);
        PollLeavesItsReport(a, Requested(w.checkpoint).value, probe, normalize);
      }
  }

  lemma ForeignKeepsInv(a: Adapter, w: World, event: Event, refused: bool)
    requires Inv(a, w) && event.source != a.Name()
    ensures Inv(a, w.(rows := Append(w.rows, event, refused)))
  {
    hide AppendOutcome, IsMarker, IsData, NewestHealth;
    if Memory(w.checkpoint).Some? {
      AppendForeign(a, w.rows, event, refused, Memory(w.checkpoint).value);
    }
  }

  lemma {:induction false} RunKeepsInv(a: Adapter, w: World, steps: seq<Step>)
    requires Inv(a, w) && LegalRun(a, w, steps)
    ensures Inv(a, Run(a, w, steps))
  {
    hide Inv, Legal, After;
    if steps != [] {
      var n := |steps| - 1;
      LegalPrefix(a, w, steps, n);
      RunKeepsInv(a, w, steps[..n]);
      StepKeepsInv(a, Run(a, w, steps[..n]), steps[n]);
    }
  }

  lemma LegalPrefix(a: Adapter, w: World, steps: seq<Step>, n: nat)
    requires n <= |steps| && LegalRun(a, w, steps)
    ensures LegalRun(a, w, steps[..n])
  {
    hide Legal, Run;
    forall k | 0 <= k < n ensures Legal(a, Run(a, w, steps[..n][..k]), steps[..n][k]) {
      assert steps[..n][..k] == steps[..k];
    }
  }

  /** The availability law. In any run, at any turn whose marker was accepted, the newest
      event that bears on the source says "observed" exactly when that turn observed it. */
  lemma ProjectionAgreesWithTheLastPoll(a: Adapter, w: World, steps: seq<Step>, k: nat)
    requires Inv(a, w) && LegalRun(a, w, steps)
    requires k < |steps| && steps[k].Turn?
    requires Accepted(MarkerOutcome(a, Run(a, w, steps[..k]), steps[k]))
    ensures var before := Run(a, w, steps[..k]);
            && Requested(before.checkpoint).Ok?
            && NewestHealth(Run(a, w, steps[..k + 1]).rows, a.Name())
               == Some(Reported(steps[k].probe, steps[k].normalize, Requested(before.checkpoint).value))
  {
    hide Inv, Poll, Reported, AppendOutcome, NewestHealth, AppendAll, EmitsData;
    var before := Run(a, w, steps[..k]);
    LegalPrefix(a, w, steps, k);
    RunKeepsInv(a, w, steps[..k]);
    assert steps[..k + 1][..k] == steps[..k];
    assert Legal(a, before, steps[k]);
    TurnKeepsStep(a, before, steps[k]);
  }

  /** What the log itself keeps over a run: marker epochs never decrease, each epoch has one
      state, and none is above the checkpoint's. */
  lemma MarkersStayInOrder(a: Adapter, w: World, steps: seq<Step>, i: nat, j: nat)
    requires Inv(a, w) && LegalRun(a, w, steps)
    requires i < j < |Run(a, w, steps).rows|
    requires IsMarkerEvent(a, Run(a, w, steps).rows[i]) && IsMarkerEvent(a, Run(a, w, steps).rows[j])
    ensures var after := Run(a, w, steps);
            && Memory(after.checkpoint).Some?
            && after.rows[i].identity.epoch <= after.rows[j].identity.epoch
               <= Memory(after.checkpoint).value.transitionEpoch
            && (after.rows[i].identity.epoch == after.rows[j].identity.epoch ==>
                  after.rows[i].payload.Health() == after.rows[j].payload.Health())
  {
    RunKeepsInv(a, w, steps);
  }

  // ----- Exactly which failed saves matter ---------------------------------

  /** When a turn's marker was accepted but its checkpoint was not saved, the run is still in
      step exactly when the turn reported what the checkpoint already said. */
  lemma FailedSaveIsSafeIff(a: Adapter, w: World, t: Step)
    requires t.Turn? && !t.saved && Inv(a, w) && EmitsData(a, t.normalize) && Requested(w.checkpoint).Ok?
    requires Roomy(w.checkpoint, TurnReported(w, t)) && Accepted(MarkerOutcome(a, w, t))
    ensures Inv(a, After(a, w, t)) <==>
            Memory(w.checkpoint).Some? && TurnReported(w, t) == Memory(w.checkpoint).value.availability
  {
    hide InStep, IsMarkerEvent, IsData, Poll, Reported, AppendOutcome, NewestHealth;
    var aim := Aim(w.checkpoint, TurnReported(w, t));
    TurnKeepsStep(a, w, t);
    if Memory(w.checkpoint) != Some(aim) {
      var i := TurnStoresItsMarker(a, w, t);
      if Memory(w.checkpoint).Some? && Inv(a, After(a, w, t)) {
        NoMarkerIsAhead(a, After(a, w, t).rows, Memory(w.checkpoint).value, i);
      }
    }
  }

  lemma NoMarkerIsAhead(a: Adapter, rows: seq<Event>, now: AvailabilityMemory, i: nat)
    requires InStep(a, rows, now) && i < |rows| && IsMarkerEvent(a, rows[i])
    ensures rows[i].identity.epoch <= now.transitionEpoch
  {
  }

  lemma TurnStoresItsMarker(a: Adapter, w: World, t: Step) returns (i: nat)
    requires t.Turn? && Inv(a, w) && EmitsData(a, t.normalize) && Requested(w.checkpoint).Ok?
    requires Roomy(w.checkpoint, TurnReported(w, t)) && Accepted(MarkerOutcome(a, w, t))
    ensures i < |After(a, w, t).rows| && IsMarkerEvent(a, After(a, w, t).rows[i])
    ensures After(a, w, t).rows[i].identity.epoch == TransitionEpoch(w.checkpoint, TurnReported(w, t))
  {
    hide InStep, IsMarkerEvent, IsData, Poll, Reported, AppendOutcome, NewestHealth;
    var poll, aim := PollOf(a, w, t), Aim(w.checkpoint, TurnReported(w, t));
    PollEndsInItsMarker(a, Requested(w.checkpoint).value, t.probe, t.normalize);
    PollShape(a, Requested(w.checkpoint).value, t.probe, t.normalize);
    TransitionKeepsStep(a, w, aim.availability);
    var before := AppendAll(w.rows, Data(poll), t.lost, 0);
    AppendAllAgreeing(a, w.rows, Data(poll), t.lost, 0, aim);
    assert poll.events == Data(poll) + [Marker(poll)];
    AppendAllSplits(w.rows, Data(poll), [Marker(poll)], t.lost, 0);
    AppendOnly(before, Marker(poll), t.lost, |Data(poll)|);
    InStepRowsAreKnown(a, before, aim);
    i := AcceptedMarkerIsStored(a, before, Marker(poll), |Data(poll)| in t.lost);
  }

  lemma InStepRowsAreKnown(a: Adapter, rows: seq<Event>, now: AvailabilityMemory)
    requires InStep(a, rows, now)
    ensures forall k :: 0 <= k < |rows| ==> KnownRow(a, rows[k])
  {
  }

  // ----- Room for epochs ---------------------------------------------------

  /** From a cold start an epoch is at most the number of steps, so no run shorter than
      2^64 - 1 steps ever saturates one. */
  lemma {:induction false} EpochsGrowSlowly(a: Adapter, rows: seq<Event>, steps: seq<Step>)
    ensures var checkpoint := Run(a, World(rows, None), steps).checkpoint;
            Memory(checkpoint).Some? ==> 1 <= Memory(checkpoint).value.transitionEpoch <= |steps|
  {
    hide AppendAll, Append, Poll, Reported;
    if steps != [] {
      var n := |steps| - 1;
      EpochsGrowSlowly(a, rows, steps[..n]);
      var before := Run(a, World(rows, None), steps[..n]);
      if steps[n].Turn? && Requested(before.checkpoint).Ok? {
        PollLeavesItsReport(a, Requested(before.checkpoint).value, steps[n].probe, steps[n].normalize);
      }
    }
  }
}
