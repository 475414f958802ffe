/** One poll of one source: observe, derive events, append what the store accepts, and save
    a checkpoint either way. */
module SourcePolling {
  import opened Text
  import opened Fnv
  import opened EventLog
  import opened Checkpoints

  // ----- The adapter -------------------------------------------------------

  /** A source kind, the endpoint it is polled at when there are several, and a repository. */
  datatype Adapter = Adapter(kind: string, instance: Option<string>, repo: string) {
    function Name(): string {
      if instance.Some? then kind + ":" + instance.value else kind
    }

    /** The name tells the instances of one kind apart, and from the sole one. */
    lemma NameIsItsOwn(other: Adapter)
      requires other.kind == kind
      ensures other.Name() == Name() <==> other.instance == instance
    {
      if instance.Some? && other.instance.Some? {
        var n := |kind| + 1;
        assert Name()[n..] == instance.value && other.Name()[n..] == other.instance.value;
      }
    }

    /** An instanced adapter re-stamps its normalizer's events with its own name. */
    function Attributed(events: seq<Event>): (stamped: seq<Event>)
      ensures |stamped| == |events|
      ensures forall i :: 0 <= i < |events| ==>
        stamped[i] == (if instance.None? then events[i] else events[i].(source := Name()))
    {
      if instance.None? then events
      else seq(|events|, i requires 0 <= i < |events| => events[i].(source := Name()))
    }
  }

  /** `SourceInstance::named`: a blank instance is the sole one. */
  function AtInstance(kind: string, instance: string, repo: string): Adapter {
    Adapter(kind, if IsBlank(instance) then None else Some(Trim(instance)), repo)
  }

  /** Two instances of a kind share a name exactly when they trim alike, and no name ends in its
      colon. */
  lemma InstancesAreTold(kind: string, x: string, y: string, repo: string)
    ensures AtInstance(kind, x, repo).Name() == AtInstance(kind, y, repo).Name() <==> Trim(x) == Trim(y)
    ensures AtInstance(kind, x, repo).Name() != kind + ":"
  {
    hide Trim;
    var a, b := AtInstance(kind, x, repo), AtInstance(kind, y, repo);
    a.NameIsItsOwn(b);
    if a.instance.Some? {
      assert a.Name()[|kind| + 1..] == Trim(x);
    }
  }

  datatype AdapterError =
    | EmptyAdapterId | EmptyObservedAt | EmptyCheckpoint
    | CheckpointLoadFailed | CheckpointSaveFailed

  function RequiredText(value: string, error: AdapterError): Result<string, AdapterError> {
    if IsBlank(value) then Err(error) else Ok(Trim(value))
  }

  /** What the host saw. `idlePayload` says that a payload is blank, null, or empty. */
  datatype Probe =
    | Reached(idlePayload: bool, success: bool, diagnostic: Option<string>)
    | Unreachable(reason: string)

  /** What a source-specific normalizer made of a payload. */
  datatype Parsed = Parsed(checkpoint: Checkpoint, events: seq<Event>, idle: bool)

  /** A normalizer already applied to the payload at hand; it still reads the previous
      source position. */
  type Normalizer = Option<Checkpoint> -> Result<Parsed, string>

  datatype AdapterPoll = AdapterPoll(checkpoint: Checkpoint, events: seq<Event>)

  function NotObservedEvent(a: Adapter, reason: string, epoch: nat): Event {
    Event(a.Name(), NotObservedAt(a.Name(), a.repo, epoch, Cause(reason)), NotObservedFinding(reason))
  }

  function ObservedEvent(a: Adapter, epoch: nat): Event {
    Event(a.Name(), ObservedAt(a.Name(), a.repo, epoch), ObservedIdle)
  }

  function NotObservedPoll(a: Adapter, previous: Option<Checkpoint>, reason: string): AdapterPoll {
    AdapterPoll(
      Transition(previous, NotObserved, SourceCheckpointOr(previous, NOT_OBSERVED_CHECKPOINT)),
      [NotObservedEvent(a, reason, TransitionEpoch(previous, NotObserved))])
  }

  function IdlePoll(a: Adapter, previous: Option<Checkpoint>): AdapterPoll {
    AdapterPoll(
      Transition(previous, Observed, SourceCheckpointOr(previous, OBSERVED_IDLE_CHECKPOINT)),
      [ObservedEvent(a, TransitionEpoch(previous, Observed))])
  }

  function DataPoll(a: Adapter, previous: Option<Checkpoint>, parsed: Parsed): AdapterPoll {
    AdapterPoll(
      Transition(previous, Observed, parsed.checkpoint),
      a.Attributed(parsed.events) + [ObservedEvent(a, TransitionEpoch(previous, Observed))])
  }

  function Poll(a: Adapter, previous: Option<Checkpoint>, probe: Probe, normalize: Normalizer): AdapterPoll {
    match probe
    case Unreachable(reason) => NotObservedPoll(a, previous, reason)
    case Reached(idlePayload, success, diagnostic) =>
      if !success then
        NotObservedPoll(a, previous,
                        if diagnostic.Some? then diagnostic.value else "source command exited non-zero")
      else if idlePayload then IdlePoll(a, previous)
      else
        match normalize(SourceCheckpoint(previous))
        case Err(reason) => NotObservedPoll(a, previous, reason)
        case Ok(parsed) =>
          if parsed.idle then IdlePoll(a, previous)
          else if parsed.events != [] then DataPoll(a, previous, parsed)
          else NotObservedPoll(a, previous, "source produced no records")
  }

  // ----- Appending a poll's events -----------------------------------------

  /** The log after the events were offered in order; `lost` are the positions whose
      transaction fails for a reason of its own. */
  function AppendAll(rows: seq<Event>, events: seq<Event>, lost: set<nat>, from: nat): seq<Event>
    decreases events
  {
    if events == [] then rows
    else AppendAll(Append(rows, events[0], from in lost), events[1..], lost, from + 1)
  }

  lemma {:induction false} AppendAllSplits(
      rows: seq<Event>, a: seq<Event>, b: seq<Event>, lost: set<nat>, from: nat)
    ensures AppendAll(rows, a + b, lost, from)
            == AppendAll(AppendAll(rows, a, lost, from), b, lost, from + |a|)
    decreases a
  {
    hide Append, AppendOutcome;
    if a == [] {
      assert a + b == b;
    } else {
      AppendAllSplits(Append(rows, a[0], from in lost), a[1..], b, lost, from + 1);
      assert (a + b)[1..] == a[1..] + b;
    }
  }

  /** Each event meets the log the earlier ones left, and leaves it with one append. */
  lemma OfferedInTurn(rows: seq<Event>, events: seq<Event>, lost: set<nat>, i: nat)
    requires i < |events|
    ensures AppendAll(rows, events[..0], lost, 0) == rows
    ensures AppendAll(rows, events[..i + 1], lost, 0)
            == Append(AppendAll(rows, events[..i], lost, 0), events[i], i in lost)
  {
    hide Append;
    assert events[..i + 1] == events[..i] + [events[i]];
    AppendAllSplits(rows, events[..i], [events[i]], lost, 0);
    var before := AppendAll(rows, events[..i], lost, 0);
    assert AppendAll(Append(before, events[i], i in lost), [events[i]][1..], lost, i + 1)
           == Append(before, events[i], i in lost);
  }

  /** The store's answer to the `i`-th event of an array, on the log the earlier ones left. */
  function OutcomeAt(rows: seq<Event>, events: seq<Event>, lost: set<nat>, from: nat, i: nat): Outcome
    requires i < |events|
  {
    AppendOutcome(AppendAll(rows, events[..i], lost, from), events[i], from + i in lost)
  }

  predicate Refuses(rows: seq<Event>, events: seq<Event>, lost: set<nat>, i: nat)
    requires i < |events|
  {
    !Accepted(OutcomeAt(rows, events, lost, 0, i))
  }

  /** `skipped` names the refused ones of the first `n` events, in their order, and no others;
      `at` are their positions. */
  ghost predicate NamesTheRefused(
    rows: seq<Event>, events: seq<Event>, lost: set<nat>, n: nat, skipped: seq<string>, at: seq<nat>)
    requires n <= |events|
  {
    && |at| == |skipped|
    && (forall k, l :: 0 <= k < l < |at| ==> at[k] < at[l])
    && (forall k :: 0 <= k < |at| ==> at[k] < n && skipped[k] == events[at[k]].identity.EventId())
    && (forall i :: 0 <= i < n ==> (i in at <==> Refuses(rows, events, lost, i)))
  }

  /** The accepted ones of the first `n` events. */
  function Taken(rows: seq<Event>, events: seq<Event>, lost: set<nat>, n: nat): set<nat>
    requires n <= |events|
  {
    set i: nat | i < n && !Refuses(rows, events, lost, i)
  }

  lemma OneMoreOffered(
      rows: seq<Event>, events: seq<Event>, lost: set<nat>, n: nat, skipped: seq<string>, at: seq<nat>)
    requires n < |events| && NamesTheRefused(rows, events, lost, n, skipped, at)
    ensures
      if Refuses(rows, events, lost, n) then
        && NamesTheRefused(rows, events, lost, n + 1, skipped + [events[n].identity.EventId()], at + [n])
        && |Taken(rows, events, lost, n + 1)| == |Taken(rows, events, lost, n)|
      else
        && NamesTheRefused(rows, events, lost, n + 1, skipped, at)
        && |Taken(rows, events, lost, n + 1)| == |Taken(rows, events, lost, n)| + 1
  {
    hide Refuses, Identity.EventId;
    if Refuses(rows, events, lost, n) {
      assert Taken(rows, events, lost, n + 1) == Taken(rows, events, lost, n);
    } else {
      assert Taken(rows, events, lost, n + 1) == Taken(rows, events, lost, n) + {n};
    }
  }

  // ----- The checkpoint store ----------------------------------------------

  class CheckpointStore {
    var saved: map<string, Checkpoint>

    constructor ()
      ensures saved == map[]
    {
      saved := map[];
    }

    method Load(adapterId: string, fails: bool) returns (r: Result<Option<Checkpoint>, AdapterError>)
      ensures r == (if fails then Err(CheckpointLoadFailed) else Ok(Stored(adapterId)))
    {
      r := if fails then Err(CheckpointLoadFailed) else Ok(Stored(adapterId));
    }

    function Stored(adapterId: string): Option<Checkpoint>
      reads this
    {
      if adapterId in saved then Some(saved[adapterId]) else None
    }

    method Save(adapterId: string, checkpoint: Checkpoint, fails: bool) returns (ok: bool)
      modifies this
      ensures ok == !fails
      ensures saved == if ok then old(saved)[adapterId := checkpoint] else old(saved)
    {
      if !fails {
        saved := saved[adapterId := checkpoint];
      }
      ok := !fails;
    }
  }

  /** `AdapterPollRequest::new`: stored text is trimmed, and blank text is refused. */
  function Requested(stored: Option<Checkpoint>): Result<Option<Checkpoint>, AdapterError> {
    if stored.Some? && stored.value.Plain? then
      match RequiredText(stored.value.text, EmptyCheckpoint)
      case Err(error) => Err(error)
      case Ok(text) => Ok(Some(Plain(text)))
    else Ok(stored)
  }

  datatype Summary = Summary(
    adapterId: string, previous: Option<Checkpoint>, checkpoint: Checkpoint,
    appended: nat, skipped: seq<string>)

  /** The summary counts the accepted events, and names the refused ones in order. */
  ghost predicate Summarizes(summary: Summary, rows: seq<Event>, events: seq<Event>, lost: set<nat>) {
    && summary.appended == |Taken(rows, events, lost, |events|)|
    && summary.appended + |summary.skipped| == |events|
    && exists at :: NamesTheRefused(rows, events, lost, |events|, summary.skipped, at)
  }

  /** The ports that may fail during one poll. */
  datatype Faults = Faults(load: bool, lost: set<nat>, save: bool)

  /** A stored checkpoint that a poll can be asked with: it is not blank text. */
  predicate Usable(stored: Option<Checkpoint>) {
    stored.Some? && stored.value.Plain? ==> !IsBlank(stored.value.text)
  }

  lemma RequestedIff(stored: Option<Checkpoint>)
    ensures Requested(stored).Ok? <==> Usable(stored)
    ensures Requested(stored).Err? ==> Requested(stored).error == EmptyCheckpoint
    ensures Usable(stored) && stored.Some? && stored.value.Plain? ==>
      Requested(stored).value == Some(Plain(Trim(stored.value.text)))
    ensures stored.None? || !stored.value.Plain? ==> Requested(stored).value == stored
  {
    hide IsBlank, Trim;
  }

  /** Whether a call gets as far as polling its source. */
  predicate Polls(adapterId: string, observedAt: string, stored: Option<Checkpoint>, faults: Faults) {
    !IsBlank(adapterId) && !IsBlank(observedAt) && !faults.load && Usable(stored)
  }

  /** Offer the events in order, counting what was accepted and naming what was not. `at` are
      the positions of the latter. */
  method OfferEvents(log: EventStore, events: seq<Event>, lost: set<nat>)
    returns (appended: nat, skipped: seq<string>, ghost at: seq<nat>)
    modifies log
    ensures log.rows == AppendAll(old(log.rows), events, lost, 0)
    ensures NamesTheRefused(old(log.rows), events, lost, |events|, skipped, at)
    ensures appended == |Taken(old(log.rows), events, lost, |events|)|
    ensures appended + |skipped| == |events|
  {
    hide Append, AppendOutcome, AppendAll, NamesTheRefused, Taken;
    appended, skipped, at := 0, [], [];
    ghost var start := log.rows;
    NothingOffered(start, events, lost);
    for i := 0 to |events|
      invariant log.rows == AppendAll(start, events[..i], lost, 0)
      invariant NamesTheRefused(start, events, lost, i, skipped, at)
      invariant appended == |Taken(start, events, lost, i)| && appended + |skipped| == i
    {
      OfferedInTurn(start, events, lost, i);
      OneMoreOffered(start, events, lost, i, skipped, at);
      var outcome := log.AppendEvent(events[i], i in lost);
      if Accepted(outcome) {
        appended := appended + 1;
      } else {
        skipped, at := skipped + [events[i].identity.EventId()], at + [i];
      }
    }
    assert events[..|events|] == events;
  }

  lemma NothingOffered(rows: seq<Event>, events: seq<Event>, lost: set<nat>)
    ensures AppendAll(rows, events[..0], lost, 0) == rows
    ensures NamesTheRefused(rows, events, lost, 0, [], []) && Taken(rows, events, lost, 0) == {}
  {
  }

  /** An accepted event has its row in the log the whole array leaves. */
  lemma AcceptedIsStored(rows: seq<Event>, events: seq<Event>, lost: set<nat>, i: nat)
    requires i < |events| && !Refuses(rows, events, lost, i)
    ensures HasRowOf(AppendAll(rows, events, lost, 0), events[i])
  {
    hide Append, AppendOutcome, HasRowOf, AppendAll;
    var before := AppendAll(rows, events[..i], lost, 0);
    OfferedInTurn(rows, events, lost, i);
    AcceptedHasRow(before, events[i], i in lost);
    assert events == events[..i + 1] + events[i + 1..];
    AppendAllSplits(rows, events[..i + 1], events[i + 1..], lost, 0);
    var once := AppendAll(rows, events[..i + 1], lost, 0);
    AppendAllGrows(once, events[i + 1..], lost, i + 1);
    RowOfStays(once, AppendAll(once, events[i + 1..], lost, i + 1), events[i]);
  }

  lemma {:induction false} AppendAllGrows(rows: seq<Event>, events: seq<Event>, lost: set<nat>, from: nat)
    ensures rows <= AppendAll(rows, events, lost, from)
    decreases events
  {
    hide AppendOutcome;
    if events != [] {
      AppendAllGrows(Append(rows, events[0], from in lost), events[1..], lost, from + 1);
    }
  }

  /** `run_adapter_poll`. A call fails exactly when an argument or the stored checkpoint is
      blank or a checkpoint port fails, the first of these deciding the error; lost appends
      fail nothing. A call that does not get as far as polling changes nothing. */
  method RunAdapterPoll(
      a: Adapter, adapterId: string, observedAt: string, probe: Probe, normalize: Normalizer,
      checkpoints: CheckpointStore, log: EventStore, faults: Faults)
    returns (r: Result<Summary, AdapterError>)
    modifies checkpoints, log
    ensures IsBlank(adapterId) ==> r == Err(EmptyAdapterId)
    ensures !IsBlank(adapterId) && IsBlank(observedAt) ==> r == Err(EmptyObservedAt)
    ensures !IsBlank(adapterId) && !IsBlank(observedAt) && faults.load ==> r == Err(CheckpointLoadFailed)
    ensures (&& !IsBlank(adapterId) && !IsBlank(observedAt) && !faults.load
             && !Usable(old(checkpoints.Stored(Trim(adapterId))))) ==> r == Err(EmptyCheckpoint)
    ensures Polls(adapterId, observedAt, old(checkpoints.Stored(Trim(adapterId))), faults) ==>
      if faults.save then r == Err(CheckpointSaveFailed) else r.Ok?
    ensures !Polls(adapterId, observedAt, old(checkpoints.Stored(Trim(adapterId))), faults)
            ==> log.rows == old(log.rows) && checkpoints.saved == old(checkpoints.saved)
    ensures Polls(adapterId, observedAt, old(checkpoints.Stored(Trim(adapterId))), faults) ==>
      var poll := Poll(a, Requested(old(checkpoints.Stored(Trim(adapterId)))).value, probe, normalize);
      && log.rows == AppendAll(old(log.rows), poll.events, faults.lost, 0)
      && checkpoints.saved == (if faults.save then old(checkpoints.saved)
                               else old(checkpoints.saved)[Trim(adapterId) := poll.checkpoint])
    // What the summary says of an error-free call.
    ensures r.Ok? ==>
      && r.value.adapterId == Trim(adapterId)
      && r.value.previous == old(checkpoints.Stored(Trim(adapterId)))
      && Some(r.value.checkpoint) == checkpoints.Stored(Trim(adapterId))
    ensures r.Ok? ==>
      Summarizes(r.value, old(log.rows),
                 Poll(a, Requested(old(checkpoints.Stored(Trim(adapterId)))).value, probe, normalize).events, faults.lost)
  {
    hide AppendAll, Poll, IsBlank, Trim, Taken, NamesTheRefused, Requested;
    RequestedIff(checkpoints.Stored(Trim(adapterId)));
    if IsBlank(adapterId) {
      return Err(EmptyAdapterId);
    }
    if IsBlank(observedAt) {
      return Err(EmptyObservedAt);
    }
    var id := Trim(adapterId);
    var loaded := checkpoints.Load(id, faults.load);
    if loaded.Err? {
      return Err(loaded.error);
    }
    var request := Requested(loaded.value);
    if request.Err? {
      return Err(request.error);
    }
    var poll := Poll(a, request.value, probe, normalize);
    var appended, skipped, _ := OfferEvents(log, poll.events, faults.lost);
    var saved := checkpoints.Save(id, poll.checkpoint, faults.save);
    if !saved {
      return Err(CheckpointSaveFailed);
    }
    r := Ok(Summary(id, loaded.value, poll.checkpoint, appended, skipped));
  }
}
