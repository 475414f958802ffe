/** The append-only event log: identities as the text the store compares, insert-or-ignore
    appends, and the latest-wins projections read from it. */
module EventLog {
  import opened Text
  import opened WorkItems
  import Attention

  datatype Availability = Observed | NotObserved

  /** The persisted form of a work-item snapshot. Its item carries the trimmed id. */
  datatype Snapshot = Snapshot(repo: string, item: WorkItem, version: nat)

  /** The records of the other sources. */
  datatype RecordKind =
    | BacklogBounce | JournalProgress | DispatcherRefusal
    | FabroRun | FactoryRunOrphans | PullRequest | NextSpec | ReviseRequired

  datatype Payload =
    | WorkItemSnapshot(snapshot: Snapshot)
    | CompletenessFinding
    | ObservedIdle
    | NotObservedFinding(reason: string)
    | SourceRecord(kind: RecordKind)
    // An item of the needs-attention inbox appears, changes or is resolved.
    | AttentionChange(change: Attention.Change)
    // A command event, or anything else that says nothing of a source.
    | NoHealth
  {
    /** What an event with this payload says of its source, if it says anything. */
    function Health(): Option<Availability> {
      match this
      case NotObservedFinding(_) => Some(NotObserved)
      case SourceRecord(FactoryRunOrphans) => None
      case AttentionChange(_) => None
      case NoHealth => None
      case _ => Some(Observed)
    }

    /** What speaks for a source, what speaks against it, and that nothing else speaks. */
    lemma SpeaksIff()
      ensures Health() == Some(NotObserved) <==> NotObservedFinding?
      ensures Health() == Some(Observed) <==>
              || WorkItemSnapshot? || CompletenessFinding? || ObservedIdle?
              || (SourceRecord? && (|| kind in {BacklogBounce, JournalProgress, DispatcherRefusal}
                                    || kind in {FabroRun, PullRequest, NextSpec, ReviseRequired}))
    {
    }
  }

  datatype Identity =
    | SnapshotOf(repo: string, itemId: string, version: nat, epoch: nat)
    | CompletenessOf(repo: string, version: nat)
    | NotObservedAt(source: string, repo: string, epoch: nat, cause: string)
    | ObservedAt(source: string, repo: string, epoch: nat)
    | Verbatim(eventId: string, sourceEventId: Option<string>)
  {
    /** The source and the repository an identity text starts with. */
    function Prefix(): string {
      match this
      case SnapshotOf(repo, _, _, _) => "orchestrator" + ":" + repo + ":"
      case CompletenessOf(repo, _) => "orchestrator" + ":" + repo + ":"
      case NotObservedAt(source, repo, _, _) => source + ":" + repo + ":"
      case ObservedAt(source, repo, _) => source + ":" + repo + ":"
      case Verbatim(_, _) => ""
    }

    function Tail(): string {
      match this
      case SnapshotOf(_, itemId, version, epoch) =>
        itemId + ":" + Decimal(version) + ":" + Decimal(epoch) + ":snapshot"
      case CompletenessOf(_, version) => Decimal(version) + ":completeness"
      case NotObservedAt(_, _, epoch, cause) => "not_observed:" + (Decimal(epoch) + ":" + cause)
      case ObservedAt(_, _, epoch) => "observed_idle:" + Decimal(epoch)
      case Verbatim(_, _) => ""
    }

    function SourceEventId(): Option<string> {
      if Verbatim? then sourceEventId else Some(Prefix() + Tail())
    }

    function EventId(): string {
      if Verbatim? then eventId else "evt:" + SourceEventId().value
    }
  }

  datatype Event = Event(source: string, identity: Identity, payload: Payload) {
    /** Whether this row answers the store's lookup for an append it ignored. */
    predicate IsTheRowOf(e: Event) {
      if e.identity.SourceEventId().Some? then
        source == e.source && identity.SourceEventId() == e.identity.SourceEventId()
      else
        identity.EventId() == e.identity.EventId()
    }

    /** Whether the store's unique indexes refuse `e` beside this row. */
    predicate Blocks(e: Event) {
      identity.EventId() == e.identity.EventId() || IsTheRowOf(e)
    }
  }

  // ----- Appending ---------------------------------------------------------

  datatype Outcome = Inserted | Duplicate | Failed

  predicate Accepted(outcome: Outcome) {
    outcome != Failed
  }

  predicate HasRowOf(rows: seq<Event>, e: Event) {
    exists i :: 0 <= i < |rows| && rows[i].IsTheRowOf(e)
  }

  predicate HasBlocker(rows: seq<Event>, e: Event) {
    exists i :: 0 <= i < |rows| && rows[i].Blocks(e)
  }

  /** The store's answer. `lost` says that the transaction fails for a reason of its own. */
  function AppendOutcome(rows: seq<Event>, e: Event, lost: bool): Outcome {
    if lost then Failed
    else if !HasBlocker(rows, e) then Inserted
    else if HasRowOf(rows, e) then Duplicate
    else Failed
  }

  function Append(rows: seq<Event>, e: Event, lost: bool): seq<Event> {
    if AppendOutcome(rows, e, lost) == Inserted then rows + [e] else rows
  }

  /** An accepted event has its row in the log. */
  lemma AcceptedHasRow(rows: seq<Event>, e: Event, lost: bool)
    requires Accepted(AppendOutcome(rows, e, lost))
    ensures HasRowOf(Append(rows, e, lost), e)
  {
    hide Identity.SourceEventId, Identity.EventId;
    if AppendOutcome(rows, e, lost) == Inserted {
      assert (rows + [e])[|rows|].IsTheRowOf(e);
    }
  }

  /** An event whose row is in the log is taken for a duplicate. */
  lemma RowsBlock(rows: seq<Event>, e: Event)
    requires HasRowOf(rows, e)
    ensures HasBlocker(rows, e) && AppendOutcome(rows, e, false) == Duplicate
  {
    hide Event.IsTheRowOf;
    var i :| 0 <= i < |rows| && rows[i].IsTheRowOf(e);
    assert rows[i].Blocks(e);
  }

  lemma RowOfStays(rows: seq<Event>, longer: seq<Event>, e: Event)
    requires rows <= longer && HasRowOf(rows, e)
    ensures HasRowOf(longer, e)
  {
    hide Event.IsTheRowOf;
    var i :| 0 <= i < |rows| && rows[i].IsTheRowOf(e);
    assert longer[i] == rows[i];
  }

  class EventStore {
    var rows: seq<Event>

    constructor ()
      ensures rows == []
    {
      rows := [];
    }

    /** `insert or ignore`, then a look-up of the row that stands in for an ignored append. */
    method AppendEvent(e: Event, lost: bool) returns (outcome: Outcome)
      modifies this
      ensures rows == Append(old(rows), e, lost)
      ensures outcome == AppendOutcome(old(rows), e, lost)
    {
      hide Event.Blocks, Event.IsTheRowOf;
      if lost {
        return Failed;
      }
      var blocked, found := false, false;
      for i := 0 to |rows|
        invariant rows == old(rows)
        invariant blocked <==> exists k :: 0 <= k < i && rows[k].Blocks(e)
        invariant found <==> exists k :: 0 <= k < i && rows[k].IsTheRowOf(e)
      {
        blocked := blocked || rows[i].Blocks(e);
        found := found || rows[i].IsTheRowOf(e);
      }
      if !blocked {
        rows := rows + [e];
        return Inserted;
      }
      outcome := if found then Duplicate else Failed;
    }
  }

  // ----- Projections -------------------------------------------------------

  /** What the newest health-bearing event of `source` says of it. */
  function NewestHealth(rows: seq<Event>, source: string): Option<Availability> {
    if rows == [] then None
    else
      var last := rows[|rows| - 1];
      if last.source == source && last.payload.Health().Some? then last.payload.Health()
      else NewestHealth(rows[..|rows| - 1], source)
  }

  /** The latest snapshot of one work-item: later events supersede earlier ones. */
  function LatestSnapshot(rows: seq<Event>, itemId: string): Option<Snapshot> {
    if rows == [] then None
    else
      var last := rows[|rows| - 1];
      if last.payload.WorkItemSnapshot? && last.payload.snapshot.item.id == itemId then
        Some(last.payload.snapshot)
      else LatestSnapshot(rows[..|rows| - 1], itemId)
  }

  /** `source_observation_tally`: every source that ever reported, and whether it is degraded. */
  method SourceObservationTally(rows: seq<Event>) returns (tally: map<string, bool>)
    ensures forall s :: s in tally <==> NewestHealth(rows, s).Some?
    ensures forall s :: s in tally ==> tally[s] == (NewestHealth(rows, s) == Some(NotObserved))
  {
    tally := map[];
    for i := 0 to |rows|
      invariant forall s :: s in tally <==> NewestHealth(rows[..i], s).Some?
      invariant forall s :: s in tally ==> tally[s] == (NewestHealth(rows[..i], s) == Some(NotObserved))
    {
      assert rows[..i + 1][..i] == rows[..i];
      var health := rows[i].payload.Health();
      if health.Some? {
        tally := tally[rows[i].source := health.value == NotObserved];
      }
    }
    assert rows[..|rows|] == rows;
  }

  /** The lane board's reduction: the latest observation of each work-item wins. */
  method LatestSnapshots(rows: seq<Event>) returns (latest: map<string, Snapshot>)
    ensures forall id :: id in latest <==> LatestSnapshot(rows, id).Some?
    ensures forall id :: id in latest ==> LatestSnapshot(rows, id) == Some(latest[id])
  {
    latest := map[];
    for i := 0 to |rows|
      invariant forall id :: id in latest <==> LatestSnapshot(rows[..i], id).Some?
      invariant forall id :: id in latest ==> LatestSnapshot(rows[..i], id) == Some(latest[id])
    {
      assert rows[..i + 1][..i] == rows[..i];
      if rows[i].payload.WorkItemSnapshot? {
        latest := latest[rows[i].payload.snapshot.item.id := rows[i].payload.snapshot];
      }
    }
    assert rows[..|rows|] == rows;
  }
}
