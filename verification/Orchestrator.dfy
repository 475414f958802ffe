/** The orchestrator normalizer: one snapshot and one completeness finding per work-item,
    each at the epoch the observation ledger assigns. */
module Orchestrator {
  import opened Text
  import opened WorkItems
  import opened EventLog
  import opened Checkpoints
  import opened SourcePolling

  const NAME := "orchestrator"

  /** The payload once read as JSON. */
  datatype Listing = NotAnArray | Records(records: seq<Record>)

  /** The item as its snapshot carries it: the constructor trims the id. */
  function Stored(item: WorkItem): WorkItem {
    item.(id := Trim(item.id))
  }

  function SnapshotEvent(repo: string, item: WorkItem, epoch: nat): Event {
    var version := ContentVersion(repo, item);
    Event(NAME, SnapshotOf(repo, Trim(item.id), version, epoch),
          WorkItemSnapshot(Snapshot(repo, Stored(item), version)))
  }

  function CompletenessEvent(repo: string, item: WorkItem): Event {
    Event(NAME, CompletenessOf(repo, ContentVersion(repo, item)), CompletenessFinding)
  }

  // ----- What an array of records comes to ---------------------------------

  /** The work-items of an array, in order: an uninterpretable record is skipped. */
  function Interpreted(records: seq<Record>): seq<WorkItem> {
    if records == [] then []
    else (if records[0].Record? then [records[0].Interpret()] else []) + Interpreted(records[1..])
  }

  function ItemEpoch(repo: string, item: WorkItem, ledger: Ledger): nat {
    ObservedEpoch(ledger, item.id, ContentVersion(repo, item))
  }

  function Recorded(repo: string, item: WorkItem, ledger: Ledger): Ledger {
    ledger[item.id := Seen(ContentVersion(repo, item), ItemEpoch(repo, item, ledger))]
  }

  function RecordedAll(repo: string, items: seq<WorkItem>, ledger: Ledger): Ledger
    decreases items
  {
    if items == [] then ledger else RecordedAll(repo, items[1..], Recorded(repo, items[0], ledger))
  }

  function ItemEvents(repo: string, item: WorkItem, ledger: Ledger): seq<Event> {
    [SnapshotEvent(repo, item, ItemEpoch(repo, item, ledger)), CompletenessEvent(repo, item)]
  }

  function EventsOf(repo: string, items: seq<WorkItem>, ledger: Ledger): seq<Event>
    decreases items
  {
    if items == [] then []
    else ItemEvents(repo, items[0], ledger) + EventsOf(repo, items[1..], Recorded(repo, items[0], ledger))
  }

  /** A snapshot refuses a blank id, and that refusal sinks the whole observation. */
  predicate AllNamed(items: seq<WorkItem>) {
    forall i :: 0 <= i < |items| ==> !IsBlank(items[i].id)
  }

  function Normalize(repo: string, listing: Listing, previous: Option<Checkpoint>): Result<Parsed, string> {
    if listing.NotAnArray? then Err("orchestrator list-work-items output is not a JSON array")
    else if listing.records == [] then Err("no work-items observed")
    else
      var items := Interpreted(listing.records);
      if !AllNamed(items) then Err("invalid work-item")
      else
        var ledger := LedgerFrom(previous);
        Ok(Parsed(LedgerCheckpoint(RecordedAll(repo, items, ledger)), EventsOf(repo, items, ledger), false))
  }

  function NormalizerOf(repo: string, listing: Listing): Normalizer {
    previous => Normalize(repo, listing, previous)
  }

  lemma OneRecord(records: seq<Record>, i: nat, items: seq<WorkItem>, done: nat)
    requires i < |records| && done <= |items|
    requires Interpreted(records[i..]) == items[done..]
    ensures records[i].Uninterpretable? ==> Interpreted(records[i + 1..]) == items[done..]
    ensures records[i].Record? ==>
      done < |items| && items[done] == records[i].Interpret() && Interpreted(records[i + 1..]) == items[done + 1..]
  {
    assert records[i..][1..] == records[i + 1..];
    if records[i].Record? {
      var rest := Interpreted(records[i + 1..]);
      assert items[done..] == [records[i].Interpret()] + rest;
      assert items[done..][1..] == rest == items[done + 1..];
    }
  }

  lemma OneItem(repo: string, items: seq<WorkItem>, done: nat, ledger: Ledger)
    requires done < |items|
    ensures var next := Recorded(repo, items[done], ledger);
            && RecordedAll(repo, items[done..], ledger) == RecordedAll(repo, items[done + 1..], next)
            && EventsOf(repo, items[done..], ledger)
               == ItemEvents(repo, items[done], ledger) + EventsOf(repo, items[done + 1..], next)
  {
    hide Recorded, ItemEvents;
    assert items[done..][1..] == items[done + 1..];
  }

  lemma NoItemsLeft(repo: string, records: seq<Record>, items: seq<WorkItem>, ledger: Ledger)
    ensures Interpreted(records[|records|..]) == []
    ensures RecordedAll(repo, items[|items|..], ledger) == ledger
    ensures EventsOf(repo, items[|items|..], ledger) == []
  {
  }

  /** The loop over the array: the ledger is updated record by record, and a blank id stops
      it with nothing to report. */
  method ObserveRecords(repo: string, records: seq<Record>, observations: WorkItemObservationLedger)
    returns (events: Option<seq<Event>>)
    modifies observations
    ensures events.Some? <==> AllNamed(Interpreted(records))
    ensures events.Some? ==>
      && events.value == EventsOf(repo, Interpreted(records), old(observations.items))
      && observations.items == RecordedAll(repo, Interpreted(records), old(observations.items))
  {
    hide IsBlank, ContentVersion, Interpreted, RecordedAll, EventsOf, SnapshotEvent, CompletenessEvent;
    var built: seq<Event> := [];
    ghost var items, start := Interpreted(records), observations.items;
    ghost var done: nat := 0;
    var i := 0;
    assert records[0..] == records && items[0..] == items;
    while i < |records|
      invariant 0 <= i <= |records| && done <= |items|
      invariant Interpreted(records[i..]) == items[done..]
      invariant forall k :: 0 <= k < done ==> !IsBlank(items[k].id)
      invariant RecordedAll(repo, items[done..], observations.items) == RecordedAll(repo, items, start)
      invariant built + EventsOf(repo, items[done..], observations.items) == EventsOf(repo, items, start)
    {
      OneRecord(records, i, items, done);
      if records[i].Record? {
        var item := records[i].Interpret();
        OneItem(repo, items, done, observations.items);
        if IsBlank(item.id) {
          return None;
        }
        var version := ContentVersion(repo, item);
        var epoch := observations.Observe(item.id, version);
        observations.Record(item.id, version, epoch);
        built := built + [SnapshotEvent(repo, item, epoch), CompletenessEvent(repo, item)];
        done := done + 1;
      }
      i := i + 1;
    }
    NoItemsLeft(repo, records, items, observations.items);
    events := Some(built);
  }

  method ParseOrchestratorObservation(repo: string, listing: Listing, previous: Option<Checkpoint>)
    returns (r: Result<Parsed, string>)
    ensures r == Normalize(repo, listing, previous)
  {
    if listing.NotAnArray? {
      return Err("orchestrator list-work-items output is not a JSON array");
    }
    if listing.records == [] {
      return Err("no work-items observed");
    }
    var observations := new WorkItemObservationLedger.FromPrevious(previous);
    var events := ObserveRecords(repo, listing.records, observations);
    if events.None? {
      return Err("invalid work-item");
    }
    var checkpoint := observations.ToCheckpoint();
    r := Ok(Parsed(checkpoint, events.value, false));
  }

  // ----- What the parse says of each record --------------------------------

  lemma {:induction false} EventsAreTwoPerItem(repo: string, items: seq<WorkItem>, ledger: Ledger)
    ensures |EventsOf(repo, items, ledger)| == 2 * |items|
    decreases items
  {
    hide Recorded, SnapshotEvent, CompletenessEvent;
    if items != [] {
      EventsAreTwoPerItem(repo, items[1..], Recorded(repo, items[0], ledger));
    }
  }

  /** The ledger just before the `k`-th item. */
  lemma {:induction false} EventsOfItem(repo: string, items: seq<WorkItem>, ledger: Ledger, k: nat)
    requires k < |items|
    ensures var before, events := RecordedAll(repo, items[..k], ledger), EventsOf(repo, items, ledger);
            && |events| == 2 * |items|
            && events[2 * k] == SnapshotEvent(repo, items[k], ItemEpoch(repo, items[k], before))
            && events[2 * k + 1] == CompletenessEvent(repo, items[k])
    decreases items
  {
    hide Recorded, SnapshotEvent, CompletenessEvent, ItemEpoch;
    EventsAreTwoPerItem(repo, items, ledger);
    if k > 0 {
      var next := Recorded(repo, items[0], ledger);
      EventsOfItem(repo, items[1..], next, k - 1);
      assert items[..k][1..] == items[1..][..k - 1];
      assert EventsOf(repo, items, ledger) == ItemEvents(repo, items[0], ledger) + EventsOf(repo, items[1..], next);
    }
  }

  /** How many records could be interpreted. */
  function CountInterpretable(records: seq<Record>): nat {
    if records == [] then 0
    else CountInterpretable(records[..|records| - 1]) + if records[|records| - 1].Record? then 1 else 0
  }

  lemma {:induction false} InterpretedSplits(a: seq<Record>, b: seq<Record>)
    ensures Interpreted(a + b) == Interpreted(a) + Interpreted(b)
  {
    if a == [] {
      assert a + b == b;
    } else {
      InterpretedSplits(a[1..], b);
      assert (a + b)[1..] == a[1..] + b;
    }
  }

  lemma {:induction false} InterpretedAreCounted(records: seq<Record>)
    ensures |Interpreted(records)| == CountInterpretable(records)
  {
    if records != [] {
      var n := |records| - 1;
      InterpretedAreCounted(records[..n]);
      InterpretedSplits(records[..n], [records[n]]);
      assert records == records[..n] + [records[n]];
      assert [records[n]][1..] == [];
    }
  }

  lemma RecordsItem(records: seq<Record>, i: nat)
    requires i < |records| && records[i].Record?
    ensures CountInterpretable(records[..i]) < |Interpreted(records)|
    ensures Interpreted(records)[CountInterpretable(records[..i])] == records[i].Interpret()
  {
    InterpretedAreCounted(records[..i]);
    InterpretedSplits(records[..i], records[i..]);
    assert records == records[..i] + records[i..];
  }

  /** An item shows a raw record: the id trimmed, every given field verbatim, and for a field
      that is missing or null its default. */
  predicate Shows(item: WorkItem, r: Record)
    requires r.Record?
  {
    && item.id == Trim(r.id)
    && item.lane == r.lane && item.laneReason == r.laneReason && item.detail == r.detail
    && item.rank == (match r.rank case Some(rank) => rank case None => "~")
    && item.status == (match r.status case Some(status) => status case None => "")
    && (match r.admission case Some(policy) => item.admission == policy case None => item.admission.Manual?)
    && (match r.acceptance case Some(policy) => item.acceptance == policy case None => item.acceptance.AiThenHuman?)
  }

  lemma InterpretedShows(r: Record)
    requires r.Record?
    ensures Shows(Stored(r.Interpret()), r) && r.Interpret().id == r.id
  {
    hide Trim;
  }

  /** Which listings the normalizer reads: a non-empty array whose interpretable records all
      have an id that is not blank. */
  lemma ReadsIff(repo: string, listing: Listing, previous: Option<Checkpoint>)
    ensures Normalize(repo, listing, previous).Ok? <==>
            && listing.Records? && listing.records != []
            && forall i :: 0 <= i < |listing.records| && listing.records[i].Record? ==> !IsBlank(listing.records[i].id)
  {
    hide IsBlank, RecordedAll, EventsOf;
    if listing.Records? {
      NamedIff(listing.records);
    }
  }

  lemma {:induction false} NamedIff(records: seq<Record>)
    ensures AllNamed(Interpreted(records)) <==>
            forall i :: 0 <= i < |records| && records[i].Record? ==> !IsBlank(records[i].id)
  {
    hide IsBlank;
    if records != [] {
      NamedIff(records[1..]);
      var rest := Interpreted(records[1..]);
      if records[0].Record? {
        var items := Interpreted(records);
        assert items == [records[0].Interpret()] + rest;
        assert forall k :: 0 <= k < |rest| ==> items[k + 1] == rest[k];
        assert AllNamed(items) <==> !IsBlank(items[0].id) && AllNamed(rest);
      } else {
        assert Interpreted(records) == rest;
      }
      assert forall i :: 0 < i < |records| ==> records[i] == records[1..][i - 1];
    }
  }

  /** What the parse makes of each raw record: the record itself, in order, under the identity
      of its id, its version and the epoch the ledger then assigns, and a completeness finding
      behind it. Nothing else is emitted. */
  lemma EveryRecordIsObserved(repo: string, records: seq<Record>, previous: Option<Checkpoint>, i: nat)
    requires Normalize(repo, Records(records), previous).Ok?
    requires i < |records| && records[i].Record?
    ensures var parsed, k := Normalize(repo, Records(records), previous).value, CountInterpretable(records[..i]);
            && |parsed.events| == 2 * CountInterpretable(records)
            && 2 * k + 1 < |parsed.events|
            && var e := parsed.events[2 * k];
               && e.payload.WorkItemSnapshot? && e.payload.snapshot.repo == repo
               && Shows(e.payload.snapshot.item, records[i])
               && e.payload.snapshot.version == ContentVersion(repo, e.payload.snapshot.item.(id := records[i].id))
               && e.identity.SnapshotOf? && e.identity.repo == repo && e.identity.itemId == Trim(records[i].id)
               && e.identity.version == e.payload.snapshot.version
               && parsed.events[2 * k + 1].payload == CompletenessFinding
               && parsed.events[2 * k + 1].identity == CompletenessOf(repo, e.payload.snapshot.version)
  {
    hide IsBlank, Trim, EventsOf, RecordedAll, Interpreted, ContentVersion, Shows, Recorded, ItemEpoch;
    var items, ledger := Interpreted(records), LedgerFrom(previous);
    InterpretedAreCounted(records);
    RecordsItem(records, i);
    EventsOfItem(repo, items, ledger, CountInterpretable(records[..i]));
    InterpretedShows(records[i]);
    assert Stored(records[i].Interpret()).(id := records[i].id) == records[i].Interpret();
  }
}
