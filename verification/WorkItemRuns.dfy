/** The laws of the orchestrator source over whole runs: what the ledger remembers, what the
    lane board shows, and when a poll changes nothing. */
module WorkItemRuns {
  import opened Text
  import opened WorkItems
  import opened EventLog
  import opened Checkpoints
  import opened SourcePolling
  import opened Orchestrator
  import AvailabilityRuns
  import opened ItemRuns

  type World = AvailabilityRuns.World

  datatype Step =
    | Turn(probe: Probe, listing: Listing, lost: set<nat>, saved: bool)
    | Elsewhere(event: Event, refused: bool)
  {
    /** The same step as the generic adapter takes it. */
    function Of(repo: string): AvailabilityRuns.Step {
      match this
      case Turn(probe, listing, lost, saved) =>
        AvailabilityRuns.Turn(probe, NormalizerOf(repo, listing), lost, saved)
      case Elsewhere(event, refused) => AvailabilityRuns.Elsewhere(event, refused)
    }
  }

  function After(repo: string, w: World, step: Step): World {
    AvailabilityRuns.After(Source(repo), w, step.Of(repo))
  }

  function Run(repo: string, w: World, steps: seq<Step>): World {
    if steps == [] then w
    else After(repo, Run(repo, w, steps[..|steps| - 1]), steps[|steps| - 1])
  }

  /** The work-items a turn brings, none unless the turn is data-bearing. */
  function TurnItems(step: Step): seq<WorkItem> {
    if step.Turn? && step.probe.Reached? && step.probe.success && !step.probe.idlePayload
       && step.listing.Records? && AllNamed(Interpreted(step.listing.records))
    then Interpreted(step.listing.records)
    else []
  }

  predicate Readable(w: World) {
    Requested(w.checkpoint).Ok?
  }

  // ----- What one turn does ------------------------------------------------

  lemma NormalizedItems(repo: string, step: Step, previous: Option<Checkpoint>)
    requires step.Turn? && step.probe.Reached? && step.probe.success && !step.probe.idlePayload
    ensures var r, items := Normalize(repo, step.listing, previous), TurnItems(step);
            && (r.Ok? ==> r.value == Parsed(LedgerCheckpoint(RecordedAll(repo, items, LedgerFrom(previous))),
                                            EventsOf(repo, items, LedgerFrom(previous)), false))
            && (r.Err? ==> items == [])
  {
    hide AllNamed, RecordedAll, EventsOf, Interpreted;
    NoRecordsNoItems();
  }

  lemma NoRecordsNoItems()
    ensures Interpreted([]) == []
  {
  }

  /** A turn offers its items' events and then one marker, and leaves behind the ledger that
      its items were recorded in. */
  lemma TurnShape(repo: string, w: World, step: Step)
    returns (marker: Event)
    requires step.Turn? && Readable(w)
    ensures var items, ledger := TurnItems(step), RecoveredLedger(w.checkpoint);
            var poll := AvailabilityRuns.PollOf(Source(repo), w, step.Of(repo));
            && poll.events == EventsOf(repo, items, ledger) + [marker]
            && RecoveredLedger(Some(poll.checkpoint)) == RecordedAll(repo, items, ledger)
            && poll.checkpoint.Envelope?
    ensures OwnRow(repo, marker) && !marker.payload.WorkItemSnapshot?
  {
    hide RecordedAll, EventsOf, Interpreted, OwnRow, NotObservedEvent, ObservedEvent, TransitionEpoch;
    var a, previous := Source(repo), Requested(w.checkpoint).value;
    var normalize := NormalizerOf(repo, step.listing);
    var items, ledger := TurnItems(step), RecoveredLedger(w.checkpoint);
    var poll := Poll(a, previous, step.probe, normalize);
    assert LedgerFrom(SourceCheckpoint(previous)) == ledger;
    NothingToRecord(repo, ledger);
    if AvailabilityRuns.Reported(step.probe, normalize, previous) == NotObserved {
      var reason := AvailabilityRuns.FailureReason(step.probe, normalize, previous);
      AvailabilityRuns.FailureIsReported(a, previous, step.probe, normalize);
      marker := NotObservedEvent(a, reason, TransitionEpoch(previous, NotObserved));
      NotObservedIsOwn(repo, reason, TransitionEpoch(previous, NotObserved));
      CarryingKeepsTheLedger(previous, NotObserved, NOT_OBSERVED_CHECKPOINT);
    } else {
      marker := ObservedEvent(a, TransitionEpoch(previous, Observed));
      ObservedIsOwn(repo, TransitionEpoch(previous, Observed));
      CarryingKeepsTheLedger(previous, Observed, OBSERVED_IDLE_CHECKPOINT);
    }
    if step.probe.Reached? && step.probe.success && !step.probe.idlePayload {
      NormalizedItems(repo, step, SourceCheckpoint(previous));
      EventsAreTwoPerItem(repo, items, ledger);
    }
  }

  lemma NothingToRecord(repo: string, ledger: Ledger)
    ensures RecordedAll(repo, [], ledger) == ledger && EventsOf(repo, [], ledger) == []
  {
  }

  lemma ObservedIsOwn(repo: string, epoch: nat)
    ensures var e := ObservedEvent(Source(repo), epoch); OwnRow(repo, e) && !e.payload.WorkItemSnapshot?
  {
  }

  lemma NotObservedIsOwn(repo: string, reason: string, epoch: nat)
    ensures var e := NotObservedEvent(Source(repo), reason, epoch); OwnRow(repo, e) && !e.payload.WorkItemSnapshot?
  {
    hide AvailabilityRuns.Fnv.Cause;
    AvailabilityRuns.Fnv.CauseIsTheHash(reason, reason);
  }

  // ----- The ledger is the fold of what was read ---------------------------

  /** The work-items of the data-bearing turns whose checkpoint was saved, in order. */
  function RememberedItems(steps: seq<Step>): seq<WorkItem> {
    if steps == [] then []
    else
      var last := steps[|steps| - 1];
      RememberedItems(steps[..|steps| - 1]) + if last.Turn? && last.saved then TurnItems(last) else []
  }

  lemma {:induction false} RecordedAllSplits(repo: string, a: seq<WorkItem>, b: seq<WorkItem>, ledger: Ledger)
    ensures RecordedAll(repo, a + b, ledger) == RecordedAll(repo, b, RecordedAll(repo, a, ledger))
    decreases a
  {
    hide Recorded;
    if a == [] {
      assert a + b == b;
    } else {
      RecordedAllSplits(repo, a[1..], b, Recorded(repo, a[0], ledger));
      assert (a + b)[1..] == a[1..] + b;
    }
  }

  lemma TurnLedger(repo: string, w: World, step: Step)
    requires Readable(w)
    ensures Readable(After(repo, w, step))
    ensures RecoveredLedger(After(repo, w, step).checkpoint)
            == if step.Turn? && step.saved
               then RecordedAll(repo, TurnItems(step), RecoveredLedger(w.checkpoint))
               else RecoveredLedger(w.checkpoint)
  {
    hide RecordedAll, EventsOf, Poll, OwnRow, AppendAll, TurnItems, Append, RecoveredLedger;
    if step.Turn? {
      var _ := TurnShape(repo, w, step);
    }
  }

  /** Through outages, idle polls, lost appends and failed saves alike, the ledger in the
      checkpoint is the fold of the data-bearing turns that were saved, and of nothing else. */
  lemma {:induction false} LedgerIsTheFold(repo: string, w: World, steps: seq<Step>)
    requires Readable(w)
    ensures Readable(Run(repo, w, steps))
    ensures RecoveredLedger(Run(repo, w, steps).checkpoint)
            == RecordedAll(repo, RememberedItems(steps), RecoveredLedger(w.checkpoint))
  {
    hide RecordedAll, TurnItems, After, RecoveredLedger, Readable;
    if steps == [] {
      NothingToRecord(repo, RecoveredLedger(w.checkpoint));
    } else {
      var n := |steps| - 1;
      LedgerIsTheFold(repo, w, steps[..n]);
      var before := Run(repo, w, steps[..n]);
      TurnLedger(repo, before, steps[n]);
      var items := if steps[n].Turn? && steps[n].saved then TurnItems(steps[n]) else [];
      NothingToRecord(repo, RecoveredLedger(before.checkpoint));
      RecordedAllSplits(repo, RememberedItems(steps[..n]), items, RecoveredLedger(w.checkpoint));
    }
  }

  // ----- Epochs count changes ----------------------------------------------

  /** The versions one item was read at, in order. */
  function Versions(repo: string, items: seq<WorkItem>, id: string): seq<nat> {
    if items == [] then []
    else
      var last := items[|items| - 1];
      Versions(repo, items[..|items| - 1], id) + if last.id == id then [ContentVersion(repo, last)] else []
  }

  function Changes(versions: seq<nat>): nat {
    if |versions| < 2 then 0
    else
      var n := |versions| - 1;
      Changes(versions[..n]) + if versions[n] != versions[n - 1] then 1 else 0
  }

  function AtMostU64(n: nat): nat {
    if n < U64_MAX then n else U64_MAX
  }

  lemma {:induction false} EpochsCountChanges(repo: string, items: seq<WorkItem>, id: string)
    ensures var ledger, versions := RecordedAll(repo, items, map[]), Versions(repo, items, id);
            && (id in ledger <==> versions != [])
            && (versions != [] ==>
                  ledger[id] == Seen(versions[|versions| - 1], AtMostU64(1 + Changes(versions))))
    decreases |items|
  {
    hide ContentVersion;
    if items != [] {
      var n := |items| - 1;
      EpochsCountChanges(repo, items[..n], id);
      var before, last := RecordedAll(repo, items[..n], map[]), items[n];
      assert items == items[..n] + [last];
      RecordedAllSplits(repo, items[..n], [last], map[]);
      RecordOne(repo, last, before);
      if last.id == id {
        var earlier, version := Versions(repo, items[..n], id), ContentVersion(repo, last);
        OneMoreVersion(earlier, version);
        assert Versions(repo, items, id) == earlier + [version];
      } else {
        assert Versions(repo, items, id) == Versions(repo, items[..n], id);
      }
    }
  }

  lemma RecordOne(repo: string, item: WorkItem, ledger: Ledger)
    ensures RecordedAll(repo, [item], ledger) == Recorded(repo, item, ledger)
  {
    hide Recorded;
    assert [item][1..] == [];
    NothingToRecord(repo, Recorded(repo, item, ledger));
  }

  lemma OneMoreVersion(versions: seq<nat>, version: nat)
    ensures Changes(versions + [version])
            == Changes(versions) + if versions != [] && versions[|versions| - 1] != version then 1 else 0
  {
    assert (versions + [version])[..|versions|] == versions;
  }

  /** From a cold start, an item's epoch is one plus the number of times its content was seen
      to change, whatever happened in between. */
  lemma EpochIsOnePlusChanges(repo: string, rows: seq<Event>, steps: seq<Step>, id: string)
    ensures var ledger := RecoveredLedger(Run(repo, AvailabilityRuns.World(rows, None), steps).checkpoint);
            var versions := Versions(repo, RememberedItems(steps), id);
            && (id in ledger <==> versions != [])
            && (versions != [] ==>
                  ledger[id] == Seen(versions[|versions| - 1], AtMostU64(1 + Changes(versions))))
  {
    hide RecordedAll, Versions, Changes, TurnItems, After;
    var w := AvailabilityRuns.World(rows, None);
    LedgerIsTheFold(repo, w, steps);
    EpochsCountChanges(repo, RememberedItems(steps), id);
  }
}
