/** Which sources' records can never be mistaken for an availability marker, so that the
    availability law holds for them. */
module SourceHealth {
  import opened Text
  import opened WorkItems
  import opened EventLog
  import opened Identities
  import opened Checkpoints
  import opened SourcePolling
  import opened Orchestrator
  import opened ItemRuns
  import AvailabilityRuns
  import WorkItemRuns

  // ----- The orchestrator --------------------------------------------------

  /** Whatever ids and repositories look like, the orchestrator's normalizer emits data. */
  lemma OrchestratorEmitsData(repo: string, listing: Listing)
    ensures AvailabilityRuns.EmitsData(Source(repo), NormalizerOf(repo, listing))
  {
    hide AvailabilityRuns.IsData, EventsOf, Interpreted, AllNamed, LedgerFrom;
    var a, normalize := Source(repo), NormalizerOf(repo, listing);
    forall previous: Option<Checkpoint> | normalize(previous).Ok?
      ensures forall i :: 0 <= i < |normalize(previous).value.events| ==>
        AvailabilityRuns.IsData(a, a.Attributed(normalize(previous).value.events)[i])
    {
      if listing.Records? {
        EventsAreData(repo, Interpreted(listing.records), LedgerFrom(previous));
      }
    }
  }

  lemma {:induction false} EventsAreData(repo: string, items: seq<WorkItem>, ledger: Ledger)
    ensures forall i :: 0 <= i < |EventsOf(repo, items, ledger)| ==>
      AvailabilityRuns.IsData(Source(repo), EventsOf(repo, items, ledger)[i])
    decreases items
  {
    hide AvailabilityRuns.IsData, ContentVersion, Recorded, ItemEpoch, SnapshotEvent, CompletenessEvent;
    if items != [] {
      SnapshotIsData(repo, items[0], ItemEpoch(repo, items[0], ledger));
      CompletenessIsData(repo, items[0]);
      EventsSplit(repo, items, ledger);
      EventsAreData(repo, items[1..], Recorded(repo, items[0], ledger));
    }
  }

  lemma SnapshotIsData(repo: string, item: WorkItem, epoch: nat)
    ensures AvailabilityRuns.IsData(Source(repo), SnapshotEvent(repo, item, epoch))
  {
    hide ContentVersion, Trim, Identity.SourceEventId;
    OwnIsNoMarker(repo, SnapshotEvent(repo, item, epoch).identity);
  }

  lemma CompletenessIsData(repo: string, item: WorkItem)
    ensures AvailabilityRuns.IsData(Source(repo), CompletenessEvent(repo, item))
  {
    hide ContentVersion, Identity.SourceEventId;
    OwnIsNoMarker(repo, CompletenessEvent(repo, item).identity);
  }

  lemma OwnIsNoMarker(repo: string, id: Identity)
    requires id.SnapshotOf? || id.CompletenessOf?
    requires IsOrchestrators(id, repo)
    ensures forall m: Identity :: IsMarker(m, NAME, repo) ==> m.SourceEventId() != id.SourceEventId()
  {
    hide Identity.SourceEventId;
    forall m: Identity | IsMarker(m, NAME, repo)
      ensures m.SourceEventId() != id.SourceEventId()
    {
      if m.SourceEventId() == id.SourceEventId() {
        OrchestratorsAreDistinct(m, id, repo);
      }
    }
  }

  // ----- Both laws on one run ----------------------------------------------

  function Mapped(repo: string, steps: seq<WorkItemRuns.Step>): (mapped: seq<AvailabilityRuns.Step>)
    ensures |mapped| == |steps|
  {
    if steps == [] then []
    else Mapped(repo, steps[..|steps| - 1]) + [steps[|steps| - 1].Of(repo)]
  }

  /** A run of the orchestrator adapter is a run of the generic adapter. */
  lemma {:induction false} SameRun(repo: string, w: AvailabilityRuns.World, steps: seq<WorkItemRuns.Step>)
    ensures WorkItemRuns.Run(repo, w, steps) == AvailabilityRuns.Run(Source(repo), w, Mapped(repo, steps))
  {
    hide AvailabilityRuns.After;
    if steps != [] {
      var n := |steps| - 1;
      SameRun(repo, w, steps[..n]);
      assert Mapped(repo, steps)[..n] == Mapped(repo, steps[..n]);
    }
  }

  // ----- The other sources -------------------------------------------------

  /** A record of some source: its identity is source, repository and a tail of its own. */
  function RecordEvent(a: Adapter, tail: string, payload: Payload): Event {
    var text := a.Name() + ":" + a.repo + ":" + tail;
    Event(a.Name(), Verbatim("evt:" + text, Some(text)), payload)
  }

  ghost predicate NoMarkerEndsLike(a: Adapter, tail: string) {
    forall m: Identity :: IsMarker(m, a.Name(), a.repo) ==> m.Tail() != tail
  }

  lemma RecordIsDataIff(a: Adapter, tail: string, payload: Payload)
    requires payload.Health() != Some(NotObserved)
    ensures AvailabilityRuns.IsData(a, RecordEvent(a, tail, payload)) <==> NoMarkerEndsLike(a, tail)
  {
    hide IsMarker, Identity.Tail;
    var e := RecordEvent(a, tail, payload);
    forall m: Identity | IsMarker(m, a.Name(), a.repo)
      ensures m.SourceEventId() == e.identity.SourceEventId() <==> m.Tail() == tail
    {
      MarkerText(m, a);
      if m.SourceEventId() == e.identity.SourceEventId() {
        PrefixCancels(a.Name() + ":" + a.repo + ":", m.Tail(), tail);
      }
    }
  }

  lemma MarkerText(m: Identity, a: Adapter)
    requires IsMarker(m, a.Name(), a.repo)
    ensures m.SourceEventId() == Some(a.Name() + ":" + a.repo + ":" + m.Tail())
  {
  }

  lemma MarkersStartWithALetter(m: Identity, source: string, repo: string)
    requires IsMarker(m, source, repo)
    ensures m.Tail() != "" && m.Tail()[0] == if m.ObservedAt? then 'o' else 'n'
  {
  }

  /** Spec, pull-request and reconciler records are data on every input. */
  lemma SpecRecordIsData(a: Adapter, version: nat)
    ensures NoMarkerEndsLike(a, Decimal(version) + ":next")
  {
    DecimalReadsBack(version);
    forall m: Identity | IsMarker(m, a.Name(), a.repo) ensures m.Tail() != Decimal(version) + ":next" {
      MarkersStartWithALetter(m, a.Name(), a.repo);
    }
  }

  lemma PullRequestRecordIsData(a: Adapter, number: nat, version: nat)
    ensures NoMarkerEndsLike(a, "pr:" + Decimal(number) + ":" + Decimal(version))
  {
    forall m: Identity | IsMarker(m, a.Name(), a.repo)
      ensures m.Tail() != "pr:" + Decimal(number) + ":" + Decimal(version)
    {
      MarkersStartWithALetter(m, a.Name(), a.repo);
    }
  }

  lemma ReconcilerRecordIsData(a: Adapter, version: nat)
    ensures NoMarkerEndsLike(a, Decimal(version))
  {
    DecimalReadsBack(version);
    forall m: Identity | IsMarker(m, a.Name(), a.repo) ensures m.Tail() != Decimal(version) {
      MarkersStartWithALetter(m, a.Name(), a.repo);
    }
  }

  function DispatchTail(workItem: string, dispatch: string, version: nat): string {
    workItem + ":" + dispatch + ":" + Decimal(version)
  }

  /** Dispatch and run records carry free text first, and one shape of it reads as a marker:
      a work-item called `not_observed`, a decimal dispatch or run id, and a version of
      sixteen digits. Every other record is data. */
  predicate ReadsAsAMarker(workItem: string, dispatch: string, version: nat, epoch: nat) {
    workItem == "not_observed" && dispatch == Decimal(epoch) && |Decimal(version)| == 16
  }

  lemma DispatchRecordIsDataIff(a: Adapter, workItem: string, dispatch: string, version: nat)
    ensures NoMarkerEndsLike(a, workItem + ":" + dispatch + ":" + Decimal(version))
            <==> forall epoch :: !ReadsAsAMarker(workItem, dispatch, version, epoch)
  {
    hide NoMarkerEndsLike, ReadsAsAMarker, Decimal;
    DispatchTailIsDataIff(a, workItem, dispatch, version);
  }

  lemma DispatchTailIsDataIff(a: Adapter, workItem: string, dispatch: string, version: nat)
    ensures NoMarkerEndsLike(a, DispatchTail(workItem, dispatch, version))
            <==> forall epoch :: !ReadsAsAMarker(workItem, dispatch, version, epoch)
  {
    var tail := DispatchTail(workItem, dispatch, version);
    DecimalReadsBack(version);
    forall m: Identity | IsMarker(m, a.Name(), a.repo) && m.Tail() == tail
      ensures ReadsAsAMarker(workItem, dispatch, version, m.epoch)
    {
      DispatchReadsAs(a, workItem, dispatch, version, m);
    }
    forall epoch | ReadsAsAMarker(workItem, dispatch, version, epoch)
      ensures !NoMarkerEndsLike(a, tail)
    {
      var m := NotObservedAt(a.Name(), a.repo, epoch, Decimal(version));
      assert "not_observed:" == "not_observed" + ":";
      assert m.Tail() == tail;
      assert IsMarker(m, a.Name(), a.repo);
    }
  }

  lemma DispatchReadsAs(a: Adapter, workItem: string, dispatch: string, version: nat, m: Identity)
    requires IsMarker(m, a.Name(), a.repo) && m.Tail() == DispatchTail(workItem, dispatch, version)
    ensures m.NotObservedAt? && ReadsAsAMarker(workItem, dispatch, version, m.epoch)
  {
    if m.ObservedAt? {
      IdleTailIsNoDispatch(m.epoch, workItem, dispatch, version);
    } else {
      NotObservedTail(m.epoch, m.cause, workItem, dispatch, version);
    }
  }

  lemma IdleTailIsNoDispatch(epoch: nat, workItem: string, dispatch: string, version: nat)
    ensures "observed_idle:" + Decimal(epoch) != DispatchTail(workItem, dispatch, version)
  {
    var head := workItem + ":" + dispatch;
    assert head[|workItem|] == ':' && ':' !in "observed_idle";
    DecimalReadsBack(epoch);
    DecimalReadsBack(version);
    if "observed_idle:" + Decimal(epoch) == DispatchTail(workItem, dispatch, version) {
      assert "observed_idle:" == "observed_idle" + ":";
      DigitsBeginAtSeparator("observed_idle", Decimal(epoch), head, Decimal(version));
    }
  }

  lemma NotObservedTail(epoch: nat, cause: string, workItem: string, dispatch: string, version: nat)
    requires AllHex(cause) && |cause| == 16
    requires "not_observed:" + (Decimal(epoch) + ":" + cause) == DispatchTail(workItem, dispatch, version)
    ensures ReadsAsAMarker(workItem, dispatch, version, epoch)
  {
    assert "not_observed:" == "not_observed" + ":" && ':' !in "not_observed";
    ThreeParts("not_observed", epoch, cause, workItem, dispatch, version);
  }

  lemma ThreeParts(word: string, epoch: nat, cause: string, workItem: string, dispatch: string, version: nat)
    requires ':' !in word && ':' !in cause
    requires word + ":" + (Decimal(epoch) + ":" + cause) == DispatchTail(workItem, dispatch, version)
    ensures workItem == word && dispatch == Decimal(epoch) && Decimal(version) == cause
  {
    DecimalReadsBack(epoch);
    DecimalReadsBack(version);
    var head := word + ":" + Decimal(epoch);
    assert word + ":" + (Decimal(epoch) + ":" + cause) == head + ":" + cause;
    LastColon(head, cause, workItem + ":" + dispatch, Decimal(version));
    FirstColon(word, Decimal(epoch), workItem, dispatch);
  }
}
