/** The availability of the needs-attention source. It keeps no checkpoint: a marker is
    written only when the state changes, at an epoch counted from the log itself. */
module AttentionHealth {
  import opened Text
  import opened EventLog
  import opened Identities
  import opened SourcePolling
  import opened AttentionStream
  import opened AttentionIngest
  import opened Ordering
  import Attention
  import AvailabilityRuns
  import SourceHealth

  datatype Read = Items(items: seq<Attention.Item>) | Unavailable(reason: string)

  function Source(repo: string): Adapter {
    Adapter(AttentionStream.NAME, None, repo)
  }

  /** Which availability marker of this source an event is, if it is one. */
  function MarkerState(e: Event): Option<Availability> {
    if e.source != AttentionStream.NAME then None
    else if e.payload.NotObservedFinding? then Some(NotObserved)
    else if e.payload.ObservedIdle? then Some(Observed)
    else None
  }

  function LastMarker(rows: seq<Event>): Option<Availability> {
    if rows == [] then None
    else if MarkerState(rows[|rows| - 1]).Some? then MarkerState(rows[|rows| - 1])
    else LastMarker(rows[..|rows| - 1])
  }

  function MarkerCount(rows: seq<Event>): nat {
    if rows == [] then 0
    else MarkerCount(rows[..|rows| - 1]) + if MarkerState(rows[|rows| - 1]).Some? then 1 else 0
  }

  /** The marker a read calls for, if any. */
  function MarkerFor(repo: string, rows: seq<Event>, read: Read): Option<Event> {
    match read
    case Items(_) =>
      if LastMarker(rows) == Some(NotObserved) then Some(ObservedEvent(Source(repo), MarkerCount(rows) + 1)) else None
    case Unavailable(reason) =>
      if LastMarker(rows) == Some(NotObserved) then None
      else Some(NotObservedEvent(Source(repo), reason, MarkerCount(rows) + 1))
  }

  /** The log once the marker was offered, or nothing if the store failed. */
  function Marked(repo: string, rows: seq<Event>, read: Read): Option<seq<Event>> {
    match MarkerFor(repo, rows, read)
    case None => Some(rows)
    case Some(marker) =>
      if AppendOutcome(rows, marker, false) == Failed then None else Some(Append(rows, marker, false))
  }

  /** `ingest_needs_attention`: a failed read resolves nothing. */
  function AfterRead(repo: string, rows: seq<Event>, read: Read, observedAt: string): Progress {
    match Marked(repo, rows, read)
    case None => Progress(rows, 0, StoreFailed)
    case Some(marked) =>
      if read.Unavailable? then Progress(marked, 0, Fine)
      else Ingested(repo, marked, read.items, observedAt)
  }

  method CountMarkers(rows: seq<Event>) returns (last: Option<Availability>, count: nat)
    ensures last == LastMarker(rows) && count == MarkerCount(rows)
  {
    last, count := None, 0;
    for i := 0 to |rows|
      invariant last == LastMarker(rows[..i]) && count == MarkerCount(rows[..i])
    {
      assert rows[..i + 1][..i] == rows[..i];
      var state := MarkerState(rows[i]);
      if state.Some? {
        last, count := state, count + 1;
      }
    }
    assert rows[..|rows|] == rows;
  }

  method IngestNeedsAttention(log: EventStore, repo: string, read: Read, observedAt: string)
    returns (inserted: nat, status: Status)
    modifies log
    ensures Progress(log.rows, inserted, status) == AfterRead(repo, old(log.rows), read, observedAt)
  {
    hide AppendOutcome, Ingested, LastMarker, MarkerCount, NotObservedEvent, ObservedEvent;
    var last, count := CountMarkers(log.rows);
    inserted, status := 0, Fine;
    var outcome := Inserted;
    if read.Unavailable? && last != Some(NotObserved) {
      outcome := log.AppendEvent(NotObservedEvent(Source(repo), read.reason, count + 1), false);
    } else if read.Items? && last == Some(NotObserved) {
      outcome := log.AppendEvent(ObservedEvent(Source(repo), count + 1), false);
    }
    if outcome == Failed {
      status := StoreFailed;
    } else if read.Items? {
      inserted, status := IngestSnapshot(log, repo, read.items, observedAt);
    }
  }

  // ----- The law -----------------------------------------------------------

  /** Rows of this source are its markers, none counted past the log's own count, or changes
      of the inbox. */
  ghost predicate KnownRow(repo: string, row: Event, count: nat) {
    row.source == AttentionStream.NAME ==>
      if MarkerState(row).Some? then
        AvailabilityRuns.IsMarkerEvent(Source(repo), row) && row.identity.epoch <= count
      else
        row.payload.Health().None? && AvailabilityRuns.IsData(Source(repo), row)
  }

  ghost predicate Counted(repo: string, rows: seq<Event>) {
    forall i :: 0 <= i < |rows| ==> KnownRow(repo, rows[i], MarkerCount(rows))
  }

  lemma OneMoreRow(rows: seq<Event>, e: Event)
    ensures LastMarker(rows + [e]) == if MarkerState(e).Some? then MarkerState(e) else LastMarker(rows)
    ensures MarkerCount(rows + [e]) == MarkerCount(rows) + if MarkerState(e).Some? then 1 else 0
  {
    assert (rows + [e])[..|rows|] == rows;
  }

  lemma CountedOneMore(repo: string, rows: seq<Event>, e: Event)
    requires Counted(repo, rows) && KnownRow(repo, e, MarkerCount(rows + [e]))
    ensures Counted(repo, rows + [e])
  {
    hide AvailabilityRuns.IsMarkerEvent, AvailabilityRuns.IsData, MarkerCount, MarkerState;
    OneMoreRow(rows, e);
    forall i | 0 <= i < |rows + [e]| ensures KnownRow(repo, (rows + [e])[i], MarkerCount(rows + [e])) {
      if i < |rows| {
        assert KnownRow(repo, rows[i], MarkerCount(rows));
      }
    }
  }

  /** In such a log the tally and the last marker agree. */
  lemma {:induction false} TallyIsTheLastMarker(repo: string, rows: seq<Event>, count: nat)
    requires forall i :: 0 <= i < |rows| ==> KnownRow(repo, rows[i], count)
    ensures NewestHealth(rows, AttentionStream.NAME) == LastMarker(rows)
  {
    hide AvailabilityRuns.IsData, IsMarker;
    if rows != [] {
      var last := rows[|rows| - 1];
      assert KnownRow(repo, last, count);
      TallyIsTheLastMarker(repo, rows[..|rows| - 1], count);
    }
  }

  /** A marker at an epoch past the count is never a duplicate. */
  lemma NewMarkerLands(repo: string, rows: seq<Event>, e: Event)
    requires Counted(repo, rows) && AvailabilityRuns.IsMarkerEvent(Source(repo), e)
    requires MarkerState(e) == e.payload.Health() && e.identity.epoch == MarkerCount(rows) + 1
    requires AppendOutcome(rows, e, false) != Failed
    ensures Append(rows, e, false) == rows + [e]
    ensures Counted(repo, rows + [e]) && LastMarker(rows + [e]) == e.payload.Health()
  {
    hide Identity.SourceEventId, Identity.EventId, IsMarker, MarkerCount, LastMarker;
    OneMoreRow(rows, e);
    CountedOneMore(repo, rows, e);
    if AppendOutcome(rows, e, false) == Duplicate {
      var i :| 0 <= i < |rows| && rows[i].IsTheRowOf(e);
      assert KnownRow(repo, rows[i], MarkerCount(rows));
      MarkerTextIsItsOwn(repo, rows[i], e);
    }
  }

  lemma MarkerTextIsItsOwn(repo: string, row: Event, e: Event)
    requires AvailabilityRuns.IsMarkerEvent(Source(repo), e) && row.IsTheRowOf(e)
    ensures row.source == AttentionStream.NAME && !AvailabilityRuns.IsData(Source(repo), row)
    ensures AvailabilityRuns.IsMarkerEvent(Source(repo), row) ==> row.identity == e.identity
  {
    hide Identity.SourceEventId, Identity.EventId, IsMarker;
    AvailabilityRuns.MarkersHaveText(e.identity, Source(repo));
    if AvailabilityRuns.IsMarkerEvent(Source(repo), row) {
      MarkersAreDistinct(row.identity, e.identity, AttentionStream.NAME, repo);
    }
  }

  lemma MarkersAreSeen(repo: string, reason: string, epoch: nat)
    ensures MarkerState(ObservedEvent(Source(repo), epoch)) == Some(Observed)
    ensures MarkerState(NotObservedEvent(Source(repo), reason, epoch)) == Some(NotObserved)
  {
  }

  lemma MarkerForIs(repo: string, rows: seq<Event>, read: Read)
    requires MarkerFor(repo, rows, read).Some?
    ensures var e := MarkerFor(repo, rows, read).value;
            && AvailabilityRuns.IsMarkerEvent(Source(repo), e) && e.identity.epoch == MarkerCount(rows) + 1
            && MarkerState(e) == e.payload.Health() == Some(if read.Unavailable? then NotObserved else Observed)
  {
    hide LastMarker, MarkerCount, AvailabilityRuns.IsMarkerEvent, ObservedEvent, NotObservedEvent, MarkerState, Payload.Health,
         Source;
    var epoch := MarkerCount(rows) + 1;
    if read.Unavailable? {
      AvailabilityRuns.NotObservedIsAMarker(Source(repo), read.reason, epoch);
      MarkersAreSeen(repo, read.reason, epoch);
    } else {
      AvailabilityRuns.ObservedIsAMarker(Source(repo), epoch);
      MarkersAreSeen(repo, "", epoch);
    }
  }

  /** On a counted log a read writes a marker exactly when it contradicts the tally, and a failed
      read's marker gives its reason. */
  lemma MarkerIff(repo: string, rows: seq<Event>, read: Read)
    requires Counted(repo, rows)
    ensures var marker, down := MarkerFor(repo, rows, read), NewestHealth(rows, AttentionStream.NAME) == Some(NotObserved);
            && (marker.Some? <==> down != read.Unavailable?)
            && (marker.Some? && read.Unavailable? ==> marker.value.payload == NotObservedFinding(read.reason))
            && (marker.Some? && read.Items? ==> marker.value.payload == ObservedIdle)
  {
    hide LastMarker, MarkerCount, Counted, NewestHealth;
    TallyOfCounted(repo, rows);
  }

  lemma NoMarkerFor(repo: string, rows: seq<Event>, read: Read)
    requires MarkerFor(repo, rows, read).None?
    ensures LastMarker(rows) == Some(NotObserved) <==> read.Unavailable?
  {
    hide LastMarker, MarkerCount;
  }

  lemma MarkedIsCounted(repo: string, rows: seq<Event>, read: Read)
    requires Counted(repo, rows) && Marked(repo, rows, read).Some?
    ensures var marked := Marked(repo, rows, read).value;
            Counted(repo, marked) && (LastMarker(marked) == Some(NotObserved) <==> read.Unavailable?)
  {
    hide LastMarker, MarkerCount, Counted, AppendOutcome, Append, AvailabilityRuns.IsMarkerEvent, MarkerFor, MarkerState,
         Payload.Health;
    var marker := MarkerFor(repo, rows, read);
    if marker.Some? {
      MarkerForIs(repo, rows, read);
      NewMarkerLands(repo, rows, marker.value);
    } else {
      NoMarkerFor(repo, rows, read);
    }
  }

  // ----- The inbox says nothing of availability ----------------------------

  ghost predicate SaysNothing(repo: string, e: Event) {
    && e.source == AttentionStream.NAME && e.payload.Health().None?
    && AvailabilityRuns.IsData(Source(repo), e)
  }

  lemma NothingSaidNothingChanged(repo: string, rows: seq<Event>, e: Event)
    requires Counted(repo, rows) && SaysNothing(repo, e)
    ensures Counted(repo, rows + [e]) && LastMarker(rows + [e]) == LastMarker(rows)
  {
    hide AvailabilityRuns.IsData, AvailabilityRuns.IsMarkerEvent, MarkerCount, LastMarker;
    OneMoreRow(rows, e);
    CountedOneMore(repo, rows, e);
  }

  lemma {:induction false} OffersSayNothing(repo: string, p: Progress, events: seq<Event>, observedAt: string)
    requires Counted(repo, p.rows)
    requires forall i :: 0 <= i < |events| ==>
      SaysNothing(repo, events[i]) && SaysNothing(repo, Disambiguated(events[i], observedAt))
    ensures var after := OfferAll(p, events, observedAt).rows;
            Counted(repo, after) && LastMarker(after) == LastMarker(p.rows)
  {
    hide Counted, SaysNothing, LastMarker, AppendOutcome, Disambiguated;
    if events != [] {
      var n := |events| - 1;
      OffersSayNothing(repo, p, events[..n], observedAt);
      var before := OfferAll(p, events[..n], observedAt);
      NothingSaidNothingChanged(repo, before.rows, events[n]);
      NothingSaidNothingChanged(repo, before.rows, Disambiguated(events[n], observedAt));
    }
  }

  /** No tag of an inbox identity is a number, so none reads as a marker. */
  lemma InboxTextIsNoMarker(repo: string, id: string, tag: string, version: nat, change: Attention.Change)
    requires tag != "" && !('0' <= tag[0] <= '9')
    ensures SaysNothing(repo, StreamEvent(IdentityText(repo, id, tag, version), change))
  {
    hide AvailabilityRuns.IsData, SourceHealth.NoMarkerEndsLike;
    var a, tail := Source(repo), SourceHealth.DispatchTail(id, tag, version);
    assert IdentityText(repo, id, tag, version) == a.Name() + ":" + a.repo + ":" + tail;
    forall epoch ensures !SourceHealth.ReadsAsAMarker(id, tag, version, epoch) {
      DecimalReadsBack(epoch);
    }
    SourceHealth.DispatchTailIsDataIff(a, id, tag, version);
    SourceHealth.RecordIsDataIff(a, tail, AttentionChange(change));
  }

  lemma DisambiguatedSaysNothing(repo: string, id: string, tag: string, version: nat, change: Attention.Change, t: string)
    ensures SaysNothing(repo, Disambiguated(StreamEvent(IdentityText(repo, id, tag, version), change), t))
  {
    hide SaysNothing, AttentionIngest.Fnv.StreamSeq, IdentityText;
    var text := IdentityText(repo, id, tag, version);
    var again := AttentionIngest.Fnv.StreamSeq([text, t]);
    DisambiguatedText(repo, id, tag, version, again);
    InboxTextIsNoMarker(repo, id + ":" + tag + ":" + Decimal(version), "disambiguated", again, change);
  }

  lemma {:induction false} ChangesSayNothing(
      repo: string, prior: Inbox, next: Inbox, ids: seq<string>, observedAt: string)
    ensures forall i :: 0 <= i < |Upserts(repo, prior, next, ids)| ==>
      var e := Upserts(repo, prior, next, ids)[i]; SaysNothing(repo, e) && SaysNothing(repo, Disambiguated(e, observedAt))
    ensures forall i :: 0 <= i < |Retires(repo, prior, next, ids)| ==>
      var e := Retires(repo, prior, next, ids)[i]; SaysNothing(repo, e) && SaysNothing(repo, Disambiguated(e, observedAt))
  {
    hide SaysNothing, Disambiguated, AppearedEvent, ChangedEvent, ResolvedEvent;
    if ids != [] {
      var n := |ids| - 1;
      ChangesSayNothing(repo, prior, next, ids[..n], observedAt);
      OneChangeSaysNothing(repo, prior, next, ids[n], observedAt);
    }
  }

  lemma OneChangeSaysNothing(repo: string, prior: Inbox, next: Inbox, id: string, observedAt: string)
    ensures forall e :: e in Upsert(repo, prior, next, id) + Retire(repo, prior, next, id) ==>
      SaysNothing(repo, e) && SaysNothing(repo, Disambiguated(e, observedAt))
  {
    hide SaysNothing, Disambiguated, IdentityText, Attention.ItemVersion, ResolvedVersion;
    if id in next {
      var item := next[id];
      InboxTextIsNoMarker(repo, item.id, "appeared", Attention.ItemVersion(repo, item), Attention.Appeared(item));
      InboxTextIsNoMarker(repo, item.id, "changed", Attention.ItemVersion(repo, item), Attention.Changed(item));
      DisambiguatedSaysNothing(repo, item.id, "appeared", Attention.ItemVersion(repo, item), Attention.Appeared(item),
                               observedAt);
      DisambiguatedSaysNothing(repo, item.id, "changed", Attention.ItemVersion(repo, item), Attention.Changed(item),
                               observedAt);
    } else if id in prior {
      var item := prior[id];
      InboxTextIsNoMarker(repo, item.id, "resolved", ResolvedVersion(repo, item), Attention.Resolved(item.id));
      DisambiguatedSaysNothing(repo, item.id, "resolved", ResolvedVersion(repo, item), Attention.Resolved(item.id), observedAt);
    }
  }

  lemma DiffSaysNothing(repo: string, prior: Inbox, next: Inbox, observedAt: string)
    ensures forall i :: 0 <= i < |Diff(repo, prior, next)| ==>
      var e := Diff(repo, prior, next)[i]; SaysNothing(repo, e) && SaysNothing(repo, Disambiguated(e, observedAt))
  {
    hide SaysNothing, Disambiguated, Upserts, Retires, InOrder;
    ChangesSayNothing(repo, prior, next, InOrder(next.Keys), observedAt);
    ChangesSayNothing(repo, prior, next, InOrder(prior.Keys), observedAt);
  }

  /** After every ingest that got past its marker, even one that then stopped on a failed or
      collided change, the source counts as unavailable exactly when it could not be read. */
  lemma OneReadIsReported(repo: string, rows: seq<Event>, read: Read, observedAt: string)
    requires Counted(repo, rows) && Marked(repo, rows, read).Some?
    ensures var after := AfterRead(repo, rows, read, observedAt).rows;
            && Counted(repo, after)
            && (NewestHealth(after, AttentionStream.NAME) == Some(NotObserved) <==> read.Unavailable?)
  {
    hide Counted, Marked, Diff, OfferAll, SaysNothing, Disambiguated, LastMarker, NewestHealth;
    MarkedIsCounted(repo, rows, read);
    var marked := Marked(repo, rows, read).value;
    if read.Items? {
      DiffSaysNothing(repo, Prior(repo, marked), AttentionStream.ById(read.items), observedAt);
      OffersSayNothing(repo, Progress(marked, 0, Fine),
                       Diff(repo, Prior(repo, marked), AttentionStream.ById(read.items)), observedAt);
    }
    TallyOfCounted(repo, AfterRead(repo, rows, read, observedAt).rows);
  }

  lemma TallyOfCounted(repo: string, rows: seq<Event>)
    requires Counted(repo, rows)
    ensures NewestHealth(rows, AttentionStream.NAME) == LastMarker(rows)
  {
    TallyIsTheLastMarker(repo, rows, MarkerCount(rows));
  }

  // ----- Whole runs --------------------------------------------------------

  datatype Step = Ingest(read: Read, observedAt: string) | Elsewhere(event: Event, refused: bool)

  function After(repo: string, rows: seq<Event>, step: Step): seq<Event> {
    match step
    case Ingest(read, observedAt) => AfterRead(repo, rows, read, observedAt).rows
    case Elsewhere(event, refused) => Append(rows, event, refused)
  }

  function Run(repo: string, rows: seq<Event>, steps: seq<Step>): seq<Event> {
    if steps == [] then rows
    else After(repo, Run(repo, rows, steps[..|steps| - 1]), steps[|steps| - 1])
  }

  predicate Foreign(step: Step) {
    step.Elsewhere? ==> step.event.source != AttentionStream.NAME
  }

  lemma StepStaysCounted(repo: string, rows: seq<Event>, step: Step)
    requires Counted(repo, rows) && Foreign(step)
    ensures Counted(repo, After(repo, rows, step))
  {
    hide Counted, Marked, AppendOutcome, NewestHealth, Ingested;
    match step
    case Ingest(read, observedAt) =>
      if Marked(repo, rows, read).Some? {
        OneReadIsReported(repo, rows, read, observedAt);
      }
    case Elsewhere(event, refused) =>
      CountedOneMore(repo, rows, event);
  }

  lemma {:induction false} RunStaysCounted(repo: string, rows: seq<Event>, steps: seq<Step>)
    requires Counted(repo, rows) && forall k :: 0 <= k < |steps| ==> Foreign(steps[k])
    ensures Counted(repo, Run(repo, rows, steps))
  {
    hide Counted, After, Foreign;
    if steps != [] {
      RunStaysCounted(repo, rows, steps[..|steps| - 1]);
      StepStaysCounted(repo, Run(repo, rows, steps[..|steps| - 1]), steps[|steps| - 1]);
    }
  }

  /** In any run from a log without rows of this source, after any ingest whose marker the
      store did not fail, the tally calls the source unavailable exactly when that read
      failed. No checkpoint is involved, so no failed save can upset it. */
  lemma AvailabilityFollowsTheLastRead(repo: string, rows: seq<Event>, steps: seq<Step>, k: nat)
    requires forall i :: 0 <= i < |rows| ==> rows[i].source != AttentionStream.NAME
    requires forall i :: 0 <= i < |steps| ==> Foreign(steps[i])
    requires k < |steps| && steps[k].Ingest?
    requires Marked(repo, Run(repo, rows, steps[..k]), steps[k].read).Some?
    ensures NewestHealth(Run(repo, rows, steps[..k + 1]), AttentionStream.NAME) == Some(NotObserved)
            <==> steps[k].read.Unavailable?
  {
    hide Marked, AfterRead, NewestHealth;
    RunStaysCounted(repo, rows, steps[..k]);
    assert steps[..k + 1][..k] == steps[..k];
    OneReadIsReported(repo, Run(repo, rows, steps[..k]), steps[k].read, steps[k].observedAt);
  }
}
