/** Whole runs of needs-attention ingests: what the rows of the stream are, which items an
    ingest shows as it read them, and that ingests run to their end. */
module AttentionRuns {
  import opened Text
  import opened Encoding
  import opened Fnv
  import opened Ordering
  import opened Attention
  import opened EventLog
  import opened Identities
  import opened AttentionStream
  import opened AttentionIngest
  import opened AttentionInbox
  import opened AttentionHealth
  import AvailabilityRuns

  // ----- What the rows of the stream are -----------------------------------

  predicate IsUpsertRow(repo: string, row: Event) {
    match row.payload
    case AttentionChange(Appeared(x)) => row == AppearedEvent(repo, x)
    case AttentionChange(Changed(x)) => row == ChangedEvent(repo, x)
    case _ => false
  }

  /** A resolution of `x`, or its retry at a time. */
  predicate Resolves(repo: string, row: Event, x: Item, t: Option<string>) {
    row == if t.None? then ResolvedEvent(repo, x) else Disambiguated(ResolvedEvent(repo, x), t.value)
  }

  ghost predicate IsResolutionRow(repo: string, row: Event, times: set<string>) {
    exists x, t :: Resolves(repo, row, x, t) && (t.Some? ==> t.value in times)
  }

  ghost predicate IsMarkerRow(repo: string, row: Event) {
    AvailabilityRuns.IsMarkerEvent(Source(repo), row) && !row.payload.AttentionChange?
  }

  /** Rows of this stream were written by ingests of this repository at these times; no other
      row has an event id of the stream. */
  ghost predicate Own(repo: string, row: Event, times: set<string>) {
    if row.source == NAME then IsUpsertRow(repo, row) || IsResolutionRow(repo, row, times) || IsMarkerRow(repo, row)
    else !("evt:" + NAME + ":" <= row.identity.EventId()) && !row.payload.AttentionChange?
  }

  ghost predicate AllOwn(repo: string, rows: seq<Event>, times: set<string>) {
    forall i :: 0 <= i < |rows| ==> Own(repo, rows[i], times)
  }

  lemma OwnLater(repo: string, row: Event, times: set<string>, more: set<string>)
    requires Own(repo, row, times) && times <= more
    ensures Own(repo, row, more)
  {
    hide Resolves, IsUpsertRow, IsMarkerRow, Identity.EventId;
  }

  /** The names of a row: what its identity text is made of. */
  lemma UpsertRowIsNamed(repo: string, row: Event) returns (x: Item, tag: string)
    requires IsUpsertRow(repo, row)
    ensures row.payload == AttentionChange(if tag == "appeared" then Appeared(x) else Changed(x))
    ensures tag in {"appeared", "changed"} && Named(row, repo, x.id, tag, ItemVersion(repo, x))
  {
    hide IdentityText, ItemVersion;
    match row.payload
    case AttentionChange(Appeared(y)) => x, tag := y, "appeared";
    case AttentionChange(Changed(y)) => x, tag := y, "changed";
  }

  lemma ResolutionRowIsNamed(repo: string, row: Event, x: Item, t: Option<string>)
    returns (id: string, tag: string, version: nat)
    requires Resolves(repo, row, x, t)
    ensures Named(row, repo, id, tag, version) && tag in {"resolved", "disambiguated"}
    ensures row.payload == AttentionChange(Resolved(x.id))
  {
    hide Named, Disambiguated, ItemVersion;
    EventNames(repo, x);
    id, tag, version := x.id, "resolved", ResolvedVersion(repo, x);
    if t.Some? {
      version := RetryIsNamed(ResolvedEvent(repo, x), repo, x.id, "resolved", ResolvedVersion(repo, x), t.value);
      id, tag := Occurrence(x.id, "resolved", ResolvedVersion(repo, x)), "disambiguated";
    }
  }

  // ----- Nothing but its own row blocks an event ---------------------------

  /** An event of the stream whose event id is its source event id behind "evt:". */
  predicate Regular(e: Event) {
    && e.source == NAME && e.identity.SourceEventId().Some?
    && e.identity.EventId() == "evt:" + e.identity.SourceEventId().value
    && NAME + ":" <= e.identity.SourceEventId().value
  }

  lemma NamedIsRegular(e: Event, repo: string, id: string, tag: string, version: nat)
    requires Named(e, repo, id, tag, version)
    ensures Regular(e)
  {
  }

  lemma MarkerIsRegular(repo: string, e: Event)
    requires AvailabilityRuns.IsMarkerEvent(Source(repo), e)
    ensures Regular(e)
  {
  }

  lemma OwnIsRegular(repo: string, row: Event, times: set<string>)
    requires Own(repo, row, times) && row.source == NAME
    ensures Regular(row)
  {
    hide Regular, IsUpsertRow, Resolves, Named, AvailabilityRuns.IsMarkerEvent;
    if IsUpsertRow(repo, row) {
      var x, tag := UpsertRowIsNamed(repo, row);
      NamedIsRegular(row, repo, x.id, tag, ItemVersion(repo, x));
    } else if IsResolutionRow(repo, row, times) {
      var x, t :| Resolves(repo, row, x, t);
      var id, tag, version := ResolutionRowIsNamed(repo, row, x, t);
      NamedIsRegular(row, repo, id, tag, version);
    } else {
      MarkerIsRegular(repo, row);
    }
  }

  lemma RegularBlocks(row: Event, e: Event)
    requires Regular(row) && Regular(e) && row.Blocks(e)
    ensures row.IsTheRowOf(e)
  {
    hide Identity.SourceEventId, Identity.EventId;
    if row.identity.EventId() == e.identity.EventId() {
      PrefixCancels("evt:", row.identity.SourceEventId().value, e.identity.SourceEventId().value);
    }
  }

  lemma OthersDoNotBlock(row: Event, e: Event)
    requires row.source != NAME && !("evt:" + NAME + ":" <= row.identity.EventId()) && Regular(e)
    ensures !row.Blocks(e)
  {
    hide Identity.SourceEventId, Identity.EventId;
    var text := e.identity.SourceEventId().value;
    assert text == NAME + ":" + text[|NAME + ":"|..];
    assert "evt:" + text == "evt:" + NAME + ":" + text[|NAME + ":"|..];
  }

  /** In such a log an event of the stream is blocked by a row of its own identity only. */
  lemma BlockerIsItsRow(repo: string, rows: seq<Event>, times: set<string>, e: Event)
    requires AllOwn(repo, rows, times) && Regular(e)
    ensures HasBlocker(rows, e) ==> HasRowOf(rows, e)
  {
    hide Regular, Event.Blocks, Event.IsTheRowOf, IsUpsertRow, IsResolutionRow, IsMarkerRow, Identity.EventId;
    if HasBlocker(rows, e) {
      var i :| 0 <= i < |rows| && rows[i].Blocks(e);
      assert Own(repo, rows[i], times);
      if rows[i].source == NAME {
        OwnIsRegular(repo, rows[i], times);
        RegularBlocks(rows[i], e);
      } else {
        OthersDoNotBlock(rows[i], e);
      }
    }
  }

  // ----- What a run keeps --------------------------------------------------

  lemma OneMoreOwn(repo: string, rows: seq<Event>, times: set<string>, row: Event)
    requires AllOwn(repo, rows, times) && Own(repo, row, times)
    ensures AllOwn(repo, rows + [row], times)
  {
    hide Own;
  }

  lemma OwnAtMoreTimes(repo: string, rows: seq<Event>, times: set<string>, more: set<string>)
    requires AllOwn(repo, rows, times) && times <= more
    ensures AllOwn(repo, rows, more)
  {
    hide Own;
    forall i | 0 <= i < |rows| ensures Own(repo, rows[i], more) {
      OwnLater(repo, rows[i], times, more);
    }
  }

  lemma ChangeIsOwn(repo: string, prior: Inbox, next: Inbox, e: Event, id: string, row: Event, times: set<string>, t: string)
    requires IsChange(repo, prior, next, e, id) && t in times
    requires row == e || (IsResolution(e) && row == Disambiguated(e, t))
    ensures Own(repo, row, times)
  {
    hide IdentityText, ItemVersion, ResolvedVersion, Altered, Disambiguated, IsMarkerRow;
    if id in next {
      assert IsUpsertRow(repo, e);
    } else {
      assert Resolves(repo, ResolvedEvent(repo, prior[id]), prior[id], None);
      assert Resolves(repo, Disambiguated(ResolvedEvent(repo, prior[id]), t), prior[id], Some(t));
      DisambiguatedKeepsItsSource(e, t);
    }
  }

  lemma DisambiguatedKeepsItsSource(e: Event, t: string)
    ensures Disambiguated(e, t).source == e.source
  {
  }

  /** An ingest adds rows of its own kinds only, wherever it stops. */
  lemma IngestKeepsOwn(repo: string, rows: seq<Event>, next: seq<Item>, t: string, times: set<string>)
    requires AllOwn(repo, rows, times)
    ensures AllOwn(repo, Ingested(repo, rows, next, t).rows, times + {t})
  {
    hide Own, IsChange, Diff, Prior, ById, AllApart, Takes, HasBlocker, Disambiguated, OfferAll;
    var prior, target := Prior(repo, rows), ById(next);
    PriorIsKeyed(repo, rows);
    ByIdIsKeyed(next);
    DiffIs(repo, prior, target, t);
    var events, after := Diff(repo, prior, target), Ingested(repo, rows, next, t).rows;
    RowsAreAccounted(rows, events, t);
    forall k | 0 <= k < |after| ensures Own(repo, after[k], times + {t}) {
      if k < |rows| {
        assert after[k] == rows[k];
        OwnLater(repo, rows[k], times, times + {t});
      } else {
        assert Accounted(rows, after[k], events, t);
        var i :| 0 <= i < |events| && CameFrom(rows, after[k], events[i], t);
        assert events[i] in events;
        var id :| IsChange(repo, prior, target, events[i], id);
        ChangeIsOwn(repo, prior, target, events[i], id, after[k], times + {t}, t);
      }
    }
  }

  /** An event of another writer: not under this stream's name, and not about its items. */
  predicate OfOthers(e: Event) {
    e.source != NAME && !("evt:" + NAME + ":" <= e.identity.EventId()) && !e.payload.AttentionChange?
  }

  predicate Neighbourly(steps: seq<Step>) {
    forall k :: 0 <= k < |steps| && steps[k].Elsewhere? ==> OfOthers(steps[k].event)
  }

  function TimesOf(steps: seq<Step>): set<string> {
    set k | 0 <= k < |steps| && steps[k].Ingest? :: steps[k].observedAt
  }

  lemma MarkerIsOwn(repo: string, rows: seq<Event>, read: Read, times: set<string>)
    requires MarkerFor(repo, rows, read).Some?
    ensures Own(repo, MarkerFor(repo, rows, read).value, times) && Regular(MarkerFor(repo, rows, read).value)
    ensures !MarkerFor(repo, rows, read).value.payload.AttentionChange?
  {
    hide AvailabilityRuns.IsMarkerEvent, Regular, MarkerCount, LastMarker;
    AvailabilityRuns.ObservedIsAMarker(Source(repo), MarkerCount(rows) + 1);
    if read.Unavailable? {
      AvailabilityRuns.NotObservedIsAMarker(Source(repo), read.reason, MarkerCount(rows) + 1);
    }
    MarkerIsRegular(repo, MarkerFor(repo, rows, read).value);
  }

  /** In such a log the store never fails the marker, and the marker leaves the inbox alone. */
  lemma MarkedIsOwn(repo: string, rows: seq<Event>, read: Read, times: set<string>)
    requires AllOwn(repo, rows, times)
    ensures Marked(repo, rows, read).Some?
    ensures var marked := Marked(repo, rows, read).value;
            && AllOwn(repo, marked, times)
            && (marked == rows
                || (marked != [] && marked[..|marked| - 1] == rows && !marked[|rows|].payload.AttentionChange?))
            && Materialized(marked) == Materialized(rows)
  {
    hide Own, Regular, MarkerFor, HasBlocker, HasRowOf, Materialized;
    var marker := MarkerFor(repo, rows, read);
    if marker.Some? {
      MarkerIsOwn(repo, rows, read, times);
      BlockerIsItsRow(repo, rows, times, marker.value);
      OneMoreOwn(repo, rows, times, marker.value);
      MaterializedOneMore(rows, marker.value);
    }
  }

  lemma StepKeepsOwn(repo: string, rows: seq<Event>, step: Step, times: set<string>)
    requires AllOwn(repo, rows, times) && (step.Elsewhere? ==> OfOthers(step.event))
    ensures AllOwn(repo, After(repo, rows, step), if step.Ingest? then times + {step.observedAt} else times)
  {
    hide AllOwn, Marked, Ingested, AppendOutcome, Identity.EventId;
    match step
    case Ingest(read, t) =>
      MarkedIsOwn(repo, rows, read, times);
      OwnAtMoreTimes(repo, Marked(repo, rows, read).value, times, times + {t});
      if read.Items? {
        IngestKeepsOwn(repo, Marked(repo, rows, read).value, read.items, t, times);
      }
    case Elsewhere(event, refused) =>
      OneMoreOwn(repo, rows, times, event);
  }

  /** In every run the rows of the stream are what its ingests wrote. */
  lemma {:induction false} RunStaysOwn(repo: string, rows: seq<Event>, steps: seq<Step>)
    requires (forall i :: 0 <= i < |rows| ==> OfOthers(rows[i])) && Neighbourly(steps)
    ensures AllOwn(repo, Run(repo, rows, steps), TimesOf(steps))
  {
    hide After, OfOthers;
    if steps == [] {
      OthersAreOwn(repo, rows);
    } else {
      var n := |steps| - 1;
      RunStaysOwn(repo, rows, steps[..n]);
      StepKeepsOwn(repo, Run(repo, rows, steps[..n]), steps[n], TimesOf(steps[..n]));
      var earlier := if steps[n].Ingest? then TimesOf(steps[..n]) + {steps[n].observedAt} else TimesOf(steps[..n]);
      TimesOneMore(steps);
      OwnAtMoreTimes(repo, Run(repo, rows, steps), earlier, TimesOf(steps));
    }
  }

  lemma OthersAreOwn(repo: string, rows: seq<Event>)
    requires forall i :: 0 <= i < |rows| ==> OfOthers(rows[i])
    ensures AllOwn(repo, rows, {})
  {
    hide Identity.EventId;
  }

  lemma TimesOneMore(steps: seq<Step>)
    requires steps != []
    ensures var n := |steps| - 1;
            (if steps[n].Ingest? then TimesOf(steps[..n]) + {steps[n].observedAt} else TimesOf(steps[..n])) <= TimesOf(steps)
  {
    var n := |steps| - 1;
    forall t | t in TimesOf(steps[..n]) ensures t in TimesOf(steps) {
      var k :| 0 <= k < n && steps[..n][k].Ingest? && steps[..n][k].observedAt == t;
      assert steps[k] == steps[..n][k];
    }
  }

  // ----- Ingests run to their end ------------------------------------------

  /** The retry of an identity at `t` shares its hash with no retry at another of these times. */
  predicate RetriesApart(text: string, t: string, times: set<string>) {
    forall u :: u in times && StreamSeq([text, t]) == StreamSeq([text, u])
      ==> LengthPrefixedAll([text, t]) == LengthPrefixedAll([text, u])
  }

  /** No marker reads as an event of the inbox. */
  lemma MarkerIsNotNamed(repo: string, row: Event, e: Event, id: string, tag: string, version: nat)
    requires IsMarkerRow(repo, row) && Named(e, repo, id, tag, version)
    requires tag in {"appeared", "changed", "resolved", "disambiguated"}
    ensures !row.IsTheRowOf(e)
  {
    hide IdentityText, Identity.SourceEventId, IsMarker;
    InboxTextIsNoMarker(repo, id, tag, version, Resolved(id));
    NamedIsRegular(e, repo, id, tag, version);
    assert e.identity == StreamEvent(IdentityText(repo, id, tag, version), Resolved(id)).identity;
  }

  lemma RetriesDiffer(repo: string, x: Item, t: string, y: Item, u: string)
    requires t != u && (StreamSeq([TextOf(ResolvedEvent(repo, x)), t]) == StreamSeq([TextOf(ResolvedEvent(repo, x)), u])
             ==> LengthPrefixedAll([TextOf(ResolvedEvent(repo, x)), t]) == LengthPrefixedAll([TextOf(ResolvedEvent(repo, x)), u]))
    ensures !Disambiguated(ResolvedEvent(repo, y), u).Blocks(Disambiguated(ResolvedEvent(repo, x), t))
  {
    hide Named, Disambiguated, Event.Blocks, Occurrence, ResolvedEvent, ResolvedVersion, ItemVersion, StreamSeq;
    var e, f, v, w := ResolvedEvent(repo, x), ResolvedEvent(repo, y), ResolvedVersion(repo, x), ResolvedVersion(repo, y);
    EventNames(repo, x);
    EventNames(repo, y);
    var p := RetryIsNamed(e, repo, x.id, "resolved", v, t);
    var q := RetryIsNamed(f, repo, y.id, "resolved", w, u);
    if x.id == y.id && v == w {
      SameNameSameText(e, f, repo, x.id, "resolved", v);
      TimesDiffer(TextOf(e), t, u);
    } else {
      OccurrencesDiffer(x.id, "resolved", v, y.id, "resolved", w);
    }
    NamedApart(Disambiguated(f, u), Disambiguated(e, t), repo, Occurrence(y.id, "resolved", w), "disambiguated", q,
               Occurrence(x.id, "resolved", v), "disambiguated", p);
  }

  lemma TimesDiffer(text: string, t: string, u: string)
    requires t != u
    ensures LengthPrefixedAll([text, t]) != LengthPrefixedAll([text, u])
  {
    if LengthPrefixedAll([text, t]) == LengthPrefixedAll([text, u]) {
      LengthPrefixedAllIsInjective([text, t], [text, u]);
    }
  }

  lemma SameNameSameText(e: Event, f: Event, repo: string, id: string, tag: string, version: nat)
    requires Named(e, repo, id, tag, version) && Named(f, repo, id, tag, version)
    ensures TextOf(e) == TextOf(f)
  {
    hide IdentityText;
  }

  /** A retry at a time no earlier ingest used is new to the log. */
  lemma RetryIsNew(repo: string, rows: seq<Event>, times: set<string>, x: Item, t: string)
    requires AllOwn(repo, rows, times) && t !in times && RetriesApart(TextOf(ResolvedEvent(repo, x)), t, times)
    ensures !HasBlocker(rows, Disambiguated(ResolvedEvent(repo, x), t))
  {
    hide Named, Disambiguated, Event.Blocks, Occurrence, ResolvedEvent, ResolvedVersion, ItemVersion, StreamSeq, Regular,
         IsUpsertRow, IsMarkerRow, Resolves, Event.IsTheRowOf, Identity.EventId;
    var e, v := ResolvedEvent(repo, x), ResolvedVersion(repo, x);
    EventNames(repo, x);
    var again := RetryIsNamed(e, repo, x.id, "resolved", v, t);
    var retry, o := Disambiguated(e, t), Occurrence(x.id, "resolved", v);
    NamedIsRegular(retry, repo, o, "disambiguated", again);
    forall i | 0 <= i < |rows| ensures !rows[i].Blocks(retry) {
      var row := rows[i];
      assert Own(repo, row, times);
      if row.source != NAME {
        OthersDoNotBlock(row, retry);
      } else if IsUpsertRow(repo, row) {
        var y, tag := UpsertRowIsNamed(repo, row);
        NamedApart(row, retry, repo, y.id, tag, ItemVersion(repo, y), o, "disambiguated", again);
      } else if IsResolutionRow(repo, row, times) {
        ResolutionIsNoRetry(repo, row, times, x, t);
      } else {
        MarkerIsNotNamed(repo, row, retry, o, "disambiguated", again);
        OwnIsRegular(repo, row, times);
        if row.Blocks(retry) {
          RegularBlocks(row, retry);
        }
      }
    }
  }

  lemma ResolutionIsNoRetry(repo: string, row: Event, times: set<string>, x: Item, t: string)
    requires IsResolutionRow(repo, row, times) && t !in times && RetriesApart(TextOf(ResolvedEvent(repo, x)), t, times)
    ensures !row.Blocks(Disambiguated(ResolvedEvent(repo, x), t))
  {
    hide Named, Disambiguated, Event.Blocks, Occurrence, ResolvedEvent, ResolvedVersion, ItemVersion, StreamSeq;
    var y, u :| Resolves(repo, row, y, u) && (u.Some? ==> u.value in times);
    if u.Some? {
      RetriesDiffer(repo, x, t, y, u.value);
    } else {
      EventNames(repo, x);
      EventNames(repo, y);
      var again := RetryIsNamed(ResolvedEvent(repo, x), repo, x.id, "resolved", ResolvedVersion(repo, x), t);
      NamedApart(row, Disambiguated(ResolvedEvent(repo, x), t), repo, y.id, "resolved", ResolvedVersion(repo, y),
                 Occurrence(x.id, "resolved", ResolvedVersion(repo, x)), "disambiguated", again);
    }
  }

  /** In a log of the stream's own rows an ingest at a new time runs to its end, unless a retry
      collides under the hash. */
  lemma IngestEndsFine(repo: string, rows: seq<Event>, times: set<string>, next: seq<Item>, t: string)
    requires AllOwn(repo, rows, times) && t !in times
    requires forall id :: id in Prior(repo, rows) && id !in ById(next) ==>
      RetriesApart(TextOf(ResolvedEvent(repo, Prior(repo, rows)[id])), t, times)
    ensures Undisturbed(repo, rows, ById(next), t)
    ensures Ingested(repo, rows, next, t).status == Fine
  {
    hide AllOwn, HasBlocker, HasRowOf, ById, Prior, UpsertEvent, ResolvedEvent, Altered, Disambiguated, Regular, Ingested,
         RetriesApart, Named, IsResolution;
    var prior, target := Prior(repo, rows), ById(next);
    PriorIsKeyed(repo, rows);
    ByIdIsKeyed(next);
    forall id | id in target ensures Takes(rows, UpsertEvent(repo, prior, target, id), t) {
      var e := UpsertEvent(repo, prior, target, id);
      UpsertIsNamed(repo, prior, target, id);
      NamedIsRegular(e, repo, id, UpsertTag(prior, id), ItemVersion(repo, target[id]));
      UpsertIsTheEvent(repo, prior, target, id);
      BlockerIsItsRow(repo, rows, times, e);
    }
    forall id | id in prior && id !in target ensures Takes(rows, ResolvedEvent(repo, prior[id]), t) {
      ResolutionIsNamed(repo, prior, id);
      NamedIsRegular(ResolvedEvent(repo, prior[id]), repo, id, "resolved", ResolvedVersion(repo, prior[id]));
      BlockerIsItsRow(repo, rows, times, ResolvedEvent(repo, prior[id]));
      RetryIsNew(repo, rows, times, prior[id], t);
    }
    IngestEndsFineIff(repo, rows, next, t);
  }

  // ----- Which items are shown as they were read ---------------------------

  /** A stored event of this kind says just this content of the item. */
  predicate Says(row: Event, appeared: bool, item: Item) {
    && row.payload.AttentionChange? && !row.payload.change.Resolved?
    && row.payload.change.Appeared? == appeared
    && SameContent(row.payload.change.item, item)
  }

  predicate Said(rows: seq<Event>, appeared: bool, item: Item) {
    exists i :: 0 <= i < |rows| && Says(rows[i], appeared, item)
  }

  /** No stored item shares a version with this one by collision. */
  predicate NoStoredCollision(repo: string, rows: seq<Event>, item: Item) {
    forall i :: 0 <= i < |rows| && rows[i].payload.AttentionChange? && !rows[i].payload.change.Resolved? ==>
      NoCollision(repo, rows[i].payload.change.item, item)
  }

  function OfferedFor(repo: string, appeared: bool, item: Item): Event {
    if appeared then AppearedEvent(repo, item) else ChangedEvent(repo, item)
  }

  function KindTag(appeared: bool): string {
    if appeared then "appeared" else "changed"
  }

  lemma OfferedIsNamed(repo: string, appeared: bool, item: Item)
    ensures Named(OfferedFor(repo, appeared, item), repo, item.id, KindTag(appeared), ItemVersion(repo, item))
    ensures KindTag(true) != KindTag(false) && ':' !in KindTag(appeared)
  {
    hide Named;
    EventNames(repo, item);
  }

  lemma NamesAgree(e: Event, f: Event, repo: string, id: string, tag: string, version: nat)
    requires Named(e, repo, id, tag, version) && Named(f, repo, id, tag, version)
    ensures e.IsTheRowOf(f)
  {
    hide IdentityText;
  }

  lemma UpsertRowIsOffered(repo: string, row: Event)
    requires IsUpsertRow(repo, row)
    ensures row.payload.AttentionChange? && !row.payload.change.Resolved?
    ensures row == OfferedFor(repo, row.payload.change.Appeared?, row.payload.change.item)
  {
    hide IdentityText, ItemVersion;
  }

  lemma UpsertRowSays(repo: string, row: Event, appeared: bool, item: Item)
    requires row.payload.AttentionChange? && !row.payload.change.Resolved?
    requires IsUpsertRow(repo, row) && NoCollision(repo, row.payload.change.item, item)
    ensures row.IsTheRowOf(OfferedFor(repo, appeared, item)) <==> Says(row, appeared, item)
  {
    hide Named, ItemVersion, OfferedFor, Event.IsTheRowOf, IsUpsertRow, SameText, KindTag;
    var x, kind := row.payload.change.item, row.payload.change.Appeared?;
    UpsertRowIsOffered(repo, row);
    VersionIdentifiesContent(repo, x, item);
    OfferedIsNamed(repo, kind, x);
    OfferedIsNamed(repo, appeared, item);
    if Says(row, appeared, item) {
      NamesAgree(row, OfferedFor(repo, appeared, item), repo, x.id, KindTag(kind), ItemVersion(repo, x));
    } else if x.id == item.id && ItemVersion(repo, x) == ItemVersion(repo, item) && kind == appeared {
      assert false;
    } else {
      NamedApart(row, OfferedFor(repo, appeared, item), repo, x.id, KindTag(kind), ItemVersion(repo, x),
                 item.id, KindTag(appeared), ItemVersion(repo, item));
    }
  }

  /** A row that is no upsert is no upsert's row. */
  lemma OtherRowsAreNot(repo: string, row: Event, times: set<string>, appeared: bool, item: Item)
    requires Own(repo, row, times) && !(row.source == NAME && IsUpsertRow(repo, row))
    ensures !row.IsTheRowOf(OfferedFor(repo, appeared, item)) && !Says(row, appeared, item)
  {
    hide Named, ItemVersion, OfferedFor, IsUpsertRow, Resolves, IsMarkerRow, Identity.SourceEventId, Identity.EventId,
         SameContent;
    var e := OfferedFor(repo, appeared, item);
    OfferedIsNamed(repo, appeared, item);
    NamedIsRegular(e, repo, item.id, KindTag(appeared), ItemVersion(repo, item));
    if row.source == NAME && IsResolutionRow(repo, row, times) {
      var x, t :| Resolves(repo, row, x, t);
      var id, tag, version := ResolutionRowIsNamed(repo, row, x, t);
      NamedApart(row, e, repo, id, tag, version, item.id, KindTag(appeared), ItemVersion(repo, item));
    } else if row.source == NAME {
      MarkerIsNotNamed(repo, row, e, item.id, KindTag(appeared), ItemVersion(repo, item));
      MarkerSaysNothing(repo, row);
    }
  }

  lemma MarkerSaysNothing(repo: string, row: Event)
    requires IsMarkerRow(repo, row)
    ensures !row.payload.AttentionChange?
  {
  }

  /** In a log of the stream's own rows, an event is stored exactly when its kind, its item's id
      and its content are. */
  lemma StoredIffSaid(repo: string, rows: seq<Event>, times: set<string>, appeared: bool, item: Item)
    requires AllOwn(repo, rows, times) && NoStoredCollision(repo, rows, item)
    ensures HasRowOf(rows, OfferedFor(repo, appeared, item)) <==> Said(rows, appeared, item)
  {
    hide Own, IsUpsertRow, OfferedFor, Says, Event.IsTheRowOf, NoCollision;
    forall i | 0 <= i < |rows|
      ensures rows[i].IsTheRowOf(OfferedFor(repo, appeared, item)) <==> Says(rows[i], appeared, item)
    {
      if rows[i].source == NAME && IsUpsertRow(repo, rows[i]) {
        UpsertRowIsOffered(repo, rows[i]);
        UpsertRowSays(repo, rows[i], appeared, item);
      } else {
        OtherRowsAreNot(repo, rows[i], times, appeared, item);
      }
    }
  }

  /** The inbox shows an item just as it is. */
  predicate ShowsItem(rows: seq<Event>, item: Item) {
    item.id in Materialized(rows) && Materialized(rows)[item.id] == item
  }

  /** Whether the ingest of this item would be its appearance, as its repository has it. */
  predicate Appears(repo: string, rows: seq<Event>, item: Item) {
    !(item.id in Materialized(rows) && Materialized(rows)[item.id].sourceRef.repo == repo)
  }

  /** After an ingest that ran to its end, an item of the snapshot is shown as it was read if
      and only if it was shown so before, or no stored event of the kind it calls for has its id
      and its content. */
  lemma ItemIsShownIff(repo: string, rows: seq<Event>, times: set<string>, next: seq<Item>, t: string, item: Item)
    requires AllOwn(repo, rows, times) && Undisturbed(repo, rows, ById(next), t)
    requires item.id in ById(next) && ById(next)[item.id] == item && NoStoredCollision(repo, rows, item)
    ensures ShowsItem(Ingested(repo, rows, next, t).rows, item) <==>
            ShowsItem(rows, item) || !Said(rows, Appears(repo, rows, item), item)
  {
    hide AllOwn, Undisturbed, ById, Materialized, Said, NoStoredCollision, HasRowOf, Ingested, AppearedEvent, ChangedEvent;
    var prior, target := Prior(repo, rows), ById(next);
    IngestEffect(repo, rows, next, t);
    StoredIffSaid(repo, rows, times, Appears(repo, rows, item), item);
    assert UpsertEvent(repo, prior, target, item.id) == OfferedFor(repo, Appears(repo, rows, item), item);
  }

  /** Of the items the snapshot does not have, those of this repository are gone, and no other is. */
  lemma DroppedAreGone(repo: string, rows: seq<Event>, next: seq<Item>, t: string, id: string)
    requires Undisturbed(repo, rows, ById(next), t) && id !in ById(next)
    ensures id in Materialized(Ingested(repo, rows, next, t).rows) <==>
            id in Materialized(rows) && Materialized(rows)[id].sourceRef.repo != repo
  {
    hide Undisturbed, ById, Materialized, HasRowOf, Ingested, UpsertEvent;
    IngestEffect(repo, rows, next, t);
  }

  lemma SaidBeforeTheMarker(rows: seq<Event>, marked: seq<Event>, appeared: bool, item: Item, repo: string)
    requires marked == rows || (marked != [] && marked[..|marked| - 1] == rows && !marked[|rows|].payload.AttentionChange?)
    ensures Said(marked, appeared, item) <==> Said(rows, appeared, item)
    ensures NoStoredCollision(repo, rows, item) ==> NoStoredCollision(repo, marked, item)
  {
    hide SameContent, NoCollision;
    if marked != rows {
      assert marked == rows + [marked[|rows|]];
      if Said(rows, appeared, item) {
        var i :| 0 <= i < |rows| && Says(rows[i], appeared, item);
        assert Says(marked[i], appeared, item);
      }
    }
  }

  /** A retry of any resolution the snapshot calls for shares its hash with none before it. */
  predicate RetriesAreNew(repo: string, rows: seq<Event>, next: seq<Item>, t: string, times: set<string>) {
    forall id :: id in Prior(repo, rows) && id !in ById(next) ==>
      RetriesApart(TextOf(ResolvedEvent(repo, Prior(repo, rows)[id])), t, times)
  }

  lemma SamePrior(repo: string, rows: seq<Event>, marked: seq<Event>)
    requires Materialized(marked) == Materialized(rows)
    ensures Prior(repo, marked) == Prior(repo, rows)
  {
    hide Materialized;
  }

  /** The inbox law. In any run of reads and of other writers, from a log without rows of the
      stream, an ingest at a time none before it used runs to its end, and it shows an item as it
      read it if and only if the inbox showed it so already or no earlier event of the kind it
      calls for had that id and that content, hash collisions aside. Of the items it did not
      read, exactly those of its own repository go. */
  lemma InboxFollowsTheSnapshot(repo: string, rows: seq<Event>, steps: seq<Step>, k: nat)
    requires (forall i :: 0 <= i < |rows| ==> OfOthers(rows[i])) && Neighbourly(steps)
    requires k < |steps| && steps[k].Ingest? && steps[k].read.Items? && steps[k].observedAt !in TimesOf(steps[..k])
    requires RetriesAreNew(repo, Run(repo, rows, steps[..k]), steps[k].read.items, steps[k].observedAt, TimesOf(steps[..k]))
    ensures AfterRead(repo, Run(repo, rows, steps[..k]), steps[k].read, steps[k].observedAt).status == Fine
    ensures var before, next := Run(repo, rows, steps[..k]), steps[k].read.items;
            forall item: Item :: item.id in ById(next) && ById(next)[item.id] == item && NoStoredCollision(repo, before, item) ==>
              (ShowsItem(Run(repo, rows, steps[..k + 1]), item) <==>
               ShowsItem(before, item) || !Said(before, Appears(repo, before, item), item))
    ensures var before, next := Run(repo, rows, steps[..k]), steps[k].read.items;
            forall id :: id !in ById(next) ==>
              (id in Materialized(Run(repo, rows, steps[..k + 1])) <==>
               id in Materialized(before) && Materialized(before)[id].sourceRef.repo != repo)
  {
    hide OfOthers, AllOwn, Marked, Ingested, ById, Materialized, Said, NoStoredCollision, Undisturbed, RetriesApart, Prior,
         ResolvedEvent;
    var before, read, t := Run(repo, rows, steps[..k]), steps[k].read, steps[k].observedAt;
    var times := TimesOf(steps[..k]);
    RunStaysOwn(repo, rows, steps[..k]);
    MarkedIsOwn(repo, before, read, times);
    var marked := Marked(repo, before, read).value;
    SamePrior(repo, before, marked);
    IngestEndsFine(repo, marked, times, read.items, t);
    assert steps[..k + 1][..k] == steps[..k];
    forall id | id !in ById(read.items)
      ensures id in Materialized(Run(repo, rows, steps[..k + 1])) <==>
              id in Materialized(before) && Materialized(before)[id].sourceRef.repo != repo
    {
      DroppedAreGone(repo, marked, read.items, t, id);
    }
    forall item: Item | item.id in ById(read.items) && ById(read.items)[item.id] == item && NoStoredCollision(repo, before, item)
      ensures ShowsItem(Run(repo, rows, steps[..k + 1]), item) <==>
              ShowsItem(before, item) || !Said(before, Appears(repo, before, item), item)
    {
      SaidBeforeTheMarker(before, marked, Appears(repo, before, item), item, repo);
      ItemIsShownIff(repo, marked, times, read.items, t, item);
    }
  }

  /** A read that failed takes nothing off the inbox and puts nothing on it. */
  lemma FailedReadLeavesTheInbox(repo: string, rows: seq<Event>, steps: seq<Step>, k: nat)
    requires (forall i :: 0 <= i < |rows| ==> OfOthers(rows[i])) && Neighbourly(steps)
    requires k < |steps| && steps[k].Ingest? && steps[k].read.Unavailable?
    ensures Materialized(Run(repo, rows, steps[..k + 1])) == Materialized(Run(repo, rows, steps[..k]))
    ensures var p := AfterRead(repo, Run(repo, rows, steps[..k]), steps[k].read, steps[k].observedAt);
            p.status == Fine && p.inserted == 0
  {
    hide OfOthers, Marked, Materialized;
    RunStaysOwn(repo, rows, steps[..k]);
    MarkedIsOwn(repo, Run(repo, rows, steps[..k]), steps[k].read, TimesOf(steps[..k]));
    assert steps[..k + 1][..k] == steps[..k];
  }

  // ----- Every marker is a change ------------------------------------------

  /** Each marker of the stream contradicts the availability before it; a source that never
      reported counts as available. */
  predicate Alternating(rows: seq<Event>) {
    forall i :: 0 <= i < |rows| && MarkerState(rows[i]).Some? ==>
      (MarkerState(rows[i]) == Some(NotObserved) <==> LastMarker(rows[..i]) != Some(NotObserved))
  }

  lemma AlternatingOneMore(rows: seq<Event>, e: Event)
    requires Alternating(rows)
    requires MarkerState(e).Some? ==> (MarkerState(e) == Some(NotObserved) <==> LastMarker(rows) != Some(NotObserved))
    ensures Alternating(rows + [e])
  {
    hide MarkerState, LastMarker;
    var more := rows + [e];
    forall i | 0 <= i < |more| && MarkerState(more[i]).Some?
      ensures MarkerState(more[i]) == Some(NotObserved) <==> LastMarker(more[..i]) != Some(NotObserved)
    {
      if i < |rows| {
        assert more[i] == rows[i] && more[..i] == rows[..i];
      } else {
        assert more[..i] == rows;
      }
    }
  }

  lemma {:induction false} AlternatingMore(rows: seq<Event>, more: seq<Event>)
    requires Alternating(rows) && forall i :: 0 <= i < |more| ==> MarkerState(more[i]).None?
    ensures Alternating(rows + more)
  {
    hide Alternating, MarkerState;
    if more == [] {
      assert rows + more == rows;
    } else {
      var n := |more| - 1;
      AlternatingMore(rows, more[..n]);
      AlternatingOneMore(rows + more[..n], more[n]);
      assert rows + more == rows + more[..n] + [more[n]];
    }
  }

  lemma IngestAddsNoMarker(repo: string, rows: seq<Event>, next: seq<Item>, t: string)
    ensures var after := Ingested(repo, rows, next, t).rows;
            rows <= after && forall i :: |rows| <= i < |after| ==> MarkerState(after[i]).None?
  {
    hide IsChange, Diff, Prior, ById, AllApart, Takes, HasBlocker, OfferAll, Event.Blocks, IdentityText;
    var prior, target := Prior(repo, rows), ById(next);
    PriorIsKeyed(repo, rows);
    ByIdIsKeyed(next);
    DiffIs(repo, prior, target, t);
    var events, after := Diff(repo, prior, target), Ingested(repo, rows, next, t).rows;
    RowsAreAccounted(rows, events, t);
    forall i | |rows| <= i < |after| ensures MarkerState(after[i]).None? {
      assert Accounted(rows, after[i], events, t);
      var j :| 0 <= j < |events| && CameFrom(rows, after[i], events[j], t);
      assert events[j] in events;
      var id :| IsChange(repo, prior, target, events[j], id);
      ChangeSpeaksOf(repo, prior, target, events[j], id);
    }
  }

  lemma MarkerForContradicts(repo: string, rows: seq<Event>, read: Read)
    requires MarkerFor(repo, rows, read).Some?
    ensures var state := MarkerState(MarkerFor(repo, rows, read).value);
            state.Some? && (state == Some(NotObserved) <==> LastMarker(rows) != Some(NotObserved))
  {
    hide LastMarker, MarkerCount;
  }

  lemma StepKeepsAlternating(repo: string, rows: seq<Event>, step: Step)
    requires Alternating(rows) && (step.Elsewhere? ==> OfOthers(step.event))
    ensures Alternating(After(repo, rows, step))
  {
    hide Alternating, MarkerFor, Ingested, AppendOutcome, LastMarker, Identity.EventId;
    match step
    case Ingest(read, t) =>
      var marker := MarkerFor(repo, rows, read);
      if marker.Some? {
        MarkerForContradicts(repo, rows, read);
        AlternatingOneMore(rows, marker.value);
      }
      if read.Items? && Marked(repo, rows, read).Some? {
        var marked := Marked(repo, rows, read).value;
        var after := Ingested(repo, marked, read.items, t).rows;
        IngestAddsNoMarker(repo, marked, read.items, t);
        AlternatingMore(marked, after[|marked|..]);
        assert after == marked + after[|marked|..];
      }
    case Elsewhere(event, refused) =>
      AlternatingOneMore(rows, event);
  }

  /** In every run the stream's markers alternate, beginning with an outage: a read writes one
      exactly when it contradicts the state before it, so a lasting outage is reported once. */
  lemma {:induction false} MarkersAlternate(repo: string, rows: seq<Event>, steps: seq<Step>)
    requires (forall i :: 0 <= i < |rows| ==> OfOthers(rows[i])) && Neighbourly(steps)
    ensures Alternating(Run(repo, rows, steps))
  {
    hide After, OfOthers, Alternating;
    if steps == [] {
      OthersAreNoMarkers(rows);
    } else {
      var n := |steps| - 1;
      MarkersAlternate(repo, rows, steps[..n]);
      StepKeepsAlternating(repo, Run(repo, rows, steps[..n]), steps[n]);
    }
  }

  lemma OthersAreNoMarkers(rows: seq<Event>)
    requires forall i :: 0 <= i < |rows| ==> OfOthers(rows[i])
    ensures Alternating(rows)
  {
    hide Identity.EventId;
  }
}
