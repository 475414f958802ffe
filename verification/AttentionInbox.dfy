/** What one ingest of the needs-attention snapshot makes of the stored inbox: when it runs to
    its end, when the inbox is then the snapshot, and which items are left wrong. */
module AttentionInbox {
  import opened Text
  import opened Fnv
  import opened Ordering
  import opened Attention
  import opened EventLog
  import opened Identities
  import opened AttentionStream
  import opened AttentionIngest

  // ----- Events that do not get in each other's way ------------------------

  /** An event of this stream, by the parts of its identity text. */
  predicate Named(e: Event, repo: string, id: string, tag: string, version: nat) {
    var text := IdentityText(repo, id, tag, version);
    e.source == NAME && e.identity == Verbatim("evt:" + text, Some(text))
  }

  /** The three events of an item, by name. */
  lemma EventNames(repo: string, x: Item)
    ensures Named(AppearedEvent(repo, x), repo, x.id, "appeared", ItemVersion(repo, x))
    ensures Named(ChangedEvent(repo, x), repo, x.id, "changed", ItemVersion(repo, x))
    ensures Named(ResolvedEvent(repo, x), repo, x.id, "resolved", ResolvedVersion(repo, x))
  {
    hide IdentityText;
  }

  lemma NamedApart(x: Event, y: Event, repo: string, id: string, tag: string, version: nat,
                   id': string, tag': string, version': nat)
    requires Named(x, repo, id, tag, version) && Named(y, repo, id', tag', version')
    requires ':' !in tag && ':' !in tag'
    requires !(id == id' && tag == tag' && version == version')
    ensures !x.Blocks(y)
  {
    hide IdentityText;
    if x.Blocks(y) {
      PrefixCancels("evt:", IdentityText(repo, id, tag, version), IdentityText(repo, id', tag', version'));
      TextsAreDistinct(repo, id, tag, version, id', tag', version');
    }
  }

  function Occurrence(id: string, tag: string, version: nat): string {
    id + ":" + tag + ":" + Decimal(version)
  }

  lemma RetryIsNamed(e: Event, repo: string, id: string, tag: string, version: nat, t: string) returns (again: nat)
    requires Named(e, repo, id, tag, version)
    ensures Named(Disambiguated(e, t), repo, Occurrence(id, tag, version), "disambiguated", again)
    ensures again == StreamSeq([TextOf(e), t])
    ensures Disambiguated(e, t).payload == e.payload
  {
    hide IdentityText, StreamSeq;
    again := StreamSeq([TextOf(e), t]);
    DisambiguatedText(repo, id, tag, version, again);
  }

  /** Neither the first event nor its retry is in the way of the second or of its retry. */
  predicate Apart(x: Event, y: Event, t: string) {
    && !x.Blocks(y) && !x.Blocks(Disambiguated(y, t))
    && !Disambiguated(x, t).Blocks(y) && !Disambiguated(x, t).Blocks(Disambiguated(y, t))
  }

  lemma EventsApart(x: Event, y: Event, repo: string, id: string, tag: string, version: nat,
                    id': string, tag': string, version': nat, t: string)
    requires Named(x, repo, id, tag, version) && Named(y, repo, id', tag', version')
    requires ':' !in tag && ':' !in tag' && tag != "disambiguated" && tag' != "disambiguated"
    requires id != id' || tag != tag'
    ensures Apart(x, y, t)
  {
    hide Named, Disambiguated, Event.Blocks, Occurrence;
    var p := RetryIsNamed(x, repo, id, tag, version, t);
    var q := RetryIsNamed(y, repo, id', tag', version', t);
    OccurrencesDiffer(id, tag, version, id', tag', version');
    var o, o' := Occurrence(id, tag, version), Occurrence(id', tag', version');
    NamedApart(x, y, repo, id, tag, version, id', tag', version');
    NamedApart(x, Disambiguated(y, t), repo, id, tag, version, o', "disambiguated", q);
    NamedApart(Disambiguated(x, t), y, repo, o, "disambiguated", p, id', tag', version');
    NamedApart(Disambiguated(x, t), Disambiguated(y, t), repo, o, "disambiguated", p, o', "disambiguated", q);
  }

  lemma OccurrencesDiffer(id: string, tag: string, version: nat, id': string, tag': string, version': nat)
    requires ':' !in tag && ':' !in tag' && (id != id' || tag != tag' || version != version')
    ensures Occurrence(id, tag, version) != Occurrence(id', tag', version')
  {
    DecimalReadsBack(version);
    DecimalReadsBack(version');
    if Occurrence(id, tag, version) == Occurrence(id', tag', version') {
      DigitsBeginAtSeparator(id + ":" + tag, Decimal(version), id' + ":" + tag', Decimal(version'));
      LastColon(id, tag, id', tag');
    }
  }

  // ----- When an ingest runs to its end ------------------------------------

  /** The store does not stop an ingest at this event: it is new, or its own row is there and,
      for a resolution, its retry is new. */
  predicate Takes(rows: seq<Event>, e: Event, t: string) {
    || !HasBlocker(rows, e)
    || (HasRowOf(rows, e) && (IsResolution(e) ==> !HasBlocker(rows, Disambiguated(e, t))))
  }

  lemma OfferIsFineIff(p: Progress, e: Event, t: string)
    requires p.status == Fine
    ensures Offer(p, e, t).status == Fine <==> Takes(p.rows, e, t)
  {
    hide HasBlocker, HasRowOf, Disambiguated;
  }

  lemma OneMoreRow(rows: seq<Event>, row: Event, e: Event)
    requires !row.Blocks(e)
    ensures HasBlocker(rows + [row], e) <==> HasBlocker(rows, e)
    ensures HasRowOf(rows + [row], e) <==> HasRowOf(rows, e)
  {
    hide Identity.SourceEventId, Identity.EventId;
    assert !row.IsTheRowOf(e);
    hide Event.Blocks, Event.IsTheRowOf;
    RowOfOneMore(rows, row, e);
    if HasBlocker(rows, e) {
      var i :| 0 <= i < |rows| && rows[i].Blocks(e);
      assert (rows + [row])[i].Blocks(e);
    }
  }

  lemma OfferLeaves(p: Progress, e: Event, y: Event, t: string)
    requires Apart(e, y, t)
    ensures Takes(Offer(p, e, t).rows, y, t) <==> Takes(p.rows, y, t)
  {
    hide HasBlocker, HasRowOf, Disambiguated, AppendOutcome, Event.Blocks, IsResolution;
    OneMoreRow(p.rows, e, y);
    OneMoreRow(p.rows, e, Disambiguated(y, t));
    OneMoreRow(p.rows, Disambiguated(e, t), y);
    OneMoreRow(p.rows, Disambiguated(e, t), Disambiguated(y, t));
  }

  lemma {:induction false} OfferAllLeaves(p: Progress, events: seq<Event>, y: Event, t: string)
    requires forall i :: 0 <= i < |events| ==> Apart(events[i], y, t)
    ensures Takes(OfferAll(p, events, t).rows, y, t) <==> Takes(p.rows, y, t)
  {
    hide Offer, Takes, Apart;
    if events != [] {
      var n := |events| - 1;
      OfferAllLeaves(p, events[..n], y, t);
      OfferLeaves(OfferAll(p, events[..n], t), events[n], y, t);
    }
  }

  predicate AllApart(events: seq<Event>, t: string) {
    forall i, j :: 0 <= i < j < |events| ==> Apart(events[i], events[j], t)
  }

  lemma {:induction false} EndsFineIff(p: Progress, events: seq<Event>, t: string)
    requires p.status == Fine && AllApart(events, t)
    ensures OfferAll(p, events, t).status == Fine <==> forall i :: 0 <= i < |events| ==> Takes(p.rows, events[i], t)
  {
    hide Offer, Takes, Apart;
    if events != [] {
      var n := |events| - 1;
      var before := OfferAll(p, events[..n], t);
      EndsFineIff(p, events[..n], t);
      OfferAllLeaves(p, events[..n], events[n], t);
      if before.status == Fine {
        OfferIsFineIff(before, events[n], t);
      }
      assert forall i :: 0 <= i < n ==> events[..n][i] == events[i];
    }
  }

  // ----- The events of one diff --------------------------------------------

  function UpsertTag(prior: Inbox, id: string): string {
    if id in prior then "changed" else "appeared"
  }

  lemma UpsertIsNamed(repo: string, prior: Inbox, next: Inbox, id: string)
    requires id in next && Keyed(next)
    ensures Named(UpsertEvent(repo, prior, next, id), repo, id, UpsertTag(prior, id), ItemVersion(repo, next[id]))
    ensures UpsertEvent(repo, prior, next, id).payload.AttentionChange?
    ensures UpsertEvent(repo, prior, next, id).payload.change.Subject() == id
  {
    hide IdentityText;
  }

  lemma ResolutionIsNamed(repo: string, prior: Inbox, id: string)
    requires id in prior && Keyed(prior)
    ensures Named(ResolvedEvent(repo, prior[id]), repo, id, "resolved", ResolvedVersion(repo, prior[id]))
    ensures ResolvedEvent(repo, prior[id]).payload == AttentionChange(Resolved(id))
  {
    hide IdentityText;
  }

  lemma UpsertsApart(repo: string, prior: Inbox, next: Inbox, id: string, id': string, t: string)
    requires Keyed(next) && id in next && id' in next && id != id'
    ensures Apart(UpsertEvent(repo, prior, next, id), UpsertEvent(repo, prior, next, id'), t)
  {
    hide Apart, Named, UpsertEvent;
    UpsertIsNamed(repo, prior, next, id);
    UpsertIsNamed(repo, prior, next, id');
    EventsApart(UpsertEvent(repo, prior, next, id), UpsertEvent(repo, prior, next, id'), repo,
                id, UpsertTag(prior, id), ItemVersion(repo, next[id]),
                id', UpsertTag(prior, id'), ItemVersion(repo, next[id']), t);
  }

  lemma ResolutionsApart(repo: string, prior: Inbox, id: string, id': string, t: string)
    requires Keyed(prior) && id in prior && id' in prior && id != id'
    ensures Apart(ResolvedEvent(repo, prior[id]), ResolvedEvent(repo, prior[id']), t)
  {
    hide Apart, Named, ResolvedEvent;
    ResolutionIsNamed(repo, prior, id);
    ResolutionIsNamed(repo, prior, id');
    EventsApart(ResolvedEvent(repo, prior[id]), ResolvedEvent(repo, prior[id']), repo,
                id, "resolved", ResolvedVersion(repo, prior[id]),
                id', "resolved", ResolvedVersion(repo, prior[id']), t);
  }

  lemma UpsertApartFromResolution(repo: string, prior: Inbox, next: Inbox, id: string, id': string, t: string)
    requires Keyed(prior) && Keyed(next) && id in next && id' in prior
    ensures Apart(UpsertEvent(repo, prior, next, id), ResolvedEvent(repo, prior[id']), t)
  {
    hide Apart, Named, UpsertEvent, ResolvedEvent;
    UpsertIsNamed(repo, prior, next, id);
    ResolutionIsNamed(repo, prior, id');
    EventsApart(UpsertEvent(repo, prior, next, id), ResolvedEvent(repo, prior[id']), repo,
                id, UpsertTag(prior, id), ItemVersion(repo, next[id]),
                id', "resolved", ResolvedVersion(repo, prior[id']), t);
  }

  /** An upsert event of the diff over `ids`, and of which id. */
  ghost predicate IsUpsert(repo: string, prior: Inbox, next: Inbox, ids: seq<string>, e: Event, id: string) {
    id in ids && id in next && id in Altered(prior, next) && e == UpsertEvent(repo, prior, next, id)
  }

  ghost predicate IsRetire(repo: string, prior: Inbox, next: Inbox, ids: seq<string>, e: Event, id: string) {
    id in ids && id in prior && id !in next && e == ResolvedEvent(repo, prior[id])
  }

  lemma {:induction false} UpsertsAre(repo: string, prior: Inbox, next: Inbox, ids: seq<string>, t: string)
    requires Keyed(next) && Distinct(ids) && forall id :: id in ids ==> id in next
    ensures var events := Upserts(repo, prior, next, ids);
            && (forall e :: e in events ==> exists id :: IsUpsert(repo, prior, next, ids, e, id))
            && (forall id :: id in ids && id in Altered(prior, next) ==> UpsertEvent(repo, prior, next, id) in events)
            && AllApart(events, t)
  {
    hide UpsertEvent, Apart, Altered, Upsert;
    if ids != [] {
      var n, id := |ids| - 1, ids[|ids| - 1];
      var earlier, e := Upserts(repo, prior, next, ids[..n]), UpsertEvent(repo, prior, next, id);
      assert ids == ids[..n] + [id];
      UpsertsAre(repo, prior, next, ids[..n], t);
      UpsertIsTheEvent(repo, prior, next, id);
      forall x | x in earlier
        ensures Apart(x, e, t) && exists y :: IsUpsert(repo, prior, next, ids, x, y)
      {
        var y :| IsUpsert(repo, prior, next, ids[..n], x, y);
        UpsertsApart(repo, prior, next, y, id, t);
        assert IsUpsert(repo, prior, next, ids, x, y);
      }
      if id in Altered(prior, next) {
        assert IsUpsert(repo, prior, next, ids, e, id);
      }
    }
  }

  lemma {:induction false} RetiresAre(repo: string, prior: Inbox, next: Inbox, ids: seq<string>, t: string)
    requires Keyed(prior) && Distinct(ids) && forall id :: id in ids ==> id in prior
    ensures var events := Retires(repo, prior, next, ids);
            && (forall e :: e in events ==> exists id :: IsRetire(repo, prior, next, ids, e, id))
            && (forall id :: id in ids && id !in next ==> ResolvedEvent(repo, prior[id]) in events)
            && AllApart(events, t)
  {
    hide ResolvedEvent, Apart, Retire;
    if ids != [] {
      var n, id := |ids| - 1, ids[|ids| - 1];
      var earlier, e := Retires(repo, prior, next, ids[..n]), ResolvedEvent(repo, prior[id]);
      assert ids == ids[..n] + [id];
      RetiresAre(repo, prior, next, ids[..n], t);
      RetireIsTheEvent(repo, prior, next, id);
      forall x | x in earlier
        ensures Apart(x, e, t) && exists y :: IsRetire(repo, prior, next, ids, x, y)
      {
        var y :| IsRetire(repo, prior, next, ids[..n], x, y);
        ResolutionsApart(repo, prior, y, id, t);
        assert IsRetire(repo, prior, next, ids, x, y);
      }
      if id !in next {
        assert IsRetire(repo, prior, next, ids, e, id);
      }
    }
  }

  /** The event of the diff that speaks of this id. */
  ghost predicate IsChange(repo: string, prior: Inbox, next: Inbox, e: Event, id: string) {
    || (id in next && id in Altered(prior, next) && e == UpsertEvent(repo, prior, next, id))
    || (id in prior && id !in next && e == ResolvedEvent(repo, prior[id]))
  }

  /** What the events of a diff are: one upsert for each altered id and one resolution for each
      dropped one, none in another's way. */
  lemma DiffIs(repo: string, prior: Inbox, next: Inbox, t: string)
    requires Keyed(prior) && Keyed(next)
    ensures var events := Diff(repo, prior, next);
            && (forall e :: e in events ==> exists id :: IsChange(repo, prior, next, e, id))
            && (forall id :: id in next && id in Altered(prior, next) ==> UpsertEvent(repo, prior, next, id) in events)
            && (forall id :: id in prior && id !in next ==> ResolvedEvent(repo, prior[id]) in events)
            && AllApart(events, t)
  {
    hide UpsertEvent, ResolvedEvent, Apart, AllApart, Altered, Upserts, Retires, InOrder, Distinct, Keyed;
    OrderedIsDistinct(next.Keys);
    OrderedIsDistinct(prior.Keys);
    UpsertsAre(repo, prior, next, InOrder(next.Keys), t);
    RetiresAre(repo, prior, next, InOrder(prior.Keys), t);
    var a, b := Upserts(repo, prior, next, InOrder(next.Keys)), Retires(repo, prior, next, InOrder(prior.Keys));
    forall x, y | x in a && y in b ensures Apart(x, y, t) {
      var id :| IsUpsert(repo, prior, next, InOrder(next.Keys), x, id);
      var id' :| IsRetire(repo, prior, next, InOrder(prior.Keys), y, id');
      UpsertApartFromResolution(repo, prior, next, id, id', t);
    }
    JoinedApart(a, b, t);
    forall e | e in a + b ensures exists id :: IsChange(repo, prior, next, e, id) {
      if e in a {
        var id :| IsUpsert(repo, prior, next, InOrder(next.Keys), e, id);
        assert IsChange(repo, prior, next, e, id);
      } else {
        var id :| IsRetire(repo, prior, next, InOrder(prior.Keys), e, id);
        assert IsChange(repo, prior, next, e, id);
      }
    }
  }

  lemma JoinedApart(a: seq<Event>, b: seq<Event>, t: string)
    requires AllApart(a, t) && AllApart(b, t) && forall x, y :: x in a && y in b ==> Apart(x, y, t)
    ensures AllApart(a + b, t)
  {
    hide Apart;
    forall i, j | 0 <= i < j < |a + b| ensures Apart((a + b)[i], (a + b)[j], t) {
      if j < |a| {
        assert Apart(a[i], a[j], t);
      } else if i >= |a| {
        assert Apart(b[i - |a|], b[j - |a|], t);
      } else {
        assert a[i] in a && b[j - |a|] in b;
      }
    }
  }

  /** The store lets every change through: no altered item's event, and no dropped item's
      resolution, is refused. */
  predicate Undisturbed(repo: string, rows: seq<Event>, next: Inbox, t: string) {
    var prior := Prior(repo, rows);
    && (forall id :: id in next && id in Altered(prior, next) ==> Takes(rows, UpsertEvent(repo, prior, next, id), t))
    && (forall id :: id in prior && id !in next ==> Takes(rows, ResolvedEvent(repo, prior[id]), t))
  }

  lemma PriorIsKeyed(repo: string, rows: seq<Event>)
    ensures Keyed(Prior(repo, rows))
  {
    MaterializedIsKeyed(rows);
  }

  /** An ingest runs to its end exactly when the log before it lets every change through: what
      it appends on the way is in the way of nothing later. */
  lemma IngestEndsFineIff(repo: string, rows: seq<Event>, next: seq<Item>, t: string)
    ensures Ingested(repo, rows, next, t).status == Fine <==> Undisturbed(repo, rows, ById(next), t)
  {
    hide Takes, Apart, Altered, UpsertEvent, ResolvedEvent, Diff, Prior, ById, InOrder;
    var prior, target := Prior(repo, rows), ById(next);
    PriorIsKeyed(repo, rows);
    ByIdIsKeyed(next);
    DiffIs(repo, prior, target, t);
    EndsFineIff(Progress(rows, 0, Fine), Diff(repo, prior, target), t);
    var events := Diff(repo, prior, target);
    if Undisturbed(repo, rows, target, t) {
      forall i | 0 <= i < |events| ensures Takes(rows, events[i], t) {
        assert events[i] in events;
      }
    }
    if forall i :: 0 <= i < |events| ==> Takes(rows, events[i], t) {
      assert forall e :: e in events ==> Takes(rows, e, t);
    }
  }

  // ----- When the inbox is the snapshot ------------------------------------

  /** What an ingest that ran to its end did to the stored inbox: of the altered items those
      whose event was new to the store took their new form, the others stayed as they were,
      and every item of this repository that the snapshot dropped is gone. */
  lemma IngestEffect(repo: string, rows: seq<Event>, next: seq<Item>, observedAt: string)
    requires Undisturbed(repo, rows, ById(next), observedAt)
    ensures var whole, prior, target := Materialized(rows), Prior(repo, rows), ById(next);
            Materialized(Ingested(repo, rows, next, observedAt).rows)
            == Overwritten(whole, target, Landing(repo, rows, prior, target)) - Gone(prior, target)
  {
    hide Materialized, InOrder, Elements, Upserts, Retires, Overwritten, Landing, OfferAll, Undisturbed, Distinct;
    IngestEndsFineIff(repo, rows, next, observedAt);
    var whole, prior, target := Materialized(rows), Prior(repo, rows), ById(next);
    var start, ids, olds := Progress(rows, 0, Fine), InOrder(target.Keys), InOrder(prior.Keys);
    ByIdIsKeyed(next);
    MaterializedIsKeyed(rows);
    OrderedElements(target.Keys);
    OrderedElements(prior.Keys);
    OrderedIsDistinct(target.Keys);
    OfferAllSplits(start, Upserts(repo, prior, target, ids), Retires(repo, prior, target, olds), observedAt);
    var middle := OfferAll(start, Upserts(repo, prior, target, ids), observedAt);
    if middle.status != Fine {
      FailureStays(middle, Retires(repo, prior, target, olds), observedAt);
    }
    UpsertsOffered(repo, rows, prior, target, ids, observedAt);
    RetiresOffered(repo, middle, prior, target, olds, observedAt);
    LandingIsOfNext(repo, rows, prior, target);
  }

  lemma LandingIsOfNext(repo: string, rows: seq<Event>, prior: Inbox, next: Inbox)
    ensures next.Keys * Landing(repo, rows, prior, next) == Landing(repo, rows, prior, next)
  {
    hide UpsertEvent, HasRowOf, Altered;
  }

  /** Whether the store holds an altered item's event already, so that it is swallowed. */
  predicate Swallowed(repo: string, rows: seq<Event>, next: Inbox, id: string)
    requires id in next
  {
    var prior := Prior(repo, rows);
    id in Altered(prior, next) && HasRowOf(rows, UpsertEvent(repo, prior, next, id))
  }

  /** The stored inbox is the snapshot after an ingest exactly when no event of an item that
      the inbox lacks or shows differently is swallowed, and every item the snapshot dropped
      named this repository. */
  lemma InboxIsTheSnapshotIff(repo: string, rows: seq<Event>, next: seq<Item>, observedAt: string)
    requires Undisturbed(repo, rows, ById(next), observedAt)
    ensures var whole, target := Materialized(rows), ById(next);
            Materialized(Ingested(repo, rows, next, observedAt).rows) == target
            <==>
            && (forall id :: id in target && !(id in whole && whole[id] == target[id]) ==> !Swallowed(repo, rows, target, id))
            && (forall id :: id in whole && id !in target ==> whole[id].sourceRef.repo == repo)
  {
    hide Materialized, UpsertEvent, HasRowOf, Ingested, ById, Undisturbed;
    var whole, prior, target := Materialized(rows), Prior(repo, rows), ById(next);
    var landing := Landing(repo, rows, prior, target);
    IngestEffect(repo, rows, next, observedAt);
    var after := Overwritten(whole, target, landing) - Gone(prior, target);
    forall id | id in target
      ensures (id in after && after[id] == target[id])
              <==> (id in whole && whole[id] == target[id]) || !Swallowed(repo, rows, target, id)
    {
    }
    forall id | id in whole && id !in target
      ensures id !in after <==> whole[id].sourceRef.repo == repo
    {
    }
    assert after.Keys <= whole.Keys + target.Keys;
    assert after == target <==> (forall id :: id in target ==> id in after && after[id] == target[id])
                                && (forall id :: id in whole && id !in target ==> id !in after);
  }

  // ----- Items an ingest leaves alone --------------------------------------

  /** A row the ingest added for one event of its diff. */
  ghost predicate CameFrom(rows: seq<Event>, row: Event, e: Event, t: string) {
    && Takes(rows, e, t)
    && ((row == e && !HasBlocker(rows, e)) || (IsResolution(e) && row == Disambiguated(e, t)))
  }

  lemma OfferedRow(p: Progress, e: Event, t: string)
    requires p.status == Fine
    ensures var after := Offer(p, e, t).rows;
            after == p.rows || exists row :: after == p.rows + [row] && CameFrom(p.rows, row, e, t)
  {
    hide HasBlocker, HasRowOf, Disambiguated;
    var after := Offer(p, e, t).rows;
    if after == p.rows + [e] && !HasBlocker(p.rows, e) {
      assert CameFrom(p.rows, e, e, t);
    } else if after == p.rows + [Disambiguated(e, t)] && IsResolution(e) && Takes(p.rows, e, t) {
      assert CameFrom(p.rows, Disambiguated(e, t), e, t);
    }
  }

  lemma BlockersStay(rows: seq<Event>, longer: seq<Event>, e: Event)
    requires rows <= longer && HasBlocker(rows, e)
    ensures HasBlocker(longer, e)
  {
    hide Event.Blocks;
    var i :| 0 <= i < |rows| && rows[i].Blocks(e);
    assert longer[i].Blocks(e);
  }

  ghost predicate Accounted(rows: seq<Event>, row: Event, events: seq<Event>, t: string) {
    exists i :: 0 <= i < |events| && CameFrom(rows, row, events[i], t)
  }

  /** Every row an ingest adds is an event of its diff that the log before let through. */
  lemma {:induction false} RowsAreAccounted(rows: seq<Event>, events: seq<Event>, t: string)
    requires AllApart(events, t)
    ensures var after := OfferAll(Progress(rows, 0, Fine), events, t).rows;
            && rows <= after
            && forall k :: |rows| <= k < |after| ==> Accounted(rows, after[k], events, t)
  {
    hide Offer, Takes, Apart, CameFrom, HasBlocker;
    if events != [] {
      var n := |events| - 1;
      var p := Progress(rows, 0, Fine);
      var before := OfferAll(p, events[..n], t);
      RowsAreAccounted(rows, events[..n], t);
      forall k | |rows| <= k < |before.rows| ensures Accounted(rows, before.rows[k], events, t) {
        var i :| 0 <= i < n && CameFrom(rows, before.rows[k], events[..n][i], t);
        assert CameFrom(rows, before.rows[k], events[i], t);
      }
      if before.status == Fine {
        OfferAllLeaves(p, events[..n], events[n], t);
        OfferedRow(before, events[n], t);
        var after := Offer(before, events[n], t).rows;
        if row :| after == before.rows + [row] && CameFrom(before.rows, row, events[n], t) {
          EarlierLogTakesIt(rows, before.rows, row, events[n], t);
          assert Accounted(rows, row, events, t);
        }
      }
    }
  }

  lemma EarlierLogTakesIt(rows: seq<Event>, longer: seq<Event>, row: Event, e: Event, t: string)
    requires rows <= longer && CameFrom(longer, row, e, t) && (Takes(longer, e, t) <==> Takes(rows, e, t))
    ensures CameFrom(rows, row, e, t)
  {
    hide Takes, HasBlocker, Disambiguated;
    if HasBlocker(rows, e) {
      BlockersStay(rows, longer, e);
    }
  }

  ghost predicate Silent(row: Event, id: string) {
    row.payload.AttentionChange? ==> row.payload.change.Subject() != id
  }

  lemma {:induction false} SilentRowsChangeNothing(rows: seq<Event>, more: seq<Event>, id: string)
    requires forall k :: 0 <= k < |more| ==> Silent(more[k], id)
    ensures id in Materialized(rows + more) <==> id in Materialized(rows)
    ensures id in Materialized(rows) ==> Materialized(rows + more)[id] == Materialized(rows)[id]
  {
    hide Materialized;
    if more == [] {
      assert rows + more == rows;
    } else {
      var n := |more| - 1;
      SilentRowsChangeNothing(rows, more[..n], id);
      assert Silent(more[n], id);
      MaterializedOneMore(rows + more[..n], more[n]);
      assert rows + more == rows + more[..n] + [more[n]];
    }
  }

  predicate Keeps(rows: seq<Event>, after: seq<Event>, id: string) {
    && (id in Materialized(after) <==> id in Materialized(rows))
    && (id in Materialized(rows) ==> Materialized(after)[id] == Materialized(rows)[id])
  }

  /** An id whose event the log before does not let through, or that has none, stays as it was,
      wherever the ingest stops. */
  lemma UntouchedIdStays(repo: string, rows: seq<Event>, next: seq<Item>, t: string, id: string)
    requires var prior, target := Prior(repo, rows), ById(next);
             forall e :: IsChange(repo, prior, target, e, id) ==>
               !Takes(rows, e, t) || (HasBlocker(rows, e) && !IsResolution(e))
    ensures Keeps(rows, Ingested(repo, rows, next, t).rows, id)
  {
    hide Takes, Apart, AllApart, Altered, UpsertEvent, ResolvedEvent, Diff, Prior, ById, InOrder, HasBlocker, Materialized,
         IsChange, OfferAll, IsResolution;
    var prior, target := Prior(repo, rows), ById(next);
    PriorIsKeyed(repo, rows);
    ByIdIsKeyed(next);
    DiffIs(repo, prior, target, t);
    var events := Diff(repo, prior, target);
    RowsAreAccounted(rows, events, t);
    var after := Ingested(repo, rows, next, t).rows;
    var more := after[|rows|..];
    assert after == rows + more;
    forall k | 0 <= k < |more| ensures Silent(more[k], id) {
      assert Accounted(rows, after[|rows| + k], events, t);
      var i :| 0 <= i < |events| && CameFrom(rows, more[k], events[i], t);
      assert events[i] in events;
      var x :| IsChange(repo, prior, target, events[i], x);
      ChangeSpeaksOf(repo, prior, target, events[i], x);
    }
    SilentRowsChangeNothing(rows, more, id);
  }

  lemma ChangeSpeaksOf(repo: string, prior: Inbox, next: Inbox, e: Event, id: string)
    requires Keyed(prior) && Keyed(next) && IsChange(repo, prior, next, e, id)
    ensures e.payload.AttentionChange? && e.payload.change.Subject() == id
  {
    hide UpsertEvent, ResolvedEvent, Altered;
    if id in next {
      UpsertIsNamed(repo, prior, next, id);
    } else {
      ResolutionIsNamed(repo, prior, id);
    }
  }

  // ----- Where the inbox goes wrong ----------------------------------------

  /** An item that comes back with content it already appeared with is not shown. */
  lemma ReappearanceIsSwallowed(repo: string, rows: seq<Event>, item: Item, next: seq<Item>, observedAt: string)
    requires item.id in ById(next) && ById(next)[item.id] == item
    requires HasRowOf(rows, AppearedEvent(repo, item)) && item.id !in Materialized(rows)
    ensures item.id !in Materialized(Ingested(repo, rows, next, observedAt).rows)
  {
    hide Materialized, Ingested, ById, HasRowOf, HasBlocker, AppearedEvent, Takes;
    RowsBlock(rows, AppearedEvent(repo, item));
    UpsertsAreNoResolutions(repo, item);
    UntouchedIdStays(repo, rows, next, observedAt, item.id);
  }

  /** An item that changes back to content it already changed to keeps the content between. */
  lemma ReturnIsSwallowed(repo: string, rows: seq<Event>, item: Item, next: seq<Item>, observedAt: string)
    requires item.id in ById(next) && ById(next)[item.id] == item
    requires item.id in Prior(repo, rows) && HasRowOf(rows, ChangedEvent(repo, item))
    ensures Keeps(rows, Ingested(repo, rows, next, observedAt).rows, item.id)
  {
    hide Materialized, Ingested, ById, HasRowOf, HasBlocker, ChangedEvent, Takes, Keeps;
    RowsBlock(rows, ChangedEvent(repo, item));
    UpsertsAreNoResolutions(repo, item);
    UntouchedIdStays(repo, rows, next, observedAt, item.id);
  }

  lemma UpsertsAreNoResolutions(repo: string, item: Item)
    ensures !IsResolution(AppearedEvent(repo, item)) && !IsResolution(ChangedEvent(repo, item))
  {
  }

  /** An item that names another repository is never resolved. */
  lemma ForeignItemStays(repo: string, rows: seq<Event>, id: string, next: seq<Item>, observedAt: string)
    requires id in Materialized(rows) && Materialized(rows)[id].sourceRef.repo != repo && id !in ById(next)
    ensures Keeps(rows, Ingested(repo, rows, next, observedAt).rows, id)
  {
    hide Materialized, Ingested, ById, HasBlocker, Takes, Keeps;
    UntouchedIdStays(repo, rows, next, observedAt, id);
  }

  /** A dropped item whose resolution and retry are both refused stays, and the ingest ends in
      an error. */
  lemma UnresolvedItemStays(repo: string, rows: seq<Event>, id: string, next: seq<Item>, observedAt: string)
    requires id in Prior(repo, rows) && id !in ById(next)
    requires !Takes(rows, ResolvedEvent(repo, Prior(repo, rows)[id]), observedAt)
    ensures Ingested(repo, rows, next, observedAt).status != Fine
    ensures Keeps(rows, Ingested(repo, rows, next, observedAt).rows, id)
  {
    hide Materialized, Ingested, ById, HasBlocker, Takes, Keeps, ResolvedEvent, Prior;
    IngestEndsFineIff(repo, rows, next, observedAt);
    UntouchedIdStays(repo, rows, next, observedAt, id);
  }
}
