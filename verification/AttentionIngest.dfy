/** One ingest of the needs-attention snapshot into the deduplicating store: what lands, what
    is swallowed, and when the stored inbox is the snapshot. */
module AttentionIngest {
  import opened Text
  import opened Fnv
  import opened Ordering
  import opened Attention
  import opened EventLog
  import opened Identities
  import opened AttentionStream

  // ----- Offering the diff -------------------------------------------------

  datatype Status = Fine | StoreFailed | ResolveCollided

  datatype Progress = Progress(rows: seq<Event>, inserted: nat, status: Status)

  function TextOf(e: Event): string {
    if e.identity.SourceEventId().Some? then e.identity.SourceEventId().value else ""
  }

  /** The same event under an identity that folds in the time of the ingest. */
  function Disambiguated(e: Event, observedAt: string): Event {
    var text := TextOf(e) + ":disambiguated:" + Decimal(StreamSeq([TextOf(e), observedAt]));
    e.(identity := Verbatim("evt:" + text, Some(text)))
  }

  predicate IsResolution(e: Event) {
    e.payload.AttentionChange? && e.payload.change.Resolved?
  }

  /** Offer one event: a swallowed appearance or change is let go, a swallowed resolution is
      tried once more under a fresh identity. */
  function Offer(p: Progress, e: Event, observedAt: string): Progress {
    match AppendOutcome(p.rows, e, false)
    case Inserted => Progress(p.rows + [e], p.inserted + 1, Fine)
    case Failed => p.(status := StoreFailed)
    case Duplicate =>
      if !IsResolution(e) then p
      else
        var retry := Disambiguated(e, observedAt);
        match AppendOutcome(p.rows, retry, false)
        case Inserted => Progress(p.rows + [retry], p.inserted + 1, Fine)
        case Failed => p.(status := StoreFailed)
        case Duplicate => p.(status := ResolveCollided)
  }

  /** Offer the events in order, stopping at the first that fails. */
  function OfferAll(p: Progress, events: seq<Event>, observedAt: string): Progress {
    if events == [] then p
    else
      var before := OfferAll(p, events[..|events| - 1], observedAt);
      if before.status != Fine then before else Offer(before, events[|events| - 1], observedAt)
  }

  lemma {:induction false} OfferAllCounts(p: Progress, events: seq<Event>, observedAt: string)
    ensures var after := OfferAll(p, events, observedAt);
            p.rows <= after.rows && after.inserted - p.inserted == |after.rows| - |p.rows|
  {
    hide AppendOutcome, Disambiguated;
    if events != [] {
      OfferAllCounts(p, events[..|events| - 1], observedAt);
    }
  }

  /** The prior snapshot of one repository: what the log stands for, by the repository the
      items name. */
  function Prior(repo: string, rows: seq<Event>): Inbox {
    var whole := Materialized(rows);
    map id | id in whole && whole[id].sourceRef.repo == repo :: whole[id]
  }

  function Ingested(repo: string, rows: seq<Event>, next: seq<Item>, observedAt: string): Progress {
    OfferAll(Progress(rows, 0, Fine), Diff(repo, Prior(repo, rows), ById(next)), observedAt)
  }

  /** What an ingest reports as inserted is what it added to the log, wherever it stopped. */
  lemma InsertedIsAdded(repo: string, rows: seq<Event>, next: seq<Item>, observedAt: string)
    ensures var after := Ingested(repo, rows, next, observedAt);
            rows <= after.rows && after.inserted == |after.rows| - |rows|
  {
    hide Diff, Prior, ById, OfferAll;
    OfferAllCounts(Progress(rows, 0, Fine), Diff(repo, Prior(repo, rows), ById(next)), observedAt);
  }

  method IngestSnapshot(log: EventStore, repo: string, next: seq<Item>, observedAt: string)
    returns (inserted: nat, status: Status)
    modifies log
    ensures Progress(log.rows, inserted, status) == Ingested(repo, old(log.rows), next, observedAt)
  {
    hide Offer, Diff, InOrder, Materialized, Filtered;
    var listed := MaterializeAttentionItems(log.rows);
    var prior := OfRepository(repo, listed);
    PriorIsListed(repo, log.rows);
    var events := DiffNeedsAttention(repo, prior, next);
    inserted, status := 0, Fine;
    ghost var start := Progress(log.rows, 0, Fine);
    var i := 0;
    while i < |events| && status == Fine
      invariant 0 <= i <= |events|
      invariant Progress(log.rows, inserted, status) == OfferAll(start, events[..i], observedAt)
    {
      assert events[..i + 1][..i] == events[..i];
      inserted, status := OfferEvent(log, events[i], inserted, observedAt);
      i := i + 1;
    }
    StoppedEarly(start, events, i, observedAt);
  }

  method OfferEvent(log: EventStore, e: Event, already: nat, observedAt: string)
    returns (inserted: nat, status: Status)
    modifies log
    ensures Progress(log.rows, inserted, status) == Offer(Progress(old(log.rows), already, Fine), e, observedAt)
  {
    hide AppendOutcome, Disambiguated;
    inserted, status := already, Fine;
    var outcome := log.AppendEvent(e, false);
    if outcome == Inserted {
      inserted := inserted + 1;
    } else if outcome == Failed {
      status := StoreFailed;
    } else if IsResolution(e) {
      var again := log.AppendEvent(Disambiguated(e, observedAt), false);
      if again == Inserted {
        inserted := inserted + 1;
      } else {
        status := if again == Failed then StoreFailed else ResolveCollided;
      }
    }
  }

  /** The materialized items that name this repository. */
  method OfRepository(repo: string, items: seq<Item>) returns (kept: seq<Item>)
    ensures kept == Filtered(repo, items)
  {
    kept := [];
    for i := 0 to |items|
      invariant kept == Filtered(repo, items[..i])
    {
      assert items[..i + 1][..i] == items[..i];
      if items[i].sourceRef.repo == repo {
        kept := kept + [items[i]];
      }
    }
    assert items[..|items|] == items;
  }

  function Filtered(repo: string, items: seq<Item>): seq<Item> {
    if items == [] then []
    else
      var last := items[|items| - 1];
      Filtered(repo, items[..|items| - 1]) + if last.sourceRef.repo == repo then [last] else []
  }

  lemma {:induction false} StoppedEarly(p: Progress, events: seq<Event>, i: nat, observedAt: string)
    requires i <= |events|
    requires OfferAll(p, events[..i], observedAt).status != Fine || i == |events|
    ensures OfferAll(p, events, observedAt) == OfferAll(p, events[..i], observedAt)
  {
    hide Offer;
    if i == |events| {
      assert events[..i] == events;
    } else {
      var n := |events| - 1;
      assert events[..n][..i] == events[..i];
      StoppedEarly(p, events[..n], i, observedAt);
    }
  }

  function FilteredInbox(repo: string, inbox: Inbox, ids: set<string>): Inbox {
    map id | id in ids && id in inbox && inbox[id].sourceRef.repo == repo :: inbox[id]
  }

  lemma {:induction false} FilteredValues(repo: string, inbox: Inbox, ids: seq<string>)
    requires Keyed(inbox) && forall id :: id in ids ==> id in inbox
    ensures ById(Filtered(repo, Values(inbox, ids))) == FilteredInbox(repo, inbox, Elements(ids))
  {
    hide Values;
    if ids == [] {
      NoValues(inbox);
    } else {
      var n := |ids| - 1;
      FilteredValues(repo, inbox, ids[..n]);
      ValuesGrow(inbox, ids);
      var earlier, item := Values(inbox, ids[..n]), inbox[ids[n]];
      assert (earlier + [item])[..|earlier|] == earlier;
      IndexOneMore(Filtered(repo, earlier), item);
      FilterOneMore(repo, inbox, Elements(ids[..n]), ids[n]);
    }
  }

  lemma NoValues(inbox: Inbox)
    ensures Values(inbox, []) == []
  {
  }

  lemma IndexOneMore(items: seq<Item>, item: Item)
    ensures ById(items + [item]) == ById(items)[item.id := item]
    ensures ById(items + []) == ById(items)
  {
    assert (items + [item])[..|items|] == items;
    assert items + [] == items;
  }

  lemma FilterOneMore(repo: string, inbox: Inbox, ids: set<string>, id: string)
    requires id in inbox
    ensures FilteredInbox(repo, inbox, ids + {id})
            == if inbox[id].sourceRef.repo == repo then FilteredInbox(repo, inbox, ids)[id := inbox[id]]
               else FilteredInbox(repo, inbox, ids)
  {
  }

  lemma PriorIsListed(repo: string, rows: seq<Event>)
    ensures ById(Filtered(repo, Listed(Materialized(rows)))) == Prior(repo, rows)
  {
    hide InOrder, Materialized, Filtered, Values, ById;
    var whole := Materialized(rows);
    MaterializedIsKeyed(rows);
    OrderedElements(whole.Keys);
    FilteredValues(repo, whole, InOrder(whole.Keys));
  }

  // ----- Identity texts ----------------------------------------------------

  /** An identity text gives back its id, tag and version. */
  lemma TextsAreDistinct(repo: string, id: string, tag: string, version: nat, id': string, tag': string, version': nat)
    requires ':' !in tag && ':' !in tag'
    requires IdentityText(repo, id, tag, version) == IdentityText(repo, id', tag', version')
    ensures id == id' && tag == tag' && version == version'
  {
    var p := NAME + ":" + repo + ":";
    DecimalReadsBack(version);
    DecimalReadsBack(version');
    DigitsBeginAtSeparator(p + id + ":" + tag, Decimal(version), p + id' + ":" + tag', Decimal(version'));
    LastColon(p + id, tag, p + id', tag');
    PrefixCancels(p, id, id');
  }

  lemma DisambiguatedText(repo: string, id: string, tag: string, version: nat, again: nat)
    ensures IdentityText(repo, id, tag, version) + ":disambiguated:" + Decimal(again)
            == IdentityText(repo, id + ":" + tag + ":" + Decimal(version), "disambiguated", again)
  {
    hide Decimal;
    var p, again' := NAME + ":" + repo + ":", Decimal(again);
    Regrouped(p, id, ":" + tag + ":" + Decimal(version), ":disambiguated:" + again');
    assert ":disambiguated:" == ":" + "disambiguated" + ":";
  }

  lemma Regrouped(a: string, b: string, c: string, d: string)
    ensures a + b + c + d == a + (b + c) + d
  {
  }

  // ----- What an ingest does to the inbox ----------------------------------

  lemma {:induction false} OfferAllSplits(p: Progress, a: seq<Event>, b: seq<Event>, observedAt: string)
    ensures OfferAll(p, a + b, observedAt) == OfferAll(OfferAll(p, a, observedAt), b, observedAt)
  {
    hide Offer;
    if b == [] {
      assert a + b == a;
    } else {
      var n := |b| - 1;
      OfferAllSplits(p, a, b[..n], observedAt);
      assert (a + b)[..|a| + n] == a + b[..n];
    }
  }

  lemma OfferOneMore(p: Progress, events: seq<Event>, e: Event, observedAt: string)
    ensures OfferAll(p, events + [], observedAt) == OfferAll(p, events, observedAt)
    ensures OfferAll(p, events + [e], observedAt)
            == var before := OfferAll(p, events, observedAt);
               if before.status != Fine then before else Offer(before, e, observedAt)
  {
    hide Offer;
    assert events + [] == events;
    assert (events + [e])[..|events|] == events;
  }

  function UpsertEvent(repo: string, prior: Inbox, next: Inbox, id: string): Event
    requires id in next
  {
    if id in prior then ChangedEvent(repo, next[id]) else AppearedEvent(repo, next[id])
  }

  /** The altered ids whose event the store does not hold yet. */
  function Landing(repo: string, rows: seq<Event>, prior: Inbox, next: Inbox): set<string> {
    set id | id in next && id in Altered(prior, next) && !HasRowOf(rows, UpsertEvent(repo, prior, next, id))
  }

  lemma RowOfOneMore(rows: seq<Event>, row: Event, e: Event)
    ensures HasRowOf(rows + [row], e) <==> HasRowOf(rows, e) || row.IsTheRowOf(e)
  {
    hide Event.IsTheRowOf;
    if row.IsTheRowOf(e) {
      assert (rows + [row])[|rows|].IsTheRowOf(e);
    }
    if HasRowOf(rows, e) {
      var i :| 0 <= i < |rows| && rows[i].IsTheRowOf(e);
      assert (rows + [row])[i].IsTheRowOf(e);
    }
  }

  lemma UpsertsOfTwoItems(repo: string, prior: Inbox, next: Inbox, id: string, id': string)
    requires id in next && id' in next && Keyed(next) && id != id'
    ensures !UpsertEvent(repo, prior, next, id).IsTheRowOf(UpsertEvent(repo, prior, next, id'))
  {
    hide IdentityText;
    var tag, tag' := if id in prior then "changed" else "appeared", if id' in prior then "changed" else "appeared";
    if UpsertEvent(repo, prior, next, id).IsTheRowOf(UpsertEvent(repo, prior, next, id')) {
      TextsAreDistinct(repo, id, tag, ItemVersion(repo, next[id]), id', tag', ItemVersion(repo, next[id']));
    }
  }

  lemma UpsertIsTheEvent(repo: string, prior: Inbox, next: Inbox, id: string)
    requires id in next && Keyed(next)
    ensures Upsert(repo, prior, next, id)
            == if id in Altered(prior, next) then [UpsertEvent(repo, prior, next, id)] else []
    ensures var e := UpsertEvent(repo, prior, next, id);
            && !IsResolution(e)
            && forall inbox: Inbox :: Apply(inbox, e) == inbox[id := next[id]]
  {
    hide IdentityText;
  }

  lemma MaterializedOneMore(rows: seq<Event>, e: Event)
    ensures Materialized(rows + [e]) == Apply(Materialized(rows), e)
  {
    hide Apply;
    assert (rows + [e])[..|rows|] == rows;
  }

  /** The store's two answers to an event it does not fail. */
  lemma OfferedUpsert(p: Progress, e: Event, observedAt: string)
    requires !IsResolution(e) && Offer(p, e, observedAt).status == Fine && p.status == Fine
    ensures Offer(p, e, observedAt).rows == if HasRowOf(p.rows, e) then p.rows else p.rows + [e]
  {
    hide Event.IsTheRowOf;
    if HasRowOf(p.rows, e) {
      var i :| 0 <= i < |p.rows| && p.rows[i].IsTheRowOf(e);
      assert p.rows[i].Blocks(e);
    }
  }

  lemma {:induction false} UpsertsOffered(
      repo: string, rows: seq<Event>, prior: Inbox, next: Inbox, ids: seq<string>, observedAt: string)
    requires Keyed(next) && Distinct(ids) && Elements(ids) <= next.Keys
    requires OfferAll(Progress(rows, 0, Fine), Upserts(repo, prior, next, ids), observedAt).status == Fine
    ensures var after := OfferAll(Progress(rows, 0, Fine), Upserts(repo, prior, next, ids), observedAt);
            && Materialized(after.rows)
               == Overwritten(Materialized(rows), next, Elements(ids) * Landing(repo, rows, prior, next))
            && forall id :: id in next && id !in Elements(ids) ==>
                 (HasRowOf(after.rows, UpsertEvent(repo, prior, next, id))
                  <==> HasRowOf(rows, UpsertEvent(repo, prior, next, id)))
  {
    hide Upsert, UpsertEvent, Distinct, Landing, Altered, Materialized, HasRowOf, Offer, Event.IsTheRowOf, Overwritten;
    var p := Progress(rows, 0, Fine);
    if ids == [] {
      NothingOverwritten(Materialized(rows), next, Landing(repo, rows, prior, next));
    } else {
      var n, id := |ids| - 1, ids[|ids| - 1];
      var earlier, e := Upserts(repo, prior, next, ids[..n]), UpsertEvent(repo, prior, next, id);
      LastIsNew(ids);
      UpsertIsTheEvent(repo, prior, next, id);
      OfferOneMore(p, earlier, e, observedAt);
      UpsertsOffered(repo, rows, prior, next, ids[..n], observedAt);
      UpsertOffered(repo, rows, prior, next, Elements(ids[..n]), id, OfferAll(p, earlier, observedAt), observedAt);
    }
  }

  lemma NothingOverwritten(whole: Inbox, next: Inbox, ids: set<string>)
    ensures Overwritten(whole, next, {} * ids) == whole
  {
  }

  /** One more id of the pass over the new snapshot. */
  lemma UpsertOffered(repo: string, rows: seq<Event>, prior: Inbox, next: Inbox, done: set<string>, id: string,
                      before: Progress, observedAt: string)
    requires Keyed(next) && id in next && id !in done && before.status == Fine
    requires Materialized(before.rows)
             == Overwritten(Materialized(rows), next, done * Landing(repo, rows, prior, next))
    requires forall x :: x in next && x !in done ==>
      (HasRowOf(before.rows, UpsertEvent(repo, prior, next, x)) <==> HasRowOf(rows, UpsertEvent(repo, prior, next, x)))
    requires var e := UpsertEvent(repo, prior, next, id);
             id in Altered(prior, next) ==> Offer(before, e, observedAt).status == Fine
    ensures var e := UpsertEvent(repo, prior, next, id);
            var after := if id in Altered(prior, next) then Offer(before, e, observedAt) else before;
            && Materialized(after.rows)
               == Overwritten(Materialized(rows), next, (done + {id}) * Landing(repo, rows, prior, next))
            && forall x :: x in next && x !in done + {id} ==>
                 (HasRowOf(after.rows, UpsertEvent(repo, prior, next, x))
                  <==> HasRowOf(rows, UpsertEvent(repo, prior, next, x)))
  {
    hide UpsertEvent, Altered, Materialized, HasRowOf, Offer, Event.IsTheRowOf, Overwritten;
    var landing := Landing(repo, rows, prior, next);
    if id in landing {
      assert (done + {id}) * landing == done * landing + {id};
    } else {
      assert (done + {id}) * landing == done * landing;
    }
    if id in Altered(prior, next) {
      var e := UpsertEvent(repo, prior, next, id);
      UpsertIsTheEvent(repo, prior, next, id);
      OfferedUpsert(before, e, observedAt);
      MaterializedOneMore(before.rows, e);
      OverwriteOne(Materialized(rows), next, done * landing, id);
      forall x | x in next && x !in done + {id}
        ensures HasRowOf(before.rows + [e], UpsertEvent(repo, prior, next, x))
                <==> HasRowOf(before.rows, UpsertEvent(repo, prior, next, x))
      {
        RowOfOneMore(before.rows, e, UpsertEvent(repo, prior, next, x));
        UpsertsOfTwoItems(repo, prior, next, id, x);
      }
    }
  }

  lemma OfferedResolution(p: Progress, e: Event, observedAt: string)
    requires IsResolution(e) && p.status == Fine && Offer(p, e, observedAt).status == Fine
    ensures Materialized(Offer(p, e, observedAt).rows) == Materialized(p.rows) - {e.payload.change.id}
  {
    hide AppendOutcome, TextOf, Materialized;
    MaterializedOneMore(p.rows, e);
    MaterializedOneMore(p.rows, Disambiguated(e, observedAt));
  }

  lemma ResolvedNamesItsItem(repo: string, item: Item)
    ensures var e := ResolvedEvent(repo, item);
            IsResolution(e) && e.payload == AttentionChange(Resolved(item.id))
  {
  }

  lemma {:induction false} RetiresOffered(
      repo: string, p: Progress, prior: Inbox, next: Inbox, ids: seq<string>, observedAt: string)
    requires Keyed(prior) && Elements(ids) <= prior.Keys && p.status == Fine
    requires OfferAll(p, Retires(repo, prior, next, ids), observedAt).status == Fine
    ensures Materialized(OfferAll(p, Retires(repo, prior, next, ids), observedAt).rows)
            == Materialized(p.rows) - (Elements(ids) - next.Keys)
  {
    hide Materialized, Offer, Retire;
    if ids != [] {
      var n, id := |ids| - 1, ids[|ids| - 1];
      var earlier, e := Retires(repo, prior, next, ids[..n]), ResolvedEvent(repo, prior[id]);
      RetireIsTheEvent(repo, prior, next, id);
      OfferOneMore(p, earlier, e, observedAt);
      RetiresOffered(repo, p, prior, next, ids[..n], observedAt);
      RetireOffered(repo, p.rows, prior, next, Elements(ids[..n]), id, OfferAll(p, earlier, observedAt), observedAt);
    }
  }

  lemma RetireIsTheEvent(repo: string, prior: Inbox, next: Inbox, id: string)
    requires id in prior
    ensures Retire(repo, prior, next, id) == if id in next then [] else [ResolvedEvent(repo, prior[id])]
  {
    hide ResolvedEvent;
  }

  /** One more id of the pass over the prior snapshot. */
  lemma RetireOffered(repo: string, rows: seq<Event>, prior: Inbox, next: Inbox, done: set<string>, id: string,
                      before: Progress, observedAt: string)
    requires id in prior && prior[id].id == id && before.status == Fine
    requires Materialized(before.rows) == Materialized(rows) - (done - next.Keys)
    requires id !in next ==> Offer(before, ResolvedEvent(repo, prior[id]), observedAt).status == Fine
    ensures var after := if id in next then before else Offer(before, ResolvedEvent(repo, prior[id]), observedAt);
            Materialized(after.rows) == Materialized(rows) - (done + {id} - next.Keys)
  {
    hide Materialized, Offer, ResolvedEvent, IsResolution;
    if id in next {
      assert done + {id} - next.Keys == done - next.Keys;
    } else {
      ResolvedNamesItsItem(repo, prior[id]);
      OfferedResolution(before, ResolvedEvent(repo, prior[id]), observedAt);
      assert done + {id} - next.Keys == (done - next.Keys) + {id};
    }
  }

  lemma {:induction false} FailureStays(p: Progress, events: seq<Event>, observedAt: string)
    requires p.status != Fine
    ensures OfferAll(p, events, observedAt) == p
  {
    hide Offer;
    if events != [] {
      FailureStays(p, events[..|events| - 1], observedAt);
    }
  }
}
