/** Runs of ingests from an empty log that leave the inbox wrong. Each holds for every item of
    its kind. */
module AttentionLimits {
  import opened Ordering
  import opened Attention
  import opened EventLog
  import opened AttentionStream
  import opened AttentionIngest
  import opened AttentionInbox

  // ----- Inboxes of one item -----------------------------------------------

  lemma OneInOrder(id: string)
    ensures InOrder({}) == [] && InOrder({id}) == [id]
  {
    hide InOrder;
    var ids := InOrder({id});
    assert id in {id} && id in ids && |ids| == 1;
  }

  predicate OnlyOf(inbox: Inbox, id: string) {
    inbox == map[] || (id in inbox && inbox == map[id := inbox[id]])
  }

  lemma DiffOfOne(repo: string, prior: Inbox, next: Inbox, id: string)
    requires OnlyOf(prior, id) && OnlyOf(next, id)
    ensures Diff(repo, prior, next) == Upsert(repo, prior, next, id) + Retire(repo, prior, next, id)
  {
    hide InOrder, Upsert, Retire;
    OneInOrder(id);
    NothingPassed(repo, prior, next, id);
    assert next.Keys == {} || next.Keys == {id};
    assert prior.Keys == {} || prior.Keys == {id};
  }

  lemma NothingPassed(repo: string, prior: Inbox, next: Inbox, id: string)
    ensures Upserts(repo, prior, next, []) == [] && Retires(repo, prior, next, []) == []
    ensures Upserts(repo, prior, next, [id]) == Upsert(repo, prior, next, id)
    ensures Retires(repo, prior, next, [id]) == Retire(repo, prior, next, id)
    ensures id !in next ==> Upsert(repo, prior, next, id) == []
    ensures id !in prior ==> Retire(repo, prior, next, id) == []
  {
    assert [id][..0] == [];
    assert Upserts(repo, prior, next, [id]) == [] + Upsert(repo, prior, next, id);
    assert Retires(repo, prior, next, [id]) == [] + Retire(repo, prior, next, id);
  }

  lemma OneById(x: Item)
    ensures ById([x]) == map[x.id := x] && ById([]) == map[]
  {
    assert [x][..0] == [];
  }

  /** A log whose inbox is one item of this repository, or empty. */
  predicate Holds(repo: string, rows: seq<Event>, inbox: Inbox, id: string) {
    Materialized(rows) == inbox && OnlyOf(inbox, id) && (id in inbox ==> inbox[id].sourceRef.repo == repo)
  }

  lemma OneOffered(repo: string, rows: seq<Event>, inbox: Inbox, next: seq<Item>, id: string, e: Event, t: string)
    requires Holds(repo, rows, inbox, id) && OnlyOf(ById(next), id)
    requires Upsert(repo, inbox, ById(next), id) + Retire(repo, inbox, ById(next), id) == [e]
    ensures Ingested(repo, rows, next, t) == Offer(Progress(rows, 0, Fine), e, t)
  {
    hide Offer, Upsert, Retire, Diff, Materialized, ById;
    assert Prior(repo, rows) == inbox;
    DiffOfOne(repo, inbox, ById(next), id);
    OfferOneMore(Progress(rows, 0, Fine), [], e, t);
    assert [] + [e] == [e];
  }

  // ----- The steps ---------------------------------------------------------

  /** None of these rows is in the way of an event by this name. */
  ghost predicate Free(rows: seq<Event>, e: Event) {
    forall i :: 0 <= i < |rows| ==> !rows[i].Blocks(e)
  }

  lemma FreeLands(rows: seq<Event>, e: Event, t: string)
    requires Free(rows, e)
    ensures Offer(Progress(rows, 0, Fine), e, t) == Progress(rows + [e], 1, Fine)
  {
    hide Event.Blocks, Disambiguated;
  }

  lemma Appears(repo: string, rows: seq<Event>, x: Item, t: string)
    requires x.sourceRef.repo == repo && Holds(repo, rows, map[], x.id) && Free(rows, AppearedEvent(repo, x))
    ensures Ingested(repo, rows, [x], t) == Progress(rows + [AppearedEvent(repo, x)], 1, Fine)
    ensures Holds(repo, rows + [AppearedEvent(repo, x)], map[x.id := x], x.id)
  {
    hide Offer, Materialized, Ingested, ById, IdentityText, Free;
    OneById(x);
    OneOffered(repo, rows, map[], [x], x.id, AppearedEvent(repo, x), t);
    FreeLands(rows, AppearedEvent(repo, x), t);
    MaterializedOneMore(rows, AppearedEvent(repo, x));
  }

  lemma Changes(repo: string, rows: seq<Event>, x: Item, y: Item, t: string)
    requires x.sourceRef.repo == repo == y.sourceRef.repo && x.id == y.id && x != y
    requires Holds(repo, rows, map[x.id := x], x.id) && Free(rows, ChangedEvent(repo, y))
    ensures Ingested(repo, rows, [y], t) == Progress(rows + [ChangedEvent(repo, y)], 1, Fine)
    ensures Holds(repo, rows + [ChangedEvent(repo, y)], map[x.id := y], x.id)
  {
    hide Offer, Materialized, Ingested, ById, IdentityText, Free;
    OneById(y);
    OneOffered(repo, rows, map[x.id := x], [y], x.id, ChangedEvent(repo, y), t);
    FreeLands(rows, ChangedEvent(repo, y), t);
    MaterializedOneMore(rows, ChangedEvent(repo, y));
  }

  lemma Leaves(repo: string, rows: seq<Event>, x: Item, t: string)
    requires x.sourceRef.repo == repo && Holds(repo, rows, map[x.id := x], x.id) && Free(rows, ResolvedEvent(repo, x))
    ensures Ingested(repo, rows, [], t) == Progress(rows + [ResolvedEvent(repo, x)], 1, Fine)
    ensures Holds(repo, rows + [ResolvedEvent(repo, x)], map[], x.id)
  {
    hide Offer, Materialized, Ingested, ById, IdentityText, Free;
    OneById(x);
    OneOffered(repo, rows, map[x.id := x], [], x.id, ResolvedEvent(repo, x), t);
    FreeLands(rows, ResolvedEvent(repo, x), t);
    MaterializedOneMore(rows, ResolvedEvent(repo, x));
  }

  /** A stored upsert is let go: nothing is appended, and the ingest is content. */
  lemma StoredIsLetGo(rows: seq<Event>, e: Event, t: string)
    requires HasRowOf(rows, e) && !IsResolution(e)
    ensures Offer(Progress(rows, 0, Fine), e, t) == Progress(rows, 0, Fine)
  {
    hide HasRowOf, HasBlocker;
    RowsBlock(rows, e);
  }

  lemma OwnRow(rows: seq<Event>, i: nat, e: Event)
    requires i < |rows| && rows[i] == e && e.identity.SourceEventId().Some?
    ensures HasRowOf(rows, e)
  {
    assert rows[i].IsTheRowOf(e);
  }

  // ----- The runs ----------------------------------------------------------

  /** An item appears, is resolved, and appears again as it was: every ingest runs to its end,
      and the inbox does not show the item. */
  lemma ReappearanceIsLost(x: Item, t1: string, t2: string, t3: string)
    ensures var repo := x.sourceRef.repo;
            var p1 := Ingested(repo, [], [x], t1);
            var p2 := Ingested(repo, p1.rows, [], t2);
            var p3 := Ingested(repo, p2.rows, [x], t3);
            && p1.status == p2.status == p3.status == Fine
            && Materialized(p1.rows) == map[x.id := x]
            && Materialized(p2.rows) == map[]
            && Materialized(p3.rows) == map[]
  {
    hide Offer, Materialized, Ingested, ById, Named, AppearedEvent, ResolvedEvent, Event.Blocks, ItemVersion, ResolvedVersion;
    var repo := x.sourceRef.repo;
    var up, down := AppearedEvent(repo, x), ResolvedEvent(repo, x);
    EventNames(repo, x);
    NothingYet(repo, x.id);
    Appears(repo, [], x, t1);
    NamedApart(up, down, repo, x.id, "appeared", ItemVersion(repo, x), x.id, "resolved", ResolvedVersion(repo, x));
    assert [] + [up] == [up];
    Leaves(repo, [up], x, t2);
    var rows := [up] + [down];
    NamesHaveText(up, repo, x.id, "appeared", ItemVersion(repo, x));
    OwnRow(rows, 0, up);
    UpsertsAreNoResolutions(repo, x);
    OneById(x);
    OneOffered(repo, rows, map[], [x], x.id, up, t3);
    StoredIsLetGo(rows, up, t3);
  }

  lemma NothingYet(repo: string, id: string)
    ensures Holds(repo, [], map[], id)
  {
  }

  lemma NamesHaveText(e: Event, repo: string, id: string, tag: string, version: nat)
    requires Named(e, repo, id, tag, version)
    ensures e.identity.SourceEventId().Some?
  {
    hide IdentityText;
  }

  /** An item appears, changes, changes back, and changes again: every ingest runs to its end,
      and the inbox keeps the first content. The contents differ in their version. */
  lemma ReturnIsLost(x: Item, y: Item, t1: string, t2: string, t3: string, t4: string)
    requires x.id == y.id && x.sourceRef.repo == y.sourceRef.repo
    requires ItemVersion(x.sourceRef.repo, x) != ItemVersion(x.sourceRef.repo, y)
    ensures var repo := x.sourceRef.repo;
            var p1 := Ingested(repo, [], [x], t1);
            var p2 := Ingested(repo, p1.rows, [y], t2);
            var p3 := Ingested(repo, p2.rows, [x], t3);
            var p4 := Ingested(repo, p3.rows, [y], t4);
            && p1.status == p2.status == p3.status == p4.status == Fine
            && Materialized(p2.rows) == map[x.id := y]
            && Materialized(p3.rows) == map[x.id := x]
            && Materialized(p4.rows) == map[x.id := x]
  {
    hide Offer, Materialized, Ingested, ById, Named, AppearedEvent, ChangedEvent, Event.Blocks, ItemVersion;
    var repo, v, w := x.sourceRef.repo, ItemVersion(x.sourceRef.repo, x), ItemVersion(x.sourceRef.repo, y);
    var a, c, d := AppearedEvent(repo, x), ChangedEvent(repo, y), ChangedEvent(repo, x);
    EventNames(repo, x);
    EventNames(repo, y);
    NothingYet(repo, x.id);
    Appears(repo, [], x, t1);
    assert [] + [a] == [a];
    NamedApart(a, c, repo, x.id, "appeared", v, x.id, "changed", w);
    Changes(repo, [a], x, y, t2);
    NamedApart(a, d, repo, x.id, "appeared", v, x.id, "changed", v);
    NamedApart(c, d, repo, x.id, "changed", w, x.id, "changed", v);
    assert [a] + [c] == [a, c];
    Changes(repo, [a, c], y, x, t3);
    var rows := [a, c] + [d];
    NamesHaveText(c, repo, x.id, "changed", w);
    OwnRow(rows, 1, c);
    UpsertsAreNoResolutions(repo, y);
    OneById(y);
    OneOffered(repo, rows, map[x.id := x], [y], x.id, c, t4);
    StoredIsLetGo(rows, c, t4);
  }

  /** A log that holds an item's resolution and this ingest's retry of it, and then the item:
      the ingest that drops the item ends in the collision error, and the item stays. */
  lemma CollisionStopsTheIngest(x: Item, t: string)
    ensures var repo := x.sourceRef.repo;
            var down := ResolvedEvent(repo, x);
            var rows := [down, Disambiguated(down, t), AppearedEvent(repo, x)];
            && Ingested(repo, rows, [], t) == Progress(rows, 0, ResolveCollided)
            && Materialized(rows) == map[x.id := x]
  {
    hide Materialized, Ingested, ById, AppearedEvent, ResolvedEvent, Named, Disambiguated, ItemVersion, ResolvedVersion, HasRowOf,
         HasBlocker;
    var repo := x.sourceRef.repo;
    var up, down := AppearedEvent(repo, x), ResolvedEvent(repo, x);
    var retry := Disambiguated(down, t);
    var rows := [down, retry, up];
    EventNames(repo, x);
    var again := RetryIsNamed(down, repo, x.id, "resolved", ResolvedVersion(repo, x), t);
    NamesHaveText(down, repo, x.id, "resolved", ResolvedVersion(repo, x));
    NamesHaveText(retry, repo, Occurrence(x.id, "resolved", ResolvedVersion(repo, x)), "disambiguated", again);
    OwnRow(rows, 0, down);
    OwnRow(rows, 1, retry);
    RowsBlock(rows, down);
    RowsBlock(rows, retry);
    InboxOfThree(repo, x, retry);
    ResolvedNamesItsItem(repo, x);
    OneById(x);
    OneOffered(repo, rows, map[x.id := x], [], x.id, down, t);
  }

  lemma InboxOfThree(repo: string, x: Item, retry: Event)
    requires x.sourceRef.repo == repo && retry.payload == ResolvedEvent(repo, x).payload
    ensures Materialized([ResolvedEvent(repo, x), retry, AppearedEvent(repo, x)]) == map[x.id := x]
    ensures Holds(repo, [ResolvedEvent(repo, x), retry, AppearedEvent(repo, x)], map[x.id := x], x.id)
  {
    hide Materialized, IdentityText;
    var up, down := AppearedEvent(repo, x), ResolvedEvent(repo, x);
    NothingYet(repo, x.id);
    MaterializedOneMore([], down);
    MaterializedOneMore([] + [down], retry);
    MaterializedOneMore([] + [down] + [retry], up);
    assert [down, retry, up] == [] + [down] + [retry] + [up];
  }
}
