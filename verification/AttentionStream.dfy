/** The needs-attention stream: an inbox is stored as the changes between snapshots, and
    read back by replaying them. */
module AttentionStream {
  import opened Text
  import opened Encoding
  import opened Fnv
  import opened Ordering
  import opened Attention
  import opened EventLog

  const NAME := "needs-attention"

  type Inbox = map<string, Item>

  // ----- Replaying ---------------------------------------------------------

  function Apply(inbox: Inbox, e: Event): Inbox {
    match e.payload
    case AttentionChange(Appeared(item)) => inbox[item.id := item]
    case AttentionChange(Changed(item)) => inbox[item.id := item]
    case AttentionChange(Resolved(id)) => inbox - {id}
    case _ => inbox
  }

  function ApplyAll(inbox: Inbox, events: seq<Event>): Inbox {
    if events == [] then inbox
    else Apply(ApplyAll(inbox, events[..|events| - 1]), events[|events| - 1])
  }

  /** The inbox a log stands for. */
  function Materialized(rows: seq<Event>): Inbox {
    ApplyAll(map[], rows)
  }

  function Values(inbox: Inbox, ids: seq<string>): seq<Item>
    requires forall id :: id in ids ==> id in inbox
  {
    if ids == [] then [] else [inbox[ids[0]]] + Values(inbox, ids[1..])
  }

  /** The items of an inbox, ordered by id. */
  function Listed(inbox: Inbox): seq<Item> {
    Values(inbox, InOrder(inbox.Keys))
  }

  method MaterializeAttentionItems(rows: seq<Event>) returns (items: seq<Item>)
    ensures items == Listed(Materialized(rows))
  {
    var latest: Inbox := map[];
    for i := 0 to |rows|
      invariant latest == Materialized(rows[..i])
    {
      assert rows[..i + 1][..i] == rows[..i];
      match rows[i].payload
      case AttentionChange(Appeared(item)) => latest := latest[item.id := item];
      case AttentionChange(Changed(item)) => latest := latest[item.id := item];
      case AttentionChange(Resolved(id)) => latest := latest - {id};
      case _ =>
    }
    assert rows[..|rows|] == rows;
    items := Listed(latest);
  }

  // ----- Diffing -----------------------------------------------------------

  /** A list of items by id: the last of an id wins. */
  function ById(items: seq<Item>): Inbox {
    if items == [] then map[]
    else ById(items[..|items| - 1])[items[|items| - 1].id := items[|items| - 1]]
  }

  function IdentityText(repo: string, id: string, tag: string, version: nat): string {
    NAME + ":" + repo + ":" + id + ":" + tag + ":" + Decimal(version)
  }

  function StreamEvent(text: string, change: Change): Event {
    Event(NAME, Verbatim("evt:" + text, Some(text)), AttentionChange(change))
  }

  function AppearedEvent(repo: string, item: Item): Event {
    StreamEvent(IdentityText(repo, item.id, "appeared", ItemVersion(repo, item)), Appeared(item))
  }

  function ChangedEvent(repo: string, item: Item): Event {
    StreamEvent(IdentityText(repo, item.id, "changed", ItemVersion(repo, item)), Changed(item))
  }

  function ResolvedParts(repo: string, item: Item): seq<string> {
    [repo, item.id, "resolved", Decimal(ItemVersion(repo, item))]
  }

  /** A resolution is identified by the occurrence it retires. */
  function ResolvedVersion(repo: string, item: Item): U64 {
    StreamSeq(ResolvedParts(repo, item))
  }

  function ResolvedEvent(repo: string, item: Item): Event {
    StreamEvent(IdentityText(repo, item.id, "resolved", ResolvedVersion(repo, item)), Resolved(item.id))
  }

  /** What the diff says of an id of the new snapshot. */
  function Upsert(repo: string, prior: Inbox, next: Inbox, id: string): seq<Event> {
    if id !in next then []
    else if id !in prior then [AppearedEvent(repo, next[id])]
    else if prior[id] != next[id] then [ChangedEvent(repo, next[id])]
    else []
  }

  /** What the diff says of an id of the prior snapshot. */
  function Retire(repo: string, prior: Inbox, next: Inbox, id: string): seq<Event> {
    if id in prior && id !in next then [ResolvedEvent(repo, prior[id])] else []
  }

  function Upserts(repo: string, prior: Inbox, next: Inbox, ids: seq<string>): seq<Event> {
    if ids == [] then []
    else Upserts(repo, prior, next, ids[..|ids| - 1]) + Upsert(repo, prior, next, ids[|ids| - 1])
  }

  function Retires(repo: string, prior: Inbox, next: Inbox, ids: seq<string>): seq<Event> {
    if ids == [] then []
    else Retires(repo, prior, next, ids[..|ids| - 1]) + Retire(repo, prior, next, ids[|ids| - 1])
  }

  /** Appeared and changed over the new snapshot, then resolved over the prior one, each in
      order of id. */
  function Diff(repo: string, prior: Inbox, next: Inbox): seq<Event> {
    Upserts(repo, prior, next, InOrder(next.Keys)) + Retires(repo, prior, next, InOrder(prior.Keys))
  }

  method IndexById(items: seq<Item>) returns (inbox: Inbox)
    ensures inbox == ById(items)
  {
    inbox := map[];
    for i := 0 to |items|
      invariant inbox == ById(items[..i])
    {
      assert items[..i + 1][..i] == items[..i];
      inbox := inbox[items[i].id := items[i]];
    }
    assert items[..|items|] == items;
  }

  method DiffNeedsAttention(repo: string, prior: seq<Item>, next: seq<Item>) returns (events: seq<Event>)
    ensures events == Diff(repo, ById(prior), ById(next))
  {
    hide InOrder, ById, Upserts, Retires;
    var priorById := IndexById(prior);
    var nextById := IndexById(next);
    var upserts := UpsertEvents(repo, priorById, nextById);
    var retires := RetireEvents(repo, priorById, nextById);
    events := upserts + retires;
  }

  /** The pass over the new snapshot. */
  method UpsertEvents(repo: string, prior: Inbox, next: Inbox) returns (events: seq<Event>)
    ensures events == Upserts(repo, prior, next, InOrder(next.Keys))
  {
    hide AppearedEvent, ChangedEvent, InOrder;
    events := [];
    var ids := InOrder(next.Keys);
    for i := 0 to |ids|
      invariant events == Upserts(repo, prior, next, ids[..i])
    {
      assert ids[..i + 1][..i] == ids[..i];
      if ids[i] !in prior {
        events := events + [AppearedEvent(repo, next[ids[i]])];
      } else if prior[ids[i]] != next[ids[i]] {
        events := events + [ChangedEvent(repo, next[ids[i]])];
      }
    }
    assert ids[..|ids|] == ids;
  }

  /** The pass over the prior one. */
  method RetireEvents(repo: string, prior: Inbox, next: Inbox) returns (events: seq<Event>)
    ensures events == Retires(repo, prior, next, InOrder(prior.Keys))
  {
    hide ResolvedEvent, InOrder;
    events := [];
    var ids := InOrder(prior.Keys);
    for i := 0 to |ids|
      invariant events == Retires(repo, prior, next, ids[..i])
    {
      assert ids[..i + 1][..i] == ids[..i];
      if ids[i] !in next {
        events := events + [ResolvedEvent(repo, prior[ids[i]])];
      }
    }
    assert ids[..|ids|] == ids;
  }

  /** A resolution is named after the occurrence it retires: up to hash collisions, two of them
      share an identity exactly when they retire the same content of the same item. */
  lemma ResolutionNamesTheOccurrence(repo: string, x: Item, y: Item)
    requires NoCollision(repo, x, y)
    requires ResolvedVersion(repo, x) == ResolvedVersion(repo, y) ==>
      LengthPrefixedAll(ResolvedParts(repo, x)) == LengthPrefixedAll(ResolvedParts(repo, y))
    ensures ResolvedVersion(repo, x) == ResolvedVersion(repo, y) <==> SameContent(x, y)
  {
    hide NoCollision, SameText, ItemVersion;
    VersionIdentifiesContent(repo, x, y);
    if ResolvedVersion(repo, x) == ResolvedVersion(repo, y) {
      var p, q := ResolvedParts(repo, x), ResolvedParts(repo, y);
      LengthPrefixedAllIsInjective(p, q);
      assert p[3] == q[3];
      DecimalIsInjective(ItemVersion(repo, x), ItemVersion(repo, y));
    }
    if SameContent(x, y) {
      assert ResolvedParts(repo, x) == ResolvedParts(repo, y);
    }
  }

  // ----- Diff and replay undo each other -----------------------------------

  /** Every item sits under its own id. */
  predicate Keyed(inbox: Inbox) {
    forall id :: id in inbox ==> inbox[id].id == id
  }

  lemma {:induction false} ByIdIsKeyed(items: seq<Item>)
    ensures Keyed(ById(items))
  {
    if items != [] {
      ByIdIsKeyed(items[..|items| - 1]);
    }
  }

  lemma {:induction false} MaterializedIsKeyed(rows: seq<Event>)
    ensures Keyed(Materialized(rows))
  {
    if rows != [] {
      MaterializedIsKeyed(rows[..|rows| - 1]);
    }
  }

  lemma {:induction false} ApplyAllSplits(inbox: Inbox, a: seq<Event>, b: seq<Event>)
    ensures ApplyAll(inbox, a + b) == ApplyAll(ApplyAll(inbox, a), b)
  {
    hide Apply;
    if b == [] {
      assert a + b == a;
    } else {
      var n := |b| - 1;
      ApplyAllSplits(inbox, a, b[..n]);
      assert (a + b)[..|a| + n] == a + b[..n];
    }
  }

  /** `part` says of its ids what `whole` says. */
  predicate Within(part: Inbox, whole: Inbox) {
    forall id :: id in part ==> id in whole && whole[id] == part[id]
  }

  lemma ApplyOne(inbox: Inbox, events: seq<Event>, e: Event)
    ensures ApplyAll(inbox, events + [e]) == Apply(ApplyAll(inbox, events), e)
    ensures ApplyAll(inbox, events + []) == ApplyAll(inbox, events)
  {
    assert (events + [e])[..|events|] == events;
    assert events + [] == events;
  }

  /** An inbox with the given ids taken from another. */
  function Overwritten(whole: Inbox, next: Inbox, ids: set<string>): Inbox {
    map id | id in whole.Keys + (ids * next.Keys) :: if id in ids && id in next then next[id] else whole[id]
  }

  lemma OverwriteOne(whole: Inbox, next: Inbox, ids: set<string>, id: string)
    requires id in next
    ensures Overwritten(whole, next, ids + {id}) == Overwritten(whole, next, ids)[id := next[id]]
  {
  }

  lemma ApplyUpsert(repo: string, prior: Inbox, next: Inbox, id: string, inbox: Inbox, events: seq<Event>, start: Inbox)
    requires id in next && next[id].id == id && ApplyAll(start, events) == inbox
    requires id in prior && prior[id] == next[id] ==> id in inbox && inbox[id] == next[id]
    ensures ApplyAll(start, events + Upsert(repo, prior, next, id)) == inbox[id := next[id]]
  {
    hide IdentityText, ApplyAll;
    ApplyOne(start, events, AppearedEvent(repo, next[id]));
    ApplyOne(start, events, ChangedEvent(repo, next[id]));
  }

  lemma {:induction false} UpsertsApplied(repo: string, prior: Inbox, next: Inbox, ids: seq<string>, whole: Inbox)
    requires Keyed(next) && Within(prior, whole) && Elements(ids) <= next.Keys
    ensures ApplyAll(whole, Upserts(repo, prior, next, ids)) == Overwritten(whole, next, Elements(ids))
  {
    hide Upsert, Apply;
    if ids != [] {
      var n := |ids| - 1;
      UpsertsApplied(repo, prior, next, ids[..n], whole);
      var earlier := Overwritten(whole, next, Elements(ids[..n]));
      OverwriteOne(whole, next, Elements(ids[..n]), ids[n]);
      ApplyUpsert(repo, prior, next, ids[n], earlier, Upserts(repo, prior, next, ids[..n]), whole);
    }
  }

  lemma ApplyRetire(repo: string, prior: Inbox, next: Inbox, id: string, inbox: Inbox, events: seq<Event>, start: Inbox)
    requires id in prior && prior[id].id == id && ApplyAll(start, events) == inbox
    ensures ApplyAll(start, events + Retire(repo, prior, next, id)) == if id in next then inbox else inbox - {id}
  {
    hide IdentityText, ApplyAll;
    ApplyOne(start, events, ResolvedEvent(repo, prior[id]));
  }

  lemma {:induction false} RetiresApplied(repo: string, prior: Inbox, next: Inbox, ids: seq<string>, whole: Inbox)
    requires Keyed(prior) && Elements(ids) <= prior.Keys
    ensures ApplyAll(whole, Retires(repo, prior, next, ids)) == whole - (Elements(ids) - next.Keys)
  {
    hide Retire, Apply;
    if ids != [] {
      var n := |ids| - 1;
      RetiresApplied(repo, prior, next, ids[..n], whole);
      ApplyRetire(repo, prior, next, ids[n], whole - (Elements(ids[..n]) - next.Keys),
                  Retires(repo, prior, next, ids[..n]), whole);
    }
  }

  /** Replaying a log followed by the diff against its own materialization yields the new
      snapshot by id, whatever the log held. */
  lemma DiffLeadsToTheSnapshot(repo: string, rows: seq<Event>, next: seq<Item>)
    ensures Materialized(rows + Diff(repo, Materialized(rows), ById(next))) == ById(next)
  {
    var prior, target := Materialized(rows), ById(next);
    ByIdIsKeyed(next);
    MaterializedIsKeyed(rows);
    ApplyAllSplits(map[], rows, Diff(repo, prior, target));
    DiffApplied(repo, prior, target, prior);
    LedToTheTarget(prior, target);
  }

  /** A diff applied to any inbox that contains its prior. */
  lemma DiffApplied(repo: string, prior: Inbox, next: Inbox, whole: Inbox)
    requires Keyed(prior) && Keyed(next) && Within(prior, whole)
    ensures ApplyAll(whole, Diff(repo, prior, next)) == Overwritten(whole, next, next.Keys) - (prior.Keys - next.Keys)
  {
    hide Upserts, Retires, InOrder, Overwritten, Elements;
    var upserts, retires := Upserts(repo, prior, next, InOrder(next.Keys)), Retires(repo, prior, next, InOrder(prior.Keys));
    OrderedElements(next.Keys);
    OrderedElements(prior.Keys);
    ApplyAllSplits(whole, upserts, retires);
    UpsertsApplied(repo, prior, next, InOrder(next.Keys), whole);
    RetiresApplied(repo, prior, next, InOrder(prior.Keys), ApplyAll(whole, upserts));
  }

  lemma LedToTheTarget(prior: Inbox, next: Inbox)
    ensures Overwritten(prior, next, next.Keys) - (prior.Keys - next.Keys) == next
  {
  }

  /** A snapshot against itself brings nothing. */
  lemma {:induction false} NothingChangedNothingSaid(repo: string, inbox: Inbox, ids: seq<string>)
    ensures Upserts(repo, inbox, inbox, ids) == [] && Retires(repo, inbox, inbox, ids) == []
  {
    if ids != [] {
      NothingChangedNothingSaid(repo, inbox, ids[..|ids| - 1]);
    }
  }

  lemma SecondDiffIsEmpty(repo: string, rows: seq<Event>, next: seq<Item>)
    ensures var after := rows + Diff(repo, Materialized(rows), ById(next));
            Diff(repo, Materialized(after), ById(next)) == []
  {
    hide Diff, Upserts, Retires;
    DiffLeadsToTheSnapshot(repo, rows, next);
    DiffOfItself(repo, ById(next));
  }

  lemma DiffOfItself(repo: string, inbox: Inbox)
    ensures Diff(repo, inbox, inbox) == []
  {
    hide Upserts, Retires;
    NothingChangedNothingSaid(repo, inbox, InOrder(inbox.Keys));
  }

  /** The ids whose item is new or changed. */
  function Altered(prior: Inbox, next: Inbox): set<string> {
    set id | id in next && (id !in prior || prior[id] != next[id])
  }

  /** The ids that are no longer there. */
  function Gone(prior: Inbox, next: Inbox): set<string> {
    prior.Keys - next.Keys
  }

  lemma {:induction false} UpsertCount(repo: string, prior: Inbox, next: Inbox, ids: seq<string>)
    requires Distinct(ids)
    ensures |Upserts(repo, prior, next, ids)| == |Elements(ids) * Altered(prior, next)|
  {
    hide AppearedEvent, ChangedEvent, Distinct, Altered;
    if ids != [] {
      var n := |ids| - 1;
      LastIsNew(ids);
      UpsertCount(repo, prior, next, ids[..n]);
      CountOneMore(Elements(ids[..n]), ids[n], Altered(prior, next));
      UpsertIsOne(repo, prior, next, ids[n]);
    }
  }

  lemma UpsertIsOne(repo: string, prior: Inbox, next: Inbox, id: string)
    ensures |Upsert(repo, prior, next, id)| == if id in Altered(prior, next) then 1 else 0
    ensures |Retire(repo, prior, next, id)| == if id in Gone(prior, next) then 1 else 0
  {
  }

  lemma {:induction false} RetireCount(repo: string, prior: Inbox, next: Inbox, ids: seq<string>)
    requires Distinct(ids)
    ensures |Retires(repo, prior, next, ids)| == |Elements(ids) * Gone(prior, next)|
  {
    hide ResolvedEvent, Distinct, Gone;
    if ids != [] {
      var n := |ids| - 1;
      LastIsNew(ids);
      RetireCount(repo, prior, next, ids[..n]);
      CountOneMore(Elements(ids[..n]), ids[n], Gone(prior, next));
      UpsertIsOne(repo, prior, next, ids[n]);
    }
  }

  lemma AlteredIsOfNext(prior: Inbox, next: Inbox)
    ensures next.Keys * Altered(prior, next) == Altered(prior, next)
    ensures prior.Keys * Gone(prior, next) == Gone(prior, next)
    ensures Altered(prior, next) !! Gone(prior, next)
  {
  }

  /** The diff has exactly one event for each id on which the snapshots differ. */
  lemma OneEventPerDifference(repo: string, prior: Inbox, next: Inbox)
    ensures |Diff(repo, prior, next)| == |Altered(prior, next) + Gone(prior, next)|
  {
    hide Upserts, Retires, InOrder, Elements, Altered, Gone;
    OrderedElements(next.Keys);
    OrderedElements(prior.Keys);
    OrderedIsDistinct(next.Keys);
    OrderedIsDistinct(prior.Keys);
    UpsertCount(repo, prior, next, InOrder(next.Keys));
    RetireCount(repo, prior, next, InOrder(prior.Keys));
    AlteredIsOfNext(prior, next);
    CountDisjoint(Altered(prior, next), Gone(prior, next));
  }

  /** The log after a sequence of snapshots, every diff appended whole. */
  function Fed(repo: string, rows: seq<Event>, snapshots: seq<seq<Item>>): seq<Event> {
    if snapshots == [] then rows
    else
      var before := Fed(repo, rows, snapshots[..|snapshots| - 1]);
      before + Diff(repo, Materialized(before), ById(snapshots[|snapshots| - 1]))
  }

  /** After any number of snapshots the log stands for the last one, and for nothing older. */
  lemma LogStandsForTheLastSnapshot(repo: string, rows: seq<Event>, snapshots: seq<seq<Item>>)
    requires snapshots != []
    ensures Materialized(Fed(repo, rows, snapshots)) == ById(snapshots[|snapshots| - 1])
  {
    hide Diff;
    DiffLeadsToTheSnapshot(repo, Fed(repo, rows, snapshots[..|snapshots| - 1]), snapshots[|snapshots| - 1]);
  }

  /** Listing an inbox and indexing the list again gives the inbox back, so a materialized
      log is a faithful prior for the next diff. */
  lemma ListedIsFaithful(inbox: Inbox)
    requires Keyed(inbox)
    ensures ById(Listed(inbox)) == inbox
  {
    hide InOrder;
    OrderedElements(inbox.Keys);
    IndexedValues(inbox, InOrder(inbox.Keys));
  }

  lemma {:induction false} IndexedValues(inbox: Inbox, ids: seq<string>)
    requires Keyed(inbox) && (forall id :: id in ids ==> id in inbox)
    ensures ById(Values(inbox, ids)) == map id | id in Elements(ids) * inbox.Keys :: inbox[id]
  {
    if ids != [] {
      var n := |ids| - 1;
      IndexedValues(inbox, ids[..n]);
      ValuesGrow(inbox, ids);
      var earlier := Values(inbox, ids[..n]);
      assert (earlier + [inbox[ids[n]]])[..|earlier|] == earlier;
    }
  }

  lemma {:induction false} ValuesGrow(inbox: Inbox, ids: seq<string>)
    requires ids != [] && forall id :: id in ids ==> id in inbox
    ensures Values(inbox, ids) == Values(inbox, ids[..|ids| - 1]) + [inbox[ids[|ids| - 1]]]
  {
    if |ids| > 1 {
      assert ids[1..][..|ids| - 2] == ids[..|ids| - 1][1..];
      ValuesGrow(inbox, ids[1..]);
    } else {
      assert ids[1..] == [];
    }
  }

  lemma {:induction false} ValuesAre(inbox: Inbox, ids: seq<string>)
    requires forall id :: id in ids ==> id in inbox
    ensures |Values(inbox, ids)| == |ids| && forall i :: 0 <= i < |ids| ==> Values(inbox, ids)[i] == inbox[ids[i]]
  {
    if ids != [] {
      ValuesAre(inbox, ids[1..]);
    }
  }

  /** The listing has each item once, in the order of the ids. */
  lemma ListedInOrder(inbox: Inbox)
    requires Keyed(inbox)
    ensures |Listed(inbox)| == |inbox|
    ensures forall i, j :: 0 <= i < j < |Listed(inbox)| ==> Before(Listed(inbox)[i].id, Listed(inbox)[j].id)
  {
    hide Before, InOrder, Values;
    var ids := InOrder(inbox.Keys);
    InOrderIsIncreasing(inbox.Keys);
    ValuesAre(inbox, ids);
    forall i | 0 <= i < |ids| ensures Listed(inbox)[i].id == ids[i] {
      assert ids[i] in ids;
    }
  }

  /** The order of a diff: no appearance or change behind a resolution, and each of the two
      stretches in the order of the ids. */
  predicate InDiffOrder(x: Event, y: Event) {
    && x.payload.AttentionChange? && y.payload.AttentionChange?
    && (x.payload.change.Resolved? ==> y.payload.change.Resolved?)
    && ((x.payload.change.Resolved? <==> y.payload.change.Resolved?) ==>
          Before(x.payload.change.Subject(), y.payload.change.Subject()))
  }

  /** Each event is about an id of the list, and of this kind. */
  predicate Spoken(events: seq<Event>, ids: seq<string>, resolved: bool) {
    forall i :: 0 <= i < |events| ==>
      && events[i].payload.AttentionChange? && events[i].payload.change.Subject() in ids
      && events[i].payload.change.Resolved? == resolved
  }

  predicate AllInDiffOrder(events: seq<Event>) {
    forall i, j :: 0 <= i < j < |events| ==> InDiffOrder(events[i], events[j])
  }

  lemma OneMoreInOrder(events: seq<Event>, more: seq<Event>, ids: seq<string>, id: string, resolved: bool)
    requires Spoken(events, ids, resolved) && AllInDiffOrder(events) && |more| <= 1 && Spoken(more, [id], resolved)
    requires forall x :: x in ids ==> Before(x, id)
    ensures Spoken(events + more, ids + [id], resolved) && AllInDiffOrder(events + more)
  {
    hide Before;
  }

  lemma {:induction false} UpsertsInOrder(repo: string, prior: Inbox, next: Inbox, ids: seq<string>)
    requires Keyed(next) && Increasing(ids) && forall id :: id in ids ==> id in next
    ensures Spoken(Upserts(repo, prior, next, ids), ids, false) && AllInDiffOrder(Upserts(repo, prior, next, ids))
  {
    hide Before, Upsert, Spoken, AllInDiffOrder;
    NothingInOrder();
    if ids != [] {
      var n := |ids| - 1;
      UpsertsInOrder(repo, prior, next, ids[..n]);
      UpsertSpeaks(repo, prior, next, ids[n]);
      OneMoreInOrder(Upserts(repo, prior, next, ids[..n]), Upsert(repo, prior, next, ids[n]), ids[..n], ids[n], false);
      assert ids == ids[..n] + [ids[n]];
    }
  }

  lemma {:induction false} RetiresInOrder(repo: string, prior: Inbox, next: Inbox, ids: seq<string>)
    requires Keyed(prior) && Increasing(ids) && forall id :: id in ids ==> id in prior
    ensures Spoken(Retires(repo, prior, next, ids), ids, true) && AllInDiffOrder(Retires(repo, prior, next, ids))
  {
    hide Before, Retire, Spoken, AllInDiffOrder;
    NothingInOrder();
    if ids != [] {
      var n := |ids| - 1;
      RetiresInOrder(repo, prior, next, ids[..n]);
      RetireSpeaks(repo, prior, next, ids[n]);
      OneMoreInOrder(Retires(repo, prior, next, ids[..n]), Retire(repo, prior, next, ids[n]), ids[..n], ids[n], true);
      assert ids == ids[..n] + [ids[n]];
    }
  }

  lemma NothingInOrder()
    ensures Spoken([], [], false) && Spoken([], [], true) && AllInDiffOrder([])
  {
  }

  lemma UpsertSpeaks(repo: string, prior: Inbox, next: Inbox, id: string)
    requires Keyed(next) && id in next
    ensures |Upsert(repo, prior, next, id)| <= 1 && Spoken(Upsert(repo, prior, next, id), [id], false)
  {
    hide IdentityText;
  }

  lemma RetireSpeaks(repo: string, prior: Inbox, next: Inbox, id: string)
    requires Keyed(prior) && id in prior
    ensures |Retire(repo, prior, next, id)| <= 1 && Spoken(Retire(repo, prior, next, id), [id], true)
  {
    hide IdentityText;
  }

  /** A diff comes in order. */
  lemma DiffIsOrdered(repo: string, prior: Inbox, next: Inbox)
    requires Keyed(prior) && Keyed(next)
    ensures AllInDiffOrder(Diff(repo, prior, next))
  {
    hide Before, InOrder, Upserts, Retires;
    InOrderIsIncreasing(next.Keys);
    InOrderIsIncreasing(prior.Keys);
    UpsertsInOrder(repo, prior, next, InOrder(next.Keys));
    RetiresInOrder(repo, prior, next, InOrder(prior.Keys));
  }
}
