/** Needs-attention items, and what their events say of the inbox. */
module Attention {
  import opened Text
  import opened Encoding
  import opened Fnv

  datatype SourceRef = SourceRef(repo: string, workItem: Option<string>, path: Option<string>)

  datatype Handoff = Handoff(kind: string, actionId: Option<string>, command: string)

  datatype Item = Item(
    id: string, kind: string, urgency: string, summary: string, sourceRef: SourceRef, handoff: Handoff)

  datatype Change = Appeared(item: Item) | Changed(item: Item) | Resolved(id: string) {
    function Subject(): string {
      if Resolved? then id else item.id
    }
  }

  function OrEmpty(text: Option<string>): string {
    if text.Some? then text.value else ""
  }

  function VersionParts(repo: string, item: Item): seq<string> {
    [repo, item.id, item.kind, item.urgency, item.summary,
     item.sourceRef.repo, OrEmpty(item.sourceRef.workItem), OrEmpty(item.sourceRef.path),
     item.handoff.kind, OrEmpty(item.handoff.actionId), item.handoff.command]
  }

  /** The content-addressed version of an item. */
  function ItemVersion(repo: string, item: Item): U64 {
    StreamSeq(VersionParts(repo, item))
  }

  predicate SameText(a: Option<string>, b: Option<string>) {
    a == b || (a.None? && b == Some("")) || (a == Some("") && b.None?)
  }

  /** Equal in every field, an absent optional text counting as an empty one. */
  predicate SameContent(x: Item, y: Item) {
    && y == x.(sourceRef := y.sourceRef, handoff := y.handoff)
    && x.sourceRef.repo == y.sourceRef.repo
    && SameText(x.sourceRef.workItem, y.sourceRef.workItem) && SameText(x.sourceRef.path, y.sourceRef.path)
    && x.handoff.kind == y.handoff.kind && x.handoff.command == y.handoff.command
    && SameText(x.handoff.actionId, y.handoff.actionId)
  }

  /** The hash maps these two items to one version only if it was given one input. */
  predicate NoCollision(repo: string, x: Item, y: Item) {
    ItemVersion(repo, x) == ItemVersion(repo, y)
    ==> LengthPrefixedAll(VersionParts(repo, x)) == LengthPrefixedAll(VersionParts(repo, y))
  }

  lemma EmptyIsAbsent(a: Option<string>, b: Option<string>)
    ensures OrEmpty(a) == OrEmpty(b) <==> SameText(a, b)
  {
  }

  /** Up to a hash collision, two items share a version exactly when they agree on every field,
      an absent optional text counting as an empty one. */
  lemma VersionIdentifiesContent(repo: string, x: Item, y: Item)
    requires NoCollision(repo, x, y)
    ensures ItemVersion(repo, x) == ItemVersion(repo, y) <==> SameContent(x, y)
  {
    hide SameText, OrEmpty;
    EmptyIsAbsent(x.sourceRef.workItem, y.sourceRef.workItem);
    EmptyIsAbsent(x.sourceRef.path, y.sourceRef.path);
    EmptyIsAbsent(x.handoff.actionId, y.handoff.actionId);
    var p, q := VersionParts(repo, x), VersionParts(repo, y);
    if ItemVersion(repo, x) == ItemVersion(repo, y) {
      LengthPrefixedAllIsInjective(p, q);
      assert p[1] == q[1] && p[2] == q[2] && p[3] == q[3] && p[4] == q[4] && p[5] == q[5];
      assert p[6] == q[6] && p[7] == q[7] && p[8] == q[8] && p[9] == q[9] && p[10] == q[10];
    }
    if SameContent(x, y) {
      assert p == q;
    }
  }

  /** Not every change of an item makes a new version: an absent path and an empty one differ
      in the item and not in the version. */
  lemma AbsentAndEmptyShareAVersion(repo: string, x: Item)
    ensures var absent := x.(sourceRef := x.sourceRef.(path := None));
            var empty := x.(sourceRef := x.sourceRef.(path := Some("")));
            absent != empty && ItemVersion(repo, absent) == ItemVersion(repo, empty)
  {
    var absent := x.(sourceRef := x.sourceRef.(path := None));
    var empty := x.(sourceRef := x.sourceRef.(path := Some("")));
    assert VersionParts(repo, absent) == VersionParts(repo, empty);
  }
}
