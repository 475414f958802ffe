/** Distinct observations have distinct identity texts, whatever colons a repository or a
    work-item id contains. */
module Identities {
  import opened Text
  import opened Encoding
  import opened EventLog

  /** The availability markers of one source at one repository. */
  predicate IsMarker(id: Identity, source: string, repo: string) {
    match id
    case NotObservedAt(s, r, _, cause) => s == source && r == repo && |cause| == 16 && AllHex(cause)
    case ObservedAt(s, r, _) => s == source && r == repo
    case _ => false
  }

  /** The texts in full, and the event id in front of each. */
  lemma IdentityTexts(source: string, repo: string, itemId: string, version: nat, epoch: nat, cause: string)
    ensures SnapshotOf(repo, itemId, version, epoch).SourceEventId() == Some(
              "orchestrator" + ":" + repo + ":" + (itemId + ":" + Decimal(version) + ":" + Decimal(epoch) + ":snapshot"))
    ensures CompletenessOf(repo, version).SourceEventId() == Some(
              "orchestrator" + ":" + repo + ":" + (Decimal(version) + ":completeness"))
    ensures NotObservedAt(source, repo, epoch, cause).SourceEventId() == Some(
              source + ":" + repo + ":" + ("not_observed:" + (Decimal(epoch) + ":" + cause)))
    ensures ObservedAt(source, repo, epoch).SourceEventId() == Some(
              source + ":" + repo + ":" + ("observed_idle:" + Decimal(epoch)))
    ensures forall id: Identity :: !id.Verbatim? ==>
      id.SourceEventId().Some? && id.EventId() == "evt:" + id.SourceEventId().value
  {
  }

  /** Everything the orchestrator adapter of one repository emits. */
  predicate IsOrchestrators(id: Identity, repo: string) {
    match id
    case SnapshotOf(r, _, _, _) => r == repo
    case CompletenessOf(r, _) => r == repo
    case _ => IsMarker(id, "orchestrator", repo)
  }

  /** A separator in front of trailing digits can be found in one way only. */
  lemma {:induction false} DigitsBeginAtSeparator(x: string, d: string, y: string, e: string)
    requires AllDigits(d) && AllDigits(e)
    requires x + ":" + d == y + ":" + e
    ensures x == y && d == e
  {
    var left, right := x + ":" + d, y + ":" + e;
    var n := |left| - 1;
    assert left[n] == (if d == "" then ':' else d[|d| - 1]);
    assert right[n] == (if e == "" then ':' else e[|e| - 1]);
    if d == "" && e == "" {
      assert left[..n] == x && right[..n] == y;
    } else {
      var d', e' := d[..|d| - 1], e[..|e| - 1];
      assert left[..n] == x + ":" + d' && right[..n] == y + ":" + e';
      DigitsBeginAtSeparator(x, d', y, e');
    }
  }

  lemma PrefixCancels(p: string, x: string, y: string)
    requires p + x == p + y
    ensures x == y
  {
    assert (p + x)[|p|..] == x && (p + y)[|p|..] == y;
  }

  lemma SuffixCancels(x: string, y: string, s: string)
    requires x + s == y + s
    ensures x == y
  {
    assert (x + s)[..|x|] == x && (y + s)[..|y|] == y;
  }

  /** Text without a colon behind the last colon. */
  lemma LastColon(x: string, d: string, y: string, e: string)
    requires ':' !in d && ':' !in e
    requires x + ":" + d == y + ":" + e
    ensures x == y && d == e
  {
    var left, right := x + ":" + d, y + ":" + e;
    assert left[|x|] == ':' && right[|y|] == ':';
    assert forall i :: |x| < i < |left| ==> left[i] == d[i - |x| - 1];
    assert forall i :: |y| < i < |right| ==> right[i] == e[i - |y| - 1];
    assert |x| == |y|;
    assert left[..|x|] == x && right[..|y|] == y;
    assert left[|x| + 1..] == d && right[|y| + 1..] == e;
  }

  /** Text with a single colon is cut there in one way only. */
  lemma FirstColon(x: string, d: string, y: string, e: string)
    requires ':' !in x && ':' !in d
    requires x + ":" + d == y + ":" + e
    ensures x == y && d == e
  {
    var left, right := x + ":" + d, y + ":" + e;
    assert forall i :: 0 <= i < |left| && left[i] == ':' ==> i == |x|;
    assert right[|y|] == ':';
    assert |x| == |y|;
    assert left[..|x|] == x && right[..|y|] == y;
    assert left[|x| + 1..] == d && right[|y| + 1..] == e;
  }

  /** How a tail ends tells the four families apart. */
  lemma TailEnding(id: Identity, repo: string)
    requires IsOrchestrators(id, repo)
    ensures id.Tail() != ""
    ensures var last := id.Tail()[|id.Tail()| - 1];
            match id
            case SnapshotOf(_, _, _, _) => last == 't'
            case CompletenessOf(_, _) => last == 's'
            case _ => '0' <= last <= '9' || 'a' <= last <= 'f'
  {
    match id
    case SnapshotOf(_, _, _, _) =>
      assert ":snapshot"[8] == 't';
    case CompletenessOf(_, _) =>
      assert ":completeness"[12] == 's';
    case NotObservedAt(_, _, _, cause) =>
      assert id.Tail()[|id.Tail()| - 1] == cause[15];
    case ObservedAt(_, _, epoch) =>
      DecimalReadsBack(epoch);
      assert id.Tail()[|id.Tail()| - 1] == Decimal(epoch)[|Decimal(epoch)| - 1];
  }

  lemma SnapshotTailIsInjective(a: Identity, b: Identity)
    requires a.SnapshotOf? && b.SnapshotOf?
    requires a.Tail() == b.Tail()
    ensures a.itemId == b.itemId && a.version == b.version && a.epoch == b.epoch
  {
    var x, y := a.itemId + ":" + Decimal(a.version), b.itemId + ":" + Decimal(b.version);
    SuffixCancels(x + ":" + Decimal(a.epoch), y + ":" + Decimal(b.epoch), ":snapshot");
    DecimalReadsBack(a.version);
    DecimalReadsBack(b.version);
    DecimalReadsBack(a.epoch);
    DecimalReadsBack(b.epoch);
    DigitsBeginAtSeparator(x, Decimal(a.epoch), y, Decimal(b.epoch));
    DigitsBeginAtSeparator(a.itemId, Decimal(a.version), b.itemId, Decimal(b.version));
  }

  lemma MarkerTailIsInjective(a: Identity, b: Identity, source: string, repo: string)
    requires IsMarker(a, source, repo) && IsMarker(b, source, repo)
    requires a.Tail() == b.Tail()
    ensures a == b
  {
    assert a.Tail()[0] == (if a.ObservedAt? then 'o' else 'n');
    assert b.Tail()[0] == (if b.ObservedAt? then 'o' else 'n');
    DecimalReadsBack(a.epoch);
    DecimalReadsBack(b.epoch);
    if a.ObservedAt? {
      PrefixCancels("observed_idle:", Decimal(a.epoch), Decimal(b.epoch));
    } else {
      PrefixCancels("not_observed:", Decimal(a.epoch) + ":" + a.cause, Decimal(b.epoch) + ":" + b.cause);
      DigitsEndAtSeparator(Decimal(a.epoch), a.cause, Decimal(b.epoch), b.cause, ':');
    }
  }

  /** Two markers of one source at one repository share a text only when they report the
      same availability at the same epoch, and for the same cause hash. */
  lemma MarkersAreDistinct(a: Identity, b: Identity, source: string, repo: string)
    requires IsMarker(a, source, repo) && IsMarker(b, source, repo)
    requires a.SourceEventId() == b.SourceEventId()
    ensures a == b
  {
    PrefixCancels(a.Prefix(), a.Tail(), b.Tail());
    MarkerTailIsInjective(a, b, source, repo);
  }

  /** The orchestrator's snapshots, completeness findings and markers never share a text. */
  lemma OrchestratorsAreDistinct(a: Identity, b: Identity, repo: string)
    requires IsOrchestrators(a, repo) && IsOrchestrators(b, repo)
    requires a.SourceEventId() == b.SourceEventId()
    ensures a == b
  {
    PrefixCancels(a.Prefix(), a.Tail(), b.Tail());
    TailEnding(a, repo);
    TailEnding(b, repo);
    if a.SnapshotOf? {
      SnapshotTailIsInjective(a, b);
    } else if a.CompletenessOf? {
      SuffixCancels(Decimal(a.version), Decimal(b.version), ":completeness");
      DecimalIsInjective(a.version, b.version);
    } else {
      MarkerTailIsInjective(a, b, "orchestrator", repo);
    }
  }
}
