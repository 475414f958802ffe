/** Work-item records and the content-addressed version they are observed at. */
module WorkItems {
  import opened Text
  import opened Encoding
  import opened Fnv

  datatype Lane = Backlog | PendingApproval | Ready | Active | Acceptance | Blocked | Done {
    function Label(): string {
      match this
      case Backlog => "backlog"
      case PendingApproval => "pending-approval"
      case Ready => "ready"
      case Active => "active"
      case Acceptance => "acceptance"
      case Blocked => "blocked"
      case Done => "done"
    }
  }

  datatype LaneReason = NeedsHuman | InfraExternal | Dependency {
    function Label(): string {
      match this
      case NeedsHuman => "needs-human"
      case InfraExternal => "infra-external"
      case Dependency => "dependency"
    }
  }

  datatype AdmissionPolicy = Manual | Auto {
    function Label(): string {
      match this
      case Manual => "manual"
      case Auto => "auto"
    }
  }

  datatype AcceptancePolicy = AiThenHuman | AiOnly | HumanOnly {
    function Label(): string {
      match this
      case AiThenHuman => "ai-then-human"
      case AiOnly => "ai-only"
      case HumanOnly => "human-only"
    }
  }

  datatype Comment = Comment(
    id: Option<string>, author: Option<string>, createdAt: Option<string>, text: string)

  datatype Detail = Detail(
    title: Option<string>, description: Option<string>, itemType: Option<string>,
    parent: Option<string>, planSlug: Option<string>, labels: seq<string>,
    origin: Option<string>, gapId: Option<string>, assignee: Option<string>,
    dependsOn: seq<string>, capturedAt: Option<string>, resolution: Option<string>,
    reason: Option<string>, audit: Option<string>, supersededBy: Option<string>,
    specCommitmentHint: Option<string>, acceptanceCriteria: Option<string>,
    notes: Option<string>, supersedes: Option<string>, blockedReason: Option<string>,
    factorySafety: Option<string>, awaitsScopeOverride: bool,
    admissionPolicy: Option<string>, acceptancePolicy: Option<string>,
    dispatchFabroRunId: Option<string>, dispatchFactory: Option<string>,
    comments: seq<Comment>)

  /** An interpreted work-item: null policies are already collapsed to their defaults. */
  datatype WorkItem = WorkItem(
    id: string, lane: Lane, laneReason: Option<LaneReason>, rank: string, status: string,
    admission: AdmissionPolicy, acceptance: AcceptancePolicy, detail: Detail)

  /** One element of the source's array. Serde defaults a missing rank or status, and a
      null policy collapses to its default. */
  datatype Record =
    | Uninterpretable
    | Record(id: string, lane: Lane, laneReason: Option<LaneReason>, rank: Option<string>,
             status: Option<string>, admission: Option<AdmissionPolicy>,
             acceptance: Option<AcceptancePolicy>, detail: Detail)
  {
    function Interpret(): WorkItem
      requires Record?
    {
      WorkItem(id, lane, laneReason,
               if rank.Some? then rank.value else "~",
               if status.Some? then status.value else "",
               if admission.Some? then admission.value else Manual,
               if acceptance.Some? then acceptance.value else AiThenHuman,
               detail)
    }
  }

  // ----- The digest of the descriptive record ------------------------------

  function CommentFields(c: Comment): seq<Option<string>> {
    [c.id, c.author, c.createdAt, Some(c.text)]
  }

  function EncodeComments(comments: seq<Comment>): string {
    if comments == [] then ""
    else PresenceTagged(Some(PresenceTaggedAll(CommentFields(comments[0])))) + EncodeComments(comments[1..])
  }

  function DetailFields(d: Detail): seq<Option<string>> {
    [d.title, d.description, d.itemType, d.parent, d.planSlug, d.origin, d.gapId, d.assignee,
     d.capturedAt, d.resolution, d.reason, d.audit, d.supersededBy, d.specCommitmentHint,
     d.acceptanceCriteria, d.notes, d.supersedes, d.blockedReason, d.factorySafety,
     d.admissionPolicy, d.acceptancePolicy, d.dispatchFabroRunId, d.dispatchFactory,
     Some(EncodeComments(d.comments)), Some(LengthPrefixedAll(d.labels)),
     Some(LengthPrefixedAll(d.dependsOn))]
  }

  function EncodeDetail(d: Detail): string {
    PresenceTaggedAll(DetailFields(d))
  }

  function DetailDigest(d: Detail): string {
    Decimal(Version([EncodeDetail(d)]))
  }

  /** The same record with the one field the digest leaves out set aside. */
  function Hashed(d: Detail): Detail {
    d.(awaitsScopeOverride := false)
  }

  lemma {:induction false} CommentsAreUniquelyEncoded(a: seq<Comment>, b: seq<Comment>)
    requires EncodeComments(a) == EncodeComments(b)
    ensures a == b
  {
    if a != [] && b != [] {
      var x, y := CommentFields(a[0]), CommentFields(b[0]);
      PresenceTaggedIsSelfDelimiting(Some(PresenceTaggedAll(x)), EncodeComments(a[1..]),
                                     Some(PresenceTaggedAll(y)), EncodeComments(b[1..]));
      PresenceTaggedAllIsInjective(x, y);
      assert x[0] == y[0] && x[1] == y[1] && x[2] == y[2] && x[3] == y[3];
      CommentsAreUniquelyEncoded(a[1..], b[1..]);
    }
  }

  /** The pre-hash encoding determines every encoded field: absent differs from empty, and
      dependency, label and comment lists are kept whole, whatever the texts contain. */
  lemma DetailIsUniquelyEncoded(a: Detail, b: Detail)
    ensures EncodeDetail(a) == EncodeDetail(b) <==> Hashed(a) == Hashed(b)
  {
    if EncodeDetail(a) == EncodeDetail(b) {
      var x, y := DetailFields(a), DetailFields(b);
      PresenceTaggedAllIsInjective(x, y);
      FieldsDetermineDetail(a, b);
    }
    if Hashed(a) == Hashed(b) {
      assert DetailFields(a) == DetailFields(Hashed(a));
      assert DetailFields(b) == DetailFields(Hashed(b));
    }
  }

  lemma FieldsDetermineDetail(a: Detail, b: Detail)
    requires DetailFields(a) == DetailFields(b)
    ensures Hashed(a) == Hashed(b)
  {
    var x, y := DetailFields(a), DetailFields(b);
    assert x[0] == y[0] && x[1] == y[1] && x[2] == y[2] && x[3] == y[3] && x[4] == y[4] && x[5] == y[5];
    assert x[6] == y[6] && x[7] == y[7] && x[8] == y[8] && x[9] == y[9] && x[10] == y[10] && x[11] == y[11];
    assert x[12] == y[12] && x[13] == y[13] && x[14] == y[14] && x[15] == y[15] && x[16] == y[16];
    assert x[17] == y[17] && x[18] == y[18] && x[19] == y[19] && x[20] == y[20] && x[21] == y[21];
    assert x[22] == y[22] && x[23] == y[23] && x[24] == y[24] && x[25] == y[25];
    CommentsAreUniquelyEncoded(a.comments, b.comments);
    LengthPrefixedAllIsInjective(a.labels, b.labels);
    LengthPrefixedAllIsInjective(a.dependsOn, b.dependsOn);
  }

  // ----- The version of a work-item ----------------------------------------

  function VersionParts(repo: string, item: WorkItem): seq<string> {
    [repo, item.id, item.lane.Label(),
     if item.laneReason.Some? then item.laneReason.value.Label() else "",
     item.rank, item.status, item.admission.Label(), item.acceptance.Label(),
     DetailDigest(item.detail)]
  }

  function ContentVersion(repo: string, item: WorkItem): U64 {
    StreamSeq(VersionParts(repo, item))
  }

  /** Everything the version depends on. */
  function Content(item: WorkItem): WorkItem {
    item.(detail := Hashed(item.detail))
  }

  /** Neither hash maps these two records to one value unless it was given one input. */
  predicate NoCollision(repo: string, a: WorkItem, b: WorkItem) {
    && (Version([EncodeDetail(a.detail)]) == Version([EncodeDetail(b.detail)])
        ==> EncodeDetail(a.detail) == EncodeDetail(b.detail))
    && (ContentVersion(repo, a) == ContentVersion(repo, b)
        ==> LengthPrefixedAll(VersionParts(repo, a)) == LengthPrefixedAll(VersionParts(repo, b)))
  }

  lemma LabelsAreDistinct(a: WorkItem, b: WorkItem)
    ensures a.lane.Label() == b.lane.Label() ==> a.lane == b.lane
    ensures a.admission.Label() == b.admission.Label() ==> a.admission == b.admission
    ensures a.acceptance.Label() == b.acceptance.Label() ==> a.acceptance == b.acceptance
    ensures (if a.laneReason.Some? then a.laneReason.value.Label() else "")
            == (if b.laneReason.Some? then b.laneReason.value.Label() else "")
            ==> a.laneReason == b.laneReason
  {
  }

  /** The words an item is versioned under. */
  lemma LabelsAreTheWords(item: WorkItem)
    ensures item.lane.Label() in {"backlog", "pending-approval", "ready", "active", "acceptance", "blocked", "done"}
    ensures item.admission.Label() == if item.admission == Auto then "auto" else "manual"
    ensures item.acceptance.Label() in {"ai-then-human", "ai-only", "human-only"}
    ensures item.laneReason.Some? ==> item.laneReason.value.Label() in {"needs-human", "infra-external", "dependency"}
  {
  }

  /** Up to hash collisions, two records share a version exactly when they agree on
      everything but the scope-override flag. */
  lemma VersionIdentifiesContent(repo: string, a: WorkItem, b: WorkItem)
    requires NoCollision(repo, a, b)
    ensures ContentVersion(repo, a) == ContentVersion(repo, b) <==> Content(a) == Content(b)
  {
    DetailIsUniquelyEncoded(a.detail, b.detail);
    if ContentVersion(repo, a) == ContentVersion(repo, b) {
      var x, y := VersionParts(repo, a), VersionParts(repo, b);
      LengthPrefixedAllIsInjective(x, y);
      assert x[1] == y[1] && x[2] == y[2] && x[3] == y[3] && x[4] == y[4];
      assert x[5] == y[5] && x[6] == y[6] && x[7] == y[7] && x[8] == y[8];
      LabelsAreDistinct(a, b);
      DecimalIsInjective(Version([EncodeDetail(a.detail)]), Version([EncodeDetail(b.detail)]));
    }
    if Content(a) == Content(b) {
      assert VersionParts(repo, a) == VersionParts(repo, b);
    }
  }
}
