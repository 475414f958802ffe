/** The parity gate between the `just check` targets and the CI jobs: every name the two sets
    do not share is recorded, with a reason, and every record is true. */
module ParityGate {
  import opened Text
  import Ordering

  datatype FixtureEntry = FixtureEntry(name: string, presentInJustCheck: bool, presentInCi: bool, reason: string)

  datatype ParityInput = ParityInput(
    justTargets: set<string>, justRecipes: set<string>, ciJobs: set<string>, fixtureEntries: seq<FixtureEntry>)

  datatype Finding =
    | MissingReason(name: string)
    | DuplicateFixtureEntry(name: string)
    | FixtureEntryNotDivergent(name: string)
    | FixtureEntryDoesNotMatchReality(
        name: string, expectedJust: bool, actualJust: bool, expectedCi: bool, actualCi: bool)
    | CiJobUnaccounted(name: string)
    | JustTargetUnaccounted(name: string)
    | JustTargetRecipeMissing(name: string)

  /** The entry a name stands for: the last one wins. */
  function EntryOf(entries: seq<FixtureEntry>, name: string): Option<FixtureEntry> {
    if entries == [] then None
    else if entries[|entries| - 1].name == name then Some(entries[|entries| - 1])
    else EntryOf(entries[..|entries| - 1], name)
  }

  /** What the entries say on their own. */
  predicate IsEntryFinding(entries: seq<FixtureEntry>, finding: Finding) {
    match finding
    case MissingReason(name) => exists e :: e in entries && e.name == name && IsBlank(e.reason)
    case FixtureEntryNotDivergent(name) =>
      exists e :: e in entries && e.name == name && e.presentInJustCheck && e.presentInCi
    case DuplicateFixtureEntry(name) =>
      exists i, j :: 0 <= i < j < |entries| && entries[i].name == entries[j].name == name
    case _ => false
  }

  predicate ExcusedFromJust(entry: Option<FixtureEntry>) {
    entry.Some? && !entry.value.presentInJustCheck && !IsBlank(entry.value.reason)
  }

  predicate ExcusedFromCi(entry: Option<FixtureEntry>) {
    entry.Some? && !entry.value.presentInCi && !IsBlank(entry.value.reason)
  }

  predicate IsFinding(input: ParityInput, finding: Finding) {
    match finding
    case JustTargetRecipeMissing(name) => name in input.justTargets && name !in input.justRecipes
    case FixtureEntryDoesNotMatchReality(name, expectedJust, actualJust, expectedCi, actualCi) =>
      var entry := EntryOf(input.fixtureEntries, name);
      && entry.Some?
      && expectedJust == entry.value.presentInJustCheck && expectedCi == entry.value.presentInCi
      && actualJust == (name in input.justTargets) && actualCi == (name in input.ciJobs)
      && !(expectedJust == actualJust && expectedCi == actualCi)
    case CiJobUnaccounted(name) =>
      && name in input.ciJobs && name !in input.justTargets
      && !ExcusedFromJust(EntryOf(input.fixtureEntries, name))
    case JustTargetUnaccounted(name) =>
      && name in input.justTargets && name !in input.ciJobs
      && !ExcusedFromCi(EntryOf(input.fixtureEntries, name))
    case _ => IsEntryFinding(input.fixtureEntries, finding)
  }

  // ----- The report --------------------------------------------------------

  /** What the entries say on their own, in their order; one entry can say three things. */
  function EntryFindings(entries: seq<FixtureEntry>): seq<Finding> {
    if entries == [] then []
    else
      var earlier, last := entries[..|entries| - 1], entries[|entries| - 1];
      EntryFindings(earlier)
      + (if IsBlank(last.reason) then [MissingReason(last.name)] else [])
      + (if last.presentInJustCheck && last.presentInCi then [FixtureEntryNotDivergent(last.name)] else [])
      + (if EntryOf(earlier, last.name).Some? then [DuplicateFixtureEntry(last.name)] else [])
  }

  /** The passes over names, in order. */
  datatype Pass = Recipes | Reality | CiJobs | JustTargets

  function Names(input: ParityInput, pass: Pass): set<string> {
    match pass
    case Recipes => input.justTargets
    case Reality => set e | e in input.fixtureEntries :: e.name
    case CiJobs => input.ciJobs
    case JustTargets => input.justTargets
  }

  /** What a pass would say of a name. */
  function Candidate(input: ParityInput, pass: Pass, name: string): Finding {
    match pass
    case Recipes => JustTargetRecipeMissing(name)
    case Reality =>
      var entry := EntryOf(input.fixtureEntries, name);
      FixtureEntryDoesNotMatchReality(
        name,
        entry.Some? && entry.value.presentInJustCheck, name in input.justTargets,
        entry.Some? && entry.value.presentInCi, name in input.ciJobs)
    case CiJobs => CiJobUnaccounted(name)
    case JustTargets => JustTargetUnaccounted(name)
  }

  function PassFindings(input: ParityInput, pass: Pass, names: seq<string>): seq<Finding> {
    if names == [] then []
    else
      var candidate := Candidate(input, pass, names[|names| - 1]);
      PassFindings(input, pass, names[..|names| - 1]) + if IsFinding(input, candidate) then [candidate] else []
  }

  /** The whole report: the entries first, then every pass over its names in order. */
  function Report(input: ParityInput): seq<Finding> {
    EntryFindings(input.fixtureEntries)
    + PassFindings(input, Recipes, Ordering.InOrder(Names(input, Recipes)))
    + PassFindings(input, Reality, Ordering.InOrder(Names(input, Reality)))
    + PassFindings(input, CiJobs, Ordering.InOrder(Names(input, CiJobs)))
    + PassFindings(input, JustTargets, Ordering.InOrder(Names(input, JustTargets)))
  }

  method CheckParity(input: ParityInput) returns (findings: seq<Finding>)
    ensures findings == Report(input)
    ensures forall f :: f in findings <==> IsFinding(input, f)
  {
    hide EntryOf, IsBlank, EntryFindings, PassFindings, IsFinding, Names, Ordering.InOrder;
    var entries;
    findings, entries := CheckEntries(input.fixtureEntries);
    EntriesByName(input, entries);
    var recipes := CheckRecipes(input);
    var reality := CheckReality(input, entries);
    var jobs := CheckCiJobs(input, entries);
    var targets := CheckJustTargets(input, entries);
    findings := findings + recipes + reality + jobs + targets;
    ReportIsComplete(input);
  }

  lemma NoNames(input: ParityInput)
    ensures forall pass :: PassFindings(input, pass, []) == []
  {
  }

  lemma OneMoreName(input: ParityInput, pass: Pass, names: seq<string>, i: nat)
    requires i < |names|
    ensures PassFindings(input, pass, names[..i + 1])
            == var candidate := Candidate(input, pass, names[i]);
               PassFindings(input, pass, names[..i]) + if IsFinding(input, candidate) then [candidate] else []
  {
    hide IsFinding, Candidate;
    assert names[..i + 1][..i] == names[..i];
  }

  method CheckRecipes(input: ParityInput) returns (findings: seq<Finding>)
    ensures findings == PassFindings(input, Recipes, Ordering.InOrder(Names(input, Recipes)))
  {
    hide PassFindings;
    var targets := Ordering.InOrder(input.justTargets);
    NoNames(input);
    findings := [];
    for i := 0 to |targets|
      invariant findings == PassFindings(input, Recipes, targets[..i])
    {
      OneMoreName(input, Recipes, targets, i);
      if targets[i] !in input.justRecipes {
        findings := findings + [JustTargetRecipeMissing(targets[i])];
      }
    }
    assert targets[..|targets|] == targets;
  }

  ghost predicate IsLookup(fixture: seq<FixtureEntry>, entries: map<string, FixtureEntry>) {
    forall name :: EntryOf(fixture, name) == if name in entries then Some(entries[name]) else None
  }

  method CheckReality(input: ParityInput, entries: map<string, FixtureEntry>) returns (findings: seq<Finding>)
    requires IsLookup(input.fixtureEntries, entries) && entries.Keys == Names(input, Reality)
    ensures findings == PassFindings(input, Reality, Ordering.InOrder(Names(input, Reality)))
  {
    hide IsBlank, Names, PassFindings;
    var names := Ordering.InOrder(entries.Keys);
    NoNames(input);
    findings := [];
    for i := 0 to |names|
      invariant findings == PassFindings(input, Reality, names[..i])
    {
      OneMoreName(input, Reality, names, i);
      var entry := entries[names[i]];
      var actualJust := names[i] in input.justTargets;
      var actualCi := names[i] in input.ciJobs;
      if entry.presentInJustCheck != actualJust || entry.presentInCi != actualCi {
        findings := findings + [FixtureEntryDoesNotMatchReality(
          names[i], entry.presentInJustCheck, actualJust, entry.presentInCi, actualCi)];
      }
    }
    assert names[..|names|] == names;
  }

  method CheckCiJobs(input: ParityInput, entries: map<string, FixtureEntry>) returns (findings: seq<Finding>)
    requires IsLookup(input.fixtureEntries, entries)
    ensures findings == PassFindings(input, CiJobs, Ordering.InOrder(Names(input, CiJobs)))
  {
    hide IsBlank, PassFindings;
    var jobs := Ordering.InOrder(input.ciJobs);
    NoNames(input);
    findings := [];
    for i := 0 to |jobs|
      invariant findings == PassFindings(input, CiJobs, jobs[..i])
    {
      OneMoreName(input, CiJobs, jobs, i);
      var job := jobs[i];
      if job !in input.justTargets && !(job in entries && ExcusedFromJust(Some(entries[job]))) {
        findings := findings + [CiJobUnaccounted(job)];
      }
    }
    assert jobs[..|jobs|] == jobs;
  }

  method CheckJustTargets(input: ParityInput, entries: map<string, FixtureEntry>) returns (findings: seq<Finding>)
    requires IsLookup(input.fixtureEntries, entries)
    ensures findings == PassFindings(input, JustTargets, Ordering.InOrder(Names(input, JustTargets)))
  {
    hide IsBlank, PassFindings;
    var targets := Ordering.InOrder(input.justTargets);
    NoNames(input);
    findings := [];
    for i := 0 to |targets|
      invariant findings == PassFindings(input, JustTargets, targets[..i])
    {
      OneMoreName(input, JustTargets, targets, i);
      var target := targets[i];
      if target !in input.ciJobs && !(target in entries && ExcusedFromCi(Some(entries[target]))) {
        findings := findings + [JustTargetUnaccounted(target)];
      }
    }
    assert targets[..|targets|] == targets;
  }

  /** The loop over the entries, which also builds the name lookup. */
  method CheckEntries(fixture: seq<FixtureEntry>) returns (findings: seq<Finding>, entries: map<string, FixtureEntry>)
    ensures findings == EntryFindings(fixture)
    ensures IsLookup(fixture, entries)
  {
    hide IsBlank, EntryFindings;
    findings, entries := [], map[];
    NoEntries();
    for i := 0 to |fixture|
      invariant findings == EntryFindings(fixture[..i])
      invariant IsLookup(fixture[..i], entries)
    {
      var entry := fixture[i];
      assert EntryOf(fixture[..i], entry.name).Some? <==> entry.name in entries;
      LatestEntry(fixture[..i], entry);
      LatestFindings(fixture[..i], entry);
      assert fixture[..i + 1] == fixture[..i] + [entry];
      if IsBlank(entry.reason) {
        findings := findings + [MissingReason(entry.name)];
      }
      if entry.presentInJustCheck && entry.presentInCi {
        findings := findings + [FixtureEntryNotDivergent(entry.name)];
      }
      if entry.name in entries {
        findings := findings + [DuplicateFixtureEntry(entry.name)];
      }
      entries := entries[entry.name := entry];
    }
    assert fixture[..|fixture|] == fixture;
  }

  lemma LatestEntry(earlier: seq<FixtureEntry>, entry: FixtureEntry)
    ensures forall name ::
      EntryOf(earlier + [entry], name) == (if name == entry.name then Some(entry) else EntryOf(earlier, name))
  {
    assert (earlier + [entry])[..|earlier|] == earlier;
  }

  lemma NoEntries()
    ensures EntryFindings([]) == [] && IsLookup([], map[])
  {
  }

  lemma LatestFindings(earlier: seq<FixtureEntry>, entry: FixtureEntry)
    ensures EntryFindings(earlier + [entry])
            == EntryFindings(earlier)
               + (if IsBlank(entry.reason) then [MissingReason(entry.name)] else [])
               + (if entry.presentInJustCheck && entry.presentInCi then [FixtureEntryNotDivergent(entry.name)] else [])
               + (if EntryOf(earlier, entry.name).Some? then [DuplicateFixtureEntry(entry.name)] else [])
  {
    hide IsBlank, EntryOf;
    assert (earlier + [entry])[..|earlier|] == earlier;
  }

  // ----- The report is complete --------------------------------------------

  lemma EntriesByName(input: ParityInput, entries: map<string, FixtureEntry>)
    requires IsLookup(input.fixtureEntries, entries)
    ensures entries.Keys == Names(input, Reality)
  {
    hide EntryOf;
    forall name ensures name in entries <==> name in Names(input, Reality) {
      EntryOfIsNamed(input.fixtureEntries, name);
      assert EntryOf(input.fixtureEntries, name).Some? <==> name in entries;
    }
  }

  lemma {:induction false} PassIsComplete(input: ParityInput, pass: Pass, names: seq<string>)
    ensures forall f :: f in PassFindings(input, pass, names) <==>
      f.name in names && f == Candidate(input, pass, f.name) && IsFinding(input, f)
  {
    if names != [] {
      hide IsFinding, EntryOf;
      var n := |names| - 1;
      PassIsComplete(input, pass, names[..n]);
      assert names == names[..n] + [names[n]];
      assert Candidate(input, pass, names[n]).name == names[n];
    }
  }

  lemma {:induction false} EntriesAreComplete(entries: seq<FixtureEntry>)
    ensures forall f :: f in EntryFindings(entries) <==> IsEntryFinding(entries, f)
  {
    if entries == [] {
    } else {
      hide IsBlank, IsEntryFinding, EntryOf;
      var n := |entries| - 1;
      EntriesAreComplete(entries[..n]);
      OneMoreEntry(entries, n);
      assert entries[..n + 1] == entries;
    }
  }

  /** A finding belongs to the entries or to one of the passes. */
  lemma FindingsBelongToPasses(input: ParityInput, f: Finding)
    ensures IsEntryFinding(input.fixtureEntries, f) ==> IsFinding(input, f)
    ensures IsFinding(input, f) ==>
      || IsEntryFinding(input.fixtureEntries, f)
      || exists pass :: f.name in Names(input, pass) && f == Candidate(input, pass, f.name)
  {
    hide IsBlank, EntryOf;
    EntryOfIsNamed(input.fixtureEntries, f.name);
    match f
    case JustTargetRecipeMissing(_) => assert f == Candidate(input, Recipes, f.name);
    case FixtureEntryDoesNotMatchReality(_, _, _, _, _) =>
      if IsFinding(input, f) {
        assert f == Candidate(input, Reality, f.name) && f.name in Names(input, Reality);
      }
    case CiJobUnaccounted(_) => assert f == Candidate(input, CiJobs, f.name);
    case JustTargetUnaccounted(_) => assert f == Candidate(input, JustTargets, f.name);
    case _ =>
  }

  /** The report has every finding there is and nothing else. */
  lemma ReportIsComplete(input: ParityInput)
    ensures forall f :: f in Report(input) <==> IsFinding(input, f)
  {
    hide EntryFindings, PassFindings, IsFinding, IsEntryFinding, Candidate, Names;
    EntriesAreComplete(input.fixtureEntries);
    forall pass: Pass ensures forall f :: f in PassFindings(input, pass, Ordering.InOrder(Names(input, pass))) <==>
      f.name in Names(input, pass) && f == Candidate(input, pass, f.name) && IsFinding(input, f) {
      PassIsComplete(input, pass, Ordering.InOrder(Names(input, pass)));
    }
    forall f ensures f in Report(input) <==> IsFinding(input, f) {
      FindingsBelongToPasses(input, f);
      if pass :| f.name in Names(input, pass) && f == Candidate(input, pass, f.name) {
        assert pass == Recipes || pass == Reality || pass == CiJobs || pass == JustTargets;
      }
    }
  }

  lemma {:induction false} EntryOfIsNamed(entries: seq<FixtureEntry>, name: string)
    ensures var entry := EntryOf(entries, name);
            if entry.Some? then entry.value in entries && entry.value.name == name
            else forall e :: e in entries ==> e.name != name
  {
    if entries != [] {
      var n := |entries| - 1;
      EntryOfIsNamed(entries[..n], name);
      assert entries == entries[..n] + [entries[n]];
    }
  }

  lemma OneMoreDuplicate(entries: seq<FixtureEntry>, entry: FixtureEntry, name: string)
    ensures IsEntryFinding(entries + [entry], DuplicateFixtureEntry(name)) <==>
            || IsEntryFinding(entries, DuplicateFixtureEntry(name))
            || (name == entry.name && exists e :: e in entries && e.name == name)
  {
    var more := entries + [entry];
    if i, j :| 0 <= i < j < |entries| && entries[i].name == entries[j].name == name {
      assert more[i].name == more[j].name == name;
    }
    if i :| 0 <= i < |entries| && entries[i].name == entry.name {
      assert more[i].name == more[|entries|].name;
    }
  }

  lemma OneMoreEntry(fixture: seq<FixtureEntry>, i: nat)
    requires i < |fixture|
    ensures var entry := fixture[i];
            forall f :: IsEntryFinding(fixture[..i + 1], f) <==>
              || IsEntryFinding(fixture[..i], f)
              || (f == MissingReason(entry.name) && IsBlank(entry.reason))
              || (f == FixtureEntryNotDivergent(entry.name) && entry.presentInJustCheck && entry.presentInCi)
              || (f == DuplicateFixtureEntry(entry.name) && EntryOf(fixture[..i], entry.name).Some?)
  {
    hide IsBlank, EntryOf;
    var entry := fixture[i];
    assert fixture[..i + 1] == fixture[..i] + [entry];
    EntryOfIsNamed(fixture[..i], entry.name);
    forall f
      ensures IsEntryFinding(fixture[..i + 1], f) <==>
        || IsEntryFinding(fixture[..i], f)
        || (f == MissingReason(entry.name) && IsBlank(entry.reason))
        || (f == FixtureEntryNotDivergent(entry.name) && entry.presentInJustCheck && entry.presentInCi)
        || (f == DuplicateFixtureEntry(entry.name) && EntryOf(fixture[..i], entry.name).Some?)
    {
      if f.DuplicateFixtureEntry? {
        OneMoreDuplicate(fixture[..i], entry, f.name);
      }
    }
  }

  // ----- Parity ------------------------------------------------------------

  predicate NamesAreUnique(entries: seq<FixtureEntry>) {
    forall i, j :: 0 <= i < j < |entries| ==> entries[i].name != entries[j].name
  }

  /** A record of a real divergence, with a reason. */
  predicate IsTrue(input: ParityInput, entry: FixtureEntry) {
    && !IsBlank(entry.reason)
    && !(entry.presentInJustCheck && entry.presentInCi)
    && entry.presentInJustCheck == (entry.name in input.justTargets)
    && entry.presentInCi == (entry.name in input.ciJobs)
  }

  predicate InExactlyOne(input: ParityInput, name: string) {
    (name in input.justTargets) != (name in input.ciJobs)
  }

  predicate Parity(input: ParityInput) {
    && NamesAreUnique(input.fixtureEntries)
    && (forall e :: e in input.fixtureEntries ==> IsTrue(input, e))
    && input.justTargets <= input.justRecipes
    && (forall name :: name in input.justTargets + input.ciJobs && InExactlyOne(input, name) ==>
          exists e :: e in input.fixtureEntries && e.name == name)
  }

  /** The gate is silent exactly on parity, in both directions of both sets. */
  lemma SilentIffParity(input: ParityInput)
    ensures (forall f :: !IsFinding(input, f)) <==> Parity(input)
  {
    if Parity(input) {
      forall f ensures !IsFinding(input, f) {
        ParityLeavesNoFinding(input, f);
      }
    }
    if forall f :: !IsFinding(input, f) {
      SilenceIsParity(input);
    }
  }

  lemma ParityLeavesNoFinding(input: ParityInput, f: Finding)
    requires Parity(input)
    ensures !IsFinding(input, f)
  {
    hide IsBlank, EntryOf;
    EntryOfIsNamed(input.fixtureEntries, f.name);
    assert f.name in input.justTargets + input.ciJobs ==>
      !InExactlyOne(input, f.name) || exists e :: e in input.fixtureEntries && e.name == f.name;
  }

  lemma SilenceIsParity(input: ParityInput)
    requires forall f :: !IsFinding(input, f)
    ensures Parity(input)
  {
    hide IsBlank, EntryOf;
    var entries := input.fixtureEntries;
    forall i, j | 0 <= i < j < |entries| ensures entries[i].name != entries[j].name {
      assert !IsFinding(input, DuplicateFixtureEntry(entries[i].name));
    }
    forall e | e in entries ensures IsTrue(input, e) {
      assert !IsFinding(input, MissingReason(e.name));
      assert !IsFinding(input, FixtureEntryNotDivergent(e.name));
      EntryOfIsNamed(entries, e.name);
      assert EntryOf(entries, e.name) == Some(e);
      assert !IsFinding(input, FixtureEntryDoesNotMatchReality(
        e.name, e.presentInJustCheck, e.name in input.justTargets, e.presentInCi, e.name in input.ciJobs));
    }
    forall name | name in input.justTargets ensures name in input.justRecipes {
      assert !IsFinding(input, JustTargetRecipeMissing(name));
    }
    forall name | name in input.justTargets + input.ciJobs && InExactlyOne(input, name)
      ensures exists e :: e in entries && e.name == name
    {
      EntryOfIsNamed(entries, name);
      assert !IsFinding(input, CiJobUnaccounted(name)) && !IsFinding(input, JustTargetUnaccounted(name));
    }
  }

  /** Under parity the entries are exactly the record of the difference: whatever is in one set
      only is excused from the other by an entry that says so. */
  lemma ParityExcuses(input: ParityInput, name: string)
    requires Parity(input)
    ensures name in input.ciJobs && name !in input.justTargets ==> ExcusedFromJust(EntryOf(input.fixtureEntries, name))
    ensures name in input.justTargets && name !in input.ciJobs ==> ExcusedFromCi(EntryOf(input.fixtureEntries, name))
  {
    hide IsBlank, EntryOf;
    EntryOfIsNamed(input.fixtureEntries, name);
    assert name in input.justTargets + input.ciJobs ==>
      !InExactlyOne(input, name) || exists e :: e in input.fixtureEntries && e.name == name;
  }
}
