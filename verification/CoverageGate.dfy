/** The coverage gate over the merged, cross-instantiation view: a line or a region is covered
    when anything that spans it ran. */
module CoverageGate {
  import opened Text

  const SKIPPED_REGION := 2

  datatype Region = Region(
    startLine: int, startCol: int, endLine: int, endCol: int, count: nat, fileId: nat, kind: int)

  /** One instantiation of a function. */
  datatype Record = Record(filenames: seq<string>, regions: seq<Region>)

  datatype Group = Group(files: set<string>, functions: seq<Record>)

  /** What the merged views are keyed by: a line of a file, or a span of it. */
  datatype Place =
    | Line(file: string, line: int)
    | Span(file: string, startLine: int, startCol: int, endLine: int, endCol: int)

  datatype Attribution = Attribution(file: string, region: Region) {
    predicate Touches(place: Place) {
      match place
      case Line(f, line) => file == f && region.startLine <= line <= region.endLine
      case Span(_, _, _, _, _) => Extent() == place
    }

    function Extent(): Place {
      Span(file, region.startLine, region.startCol, region.endLine, region.endCol)
    }
  }

  // ----- What counts -------------------------------------------------------

  predicate Counts(record: Record, files: set<string>, a: Attribution) {
    && a.region.kind != SKIPPED_REGION
    && a.region.fileId < |record.filenames| && record.filenames[a.region.fileId] == a.file
    && a.file in files
  }

  ghost predicate AttributedBy(group: Group, a: Attribution) {
    exists record :: record in group.functions && a.region in record.regions && Counts(record, group.files, a)
  }

  /** The export attributes a region to a file of the same group, in some instantiation. */
  ghost predicate Attributed(doc: seq<Group>, a: Attribution) {
    exists group :: group in doc && AttributedBy(group, a)
  }

  ghost predicate Counted(doc: seq<Group>, place: Place) {
    exists a: Attribution :: Attributed(doc, a) && a.Touches(place)
  }

  /** Something counted spans the place, and nothing that spans it ran. */
  ghost predicate Uncovered(doc: seq<Group>, place: Place) {
    && Counted(doc, place)
    && forall a: Attribution :: Attributed(doc, a) && a.Touches(place) ==> a.region.count == 0
  }

  method AttributedRegions(doc: seq<Group>) returns (regions: seq<Attribution>)
    ensures forall a: Attribution :: a in regions <==> Attributed(doc, a)
  {
    hide Counts;
    regions := [];
    for i := 0 to |doc|
      invariant forall a: Attribution :: a in regions <==> Attributed(doc[..i], a)
    {
      var group := doc[i];
      ghost var others := regions;
      for j := 0 to |group.functions|
        invariant forall a: Attribution :: a in regions <==>
          a in others || AttributedBy(Group(group.files, group.functions[..j]), a)
      {
        var record := group.functions[j];
        ghost var before := regions;
        for k := 0 to |record.regions|
          invariant forall a: Attribution :: a in regions <==>
            a in before || (a.region in record.regions[..k] && Counts(record, group.files, a))
        {
          regions := regions + Attribute(record, group.files, record.regions[k]);
        }
        assert record.regions[..|record.regions|] == record.regions;
        assert group.functions[..j + 1] == group.functions[..j] + [record];
      }
      assert group.functions[..|group.functions|] == group.functions;
      assert doc[..i + 1] == doc[..i] + [group];
    }
    assert doc[..|doc|] == doc;
  }

  function Attribute(record: Record, files: set<string>, region: Region): (found: seq<Attribution>)
    ensures forall a: Attribution :: a in found <==> a.region == region && Counts(record, files, a)
  {
    if region.kind == SKIPPED_REGION || region.fileId >= |record.filenames| then []
    else if record.filenames[region.fileId] in files then [Attribution(record.filenames[region.fileId], region)]
    else []
  }

  // ----- The merged views --------------------------------------------------

  /** The greatest count among the regions that touch a place. */
  function MaxCount(regions: seq<Attribution>, place: Place): Option<nat> {
    if regions == [] then None
    else
      var last := regions[|regions| - 1];
      var earlier := MaxCount(regions[..|regions| - 1], place);
      if !last.Touches(place) then earlier
      else if earlier.Some? && earlier.value > last.region.count then earlier
      else Some(last.region.count)
  }

  lemma {:induction false} MaxCountIsTheMaximum(regions: seq<Attribution>, place: Place)
    ensures MaxCount(regions, place).None? <==> forall a: Attribution :: a in regions ==> !a.Touches(place)
    ensures MaxCount(regions, place).Some? ==>
              && (exists a: Attribution :: a in regions && a.Touches(place) && a.region.count == MaxCount(regions, place).value)
              && (forall a: Attribution :: a in regions && a.Touches(place) ==>
                    a.region.count <= MaxCount(regions, place).value)
  {
    if regions != [] {
      var rest := regions[..|regions| - 1];
      MaxCountIsTheMaximum(rest, place);
      assert regions == rest + [regions[|regions| - 1]];
    }
  }

  lemma MaxCountDecides(doc: seq<Group>, regions: seq<Attribution>, place: Place)
    requires forall a: Attribution :: a in regions <==> Attributed(doc, a)
    ensures MaxCount(regions, place).Some? <==> Counted(doc, place)
    ensures MaxCount(regions, place) == Some(0) <==> Uncovered(doc, place)
  {
    MaxCountIsTheMaximum(regions, place);
  }

  function Merge(view: map<Place, nat>, place: Place, count: nat): map<Place, nat> {
    view[place := if place in view && view[place] > count then view[place] else count]
  }

  /** Whether a view holds the greatest count of each place `wanted` says it keeps. */
  ghost predicate Holds(view: map<Place, nat>, place: Place, count: Option<nat>) {
    if count.Some? then place in view && view[place] == count.value else place !in view
  }

  function ZeroPlaces(view: map<Place, nat>): set<Place> {
    set place | place in view && view[place] == 0
  }

  method MergedLineUncovered(doc: seq<Group>) returns (counted: nat, uncovered: set<Place>, ghost lines: set<Place>)
    ensures forall place: Place :: place in lines <==> place.Line? && Counted(doc, place)
    ensures counted == |lines|
    ensures forall place: Place :: place in uncovered <==> place.Line? && Uncovered(doc, place)
  {
    hide Counted, Uncovered, Attributed;
    var regions := AttributedRegions(doc);
    var lineMax: map<Place, nat> := map[];
    for i := 0 to |regions|
      invariant forall place: Place :: Holds(lineMax, place, if place.Line? then MaxCount(regions[..i], place) else None)
    {
      var file, region := regions[i].file, regions[i].region;
      assert regions[..i + 1][..i] == regions[..i];
      var line := region.startLine;
      while line <= region.endLine
        invariant region.startLine <= line && (line <= region.endLine + 1 || line == region.startLine)
        invariant forall place: Place :: Holds(lineMax, place,
          if !place.Line? then None
          else if place.file == file && region.startLine <= place.line < line then MaxCount(regions[..i + 1], place)
          else MaxCount(regions[..i], place))
        decreases region.endLine - line
      {
        lineMax := Merge(lineMax, Line(file, line), region.count);
        line := line + 1;
      }
    }
    assert regions[..|regions|] == regions;
    counted, uncovered, lines := |lineMax|, ZeroPlaces(lineMax), lineMax.Keys;
    forall place: Place ensures place.Line? ==> (place in lineMax <==> Counted(doc, place))
                 ensures place.Line? ==> (place in uncovered <==> Uncovered(doc, place)) {
      MaxCountDecides(doc, regions, place);
    }
  }

  method MergedRegionUncovered(doc: seq<Group>) returns (uncovered: set<Place>)
    ensures forall place: Place :: place in uncovered <==> place.Span? && Uncovered(doc, place)
  {
    hide Counted, Uncovered, Attributed;
    var regions := AttributedRegions(doc);
    var regionMax: map<Place, nat> := map[];
    for i := 0 to |regions|
      invariant forall place: Place :: Holds(regionMax, place, if place.Span? then MaxCount(regions[..i], place) else None)
    {
      assert regions[..i + 1][..i] == regions[..i];
      regionMax := Merge(regionMax, regions[i].Extent(), regions[i].region.count);
    }
    assert regions[..|regions|] == regions;
    uncovered := ZeroPlaces(regionMax);
    forall place: Place ensures place.Span? ==> (place in uncovered <==> Uncovered(doc, place)) {
      MaxCountDecides(doc, regions, place);
    }
  }

  // ----- The gate ----------------------------------------------------------

  datatype Verdict =
    | Pass
    | WrongUsage
    | UnreadableExport
    | UnreadableListing
    | LinesNamed(count: nat)
    | NothingAttributed
    | LinesUncovered(lines: set<Place>)
    | RegionsUncovered(regions: set<Place>)

  function NamedLines(rows: seq<nat>): nat {
    if rows == [] then 0 else NamedLines(rows[..|rows| - 1]) + rows[|rows| - 1]
  }

  /** The lines all rows name, each row's added. */
  lemma {:induction false} NamedLinesAdd(a: seq<nat>, b: seq<nat>)
    ensures NamedLines(a + b) == NamedLines(a) + NamedLines(b)
    ensures |b| == 1 ==> NamedLines(b) == b[0]
  {
    if b == [] {
      assert a + b == a;
    } else {
      NamedLinesAdd(a, b[..|b| - 1]);
      assert (a + b)[..|a + b| - 1] == a + b[..|b| - 1];
    }
  }

  method Nameable(rows: seq<nat>) returns (count: nat)
    ensures count == NamedLines(rows)
  {
    count := 0;
    for i := 0 to |rows|
      invariant count == NamedLines(rows[..i])
    {
      assert rows[..i + 1][..i] == rows[..i];
      count := count + rows[i];
    }
    assert rows[..|rows|] == rows;
  }

  /** The checks in order; the first failure is the verdict. `arguments` counts the program's
      own name too, and `listing` has, for every row of the missing-lines listing, how many
      lines it names. */
  method Gate(arguments: nat, exported: Option<seq<Group>>, listing: Option<seq<nat>>) returns (verdict: Verdict)
    ensures verdict == WrongUsage <==> arguments != 3
    ensures verdict == Pass <==>
              && arguments == 3 && exported.Some? && listing.Some? && NamedLines(listing.value) == 0
              && (exists place: Place :: place.Line? && Counted(exported.value, place))
              && forall place: Place :: !Uncovered(exported.value, place)
    ensures verdict == UnreadableExport <==> arguments == 3 && exported.None?
    ensures verdict == UnreadableListing <==> arguments == 3 && exported.Some? && listing.None?
    ensures verdict.LinesNamed? <==> arguments == 3 && exported.Some? && listing.Some? && NamedLines(listing.value) > 0
    ensures verdict == NothingAttributed <==>
              && arguments == 3 && exported.Some? && listing.Some? && NamedLines(listing.value) == 0
              && forall place: Place :: place.Line? ==> !Counted(exported.value, place)
    ensures verdict.LinesUncovered? <==>
              && arguments == 3 && exported.Some? && listing.Some? && NamedLines(listing.value) == 0
              && exists place: Place :: place.Line? && Uncovered(exported.value, place)
    ensures verdict.LinesNamed? ==> verdict.count == NamedLines(listing.value)
    ensures verdict.LinesUncovered? ==>
              forall place: Place :: place in verdict.lines <==> place.Line? && Uncovered(exported.value, place)
    ensures verdict.RegionsUncovered? ==>
              forall place: Place :: place in verdict.regions <==> place.Span? && Uncovered(exported.value, place)
  {
    hide Counted, Attributed;
    if arguments != 3 {
      return WrongUsage;
    }
    if exported.None? {
      return UnreadableExport;
    }
    if listing.None? {
      return UnreadableListing;
    }
    var named := Nameable(listing.value);
    if named > 0 {
      return LinesNamed(named);
    }
    var counted, uncovered, lines := MergedLineUncovered(exported.value);
    if counted == 0 {
      assert lines == {};
      return NothingAttributed;
    }
    assert exists place: Place :: place in lines;
    if uncovered != {} {
      return LinesUncovered(uncovered);
    }
    var regions := MergedRegionUncovered(exported.value);
    if regions != {} {
      return RegionsUncovered(regions);
    }
    assert forall place: Place :: place.Line? || place.Span?;
    return Pass;
  }

  // ----- Properties of the merged view -------------------------------------

  /** The `k`-th region of the `f`-th instantiation in the `g`-th group. */
  function RegionAt(doc: seq<Group>, g: nat, f: nat, k: nat): Option<Region> {
    if g < |doc| && f < |doc[g].functions| && k < |doc[g].functions[f].regions| then
      Some(doc[g].functions[f].regions[k])
    else None
  }

  /** It is not skipped, and its file, looked up by file id, is one of its group's. */
  predicate AttributedTo(doc: seq<Group>, g: nat, f: nat, k: nat, file: string) {
    && RegionAt(doc, g, f, k).Some?
    && var r, names := RegionAt(doc, g, f, k).value, doc[g].functions[f].filenames;
       r.kind != 2 && r.fileId < |names| && names[r.fileId] == file && file in doc[g].files
  }

  lemma AttributedIsSomewhere(doc: seq<Group>, a: Attribution) returns (g: nat, f: nat, k: nat)
    requires Attributed(doc, a)
    ensures AttributedTo(doc, g, f, k, a.file) && RegionAt(doc, g, f, k) == Some(a.region)
  {
    var group :| group in doc && AttributedBy(group, a);
    var record :| record in group.functions && a.region in record.regions && Counts(record, group.files, a);
    g :| 0 <= g < |doc| && doc[g] == group;
    f :| 0 <= f < |group.functions| && group.functions[f] == record;
    k :| 0 <= k < |record.regions| && record.regions[k] == a.region;
  }

  lemma RegionIsAttributed(doc: seq<Group>, g: nat, f: nat, k: nat, file: string)
    requires AttributedTo(doc, g, f, k, file)
    ensures RegionAt(doc, g, f, k).Some? && Attributed(doc, Attribution(file, RegionAt(doc, g, f, k).value))
  {
    var a := Attribution(file, RegionAt(doc, g, f, k).value);
    assert Counts(doc[g].functions[f], doc[g].files, a);
    assert AttributedBy(doc[g], a);
  }

  /** A line counts when an attributed region begins at it or before and ends at it or after; a
      span counts when an attributed region has just its four coordinates. */
  lemma CountedIff(doc: seq<Group>, file: string, line: int, column: int, endLine: int, endColumn: int)
    ensures Counted(doc, Line(file, line)) <==>
            exists g: nat, f: nat, k: nat :: AttributedTo(doc, g, f, k, file)
              && var r := RegionAt(doc, g, f, k).value; r.startLine <= line && line <= r.endLine
    ensures Counted(doc, Span(file, line, column, endLine, endColumn)) <==>
            exists g: nat, f: nat, k: nat :: AttributedTo(doc, g, f, k, file)
              && var r := RegionAt(doc, g, f, k).value;
                 r.startLine == line && r.startCol == column && r.endLine == endLine && r.endCol == endColumn
  {
    hide AttributedTo, Attributed;
    if Counted(doc, Line(file, line)) {
      var a: Attribution :| Attributed(doc, a) && a.Touches(Line(file, line));
      var g, f, k := AttributedIsSomewhere(doc, a);
    }
    if Counted(doc, Span(file, line, column, endLine, endColumn)) {
      var a: Attribution :| Attributed(doc, a) && a.Touches(Span(file, line, column, endLine, endColumn));
      var g, f, k := AttributedIsSomewhere(doc, a);
    }
    forall g: nat, f: nat, k: nat | AttributedTo(doc, g, f, k, file)
      ensures RegionAt(doc, g, f, k).Some?
      ensures var r := RegionAt(doc, g, f, k).value;
              && (r.startLine <= line && line <= r.endLine ==> Counted(doc, Line(file, line)))
              && Counted(doc, Span(file, r.startLine, r.startCol, r.endLine, r.endCol))
    {
      RegionIsAttributed(doc, g, f, k, file);
      var a := Attribution(file, RegionAt(doc, g, f, k).value);
      assert a.Touches(a.Extent());
      assert a.Touches(Line(file, line)) <==> a.region.startLine <= line && line <= a.region.endLine;
    }
  }

  /** The instantiation `record` ran the region it attributes. */
  ghost predicate Ran(doc: seq<Group>, group: Group, record: Record, a: Attribution) {
    && group in doc && record in group.functions && a.region in record.regions
    && Counts(record, group.files, a) && a.region.count > 0
  }

  /** Covered means that some single instantiation ran something there: no line is missed
      because its coverage is spread over instantiations. */
  lemma CoveredIffSomethingRan(doc: seq<Group>, place: Place)
    requires Counted(doc, place)
    ensures !Uncovered(doc, place) <==>
            (exists group, record, a: Attribution :: Ran(doc, group, record, a) && a.Touches(place))
  {
    hide Counts, Attribution.Touches;
    if !Uncovered(doc, place) {
      var a: Attribution :| Attributed(doc, a) && a.Touches(place) && a.region.count > 0;
      var group :| group in doc && AttributedBy(group, a);
      var record :| record in group.functions && a.region in record.regions && Counts(record, group.files, a);
      assert Ran(doc, group, record, a);
    }
    if group, record, a: Attribution :| Ran(doc, group, record, a) && a.Touches(place) {
      assert AttributedBy(group, a);
      assert Attributed(doc, a);
    }
  }

  predicate Widens(group: Group, other: Group) {
    other.files == group.files && forall record :: record in group.functions ==> record in other.functions
  }

  /** A larger export: every group is still there, with the same files and every one of its
      instantiations. */
  ghost predicate Extends(doc: seq<Group>, larger: seq<Group>) {
    forall group :: group in doc ==> exists other :: other in larger && Widens(group, other)
  }

  /** More instantiations never uncover a place, and never take one out of the count. */
  lemma MoreInstantiationsNeverUncover(doc: seq<Group>, larger: seq<Group>, place: Place)
    requires Extends(doc, larger)
    ensures Counted(doc, place) ==> Counted(larger, place)
    ensures Counted(doc, place) && Uncovered(larger, place) ==> Uncovered(doc, place)
  {
    forall a: Attribution | Attributed(doc, a) ensures Attributed(larger, a) {
      var group :| group in doc && AttributedBy(group, a);
      var other :| other in larger && Widens(group, other);
      assert AttributedBy(other, a);
    }
  }

  /** The order and the repetition of groups and of instantiations is irrelevant. */
  lemma OrderIsIrrelevant(doc: seq<Group>, other: seq<Group>, place: Place)
    requires Extends(doc, other) && Extends(other, doc)
    ensures Counted(doc, place) <==> Counted(other, place)
    ensures Uncovered(doc, place) <==> Uncovered(other, place)
  {
    hide Extends, Counted;
    MoreInstantiationsNeverUncover(doc, other, place);
    MoreInstantiationsNeverUncover(other, doc, place);
  }

  /** An uncovered line lies in an uncovered region, so an export whose region view has no gap
      has none in its line view. */
  lemma RegionsCoverLines(doc: seq<Group>, line: Place)
    requires line.Line? && Uncovered(doc, line)
    ensures exists region: Place :: region.Span? && Uncovered(doc, region)
  {
    var a: Attribution :| Attributed(doc, a) && a.Touches(line);
    assert a.Touches(a.Extent());
    forall b: Attribution | Attributed(doc, b) && b.Touches(a.Extent()) ensures b.region.count == 0 {
      assert b.Touches(line);
    }
    assert Uncovered(doc, a.Extent());
  }

  /** The region view is strictly finer: a covered line can hold an uncovered region. */
  lemma LinesDoNotCoverRegions(file: string)
    ensures var ran := Region(1, 1, 1, 9, 1, 0, 0);
            var missed := Region(1, 4, 1, 5, 0, 0, 0);
            var doc := [Group({file}, [Record([file], [ran, missed])])];
            && (forall place: Place :: place.Line? ==> !Uncovered(doc, place))
            && Uncovered(doc, Attribution(file, missed).Extent())
  {
    var ran := Attribution(file, Region(1, 1, 1, 9, 1, 0, 0));
    var missed := Attribution(file, Region(1, 4, 1, 5, 0, 0, 0));
    var record := Record([file], [ran.region, missed.region]);
    var group := Group({file}, [record]);
    var doc := [group];
    forall a: Attribution ensures Attributed(doc, a) <==> a == ran || a == missed {
      assert record in group.functions && group in doc;
      assert ran.region in record.regions && missed.region in record.regions;
      assert a == ran || a == missed ==> AttributedBy(group, a);
    }
    assert Attributed(doc, ran) && ran.Touches(Line(file, 1));
    assert Attributed(doc, missed) && missed.Touches(missed.Extent());
    hide Attributed;
    forall place: Place | place.Line? ensures !Uncovered(doc, place) {
      assert missed.Touches(place) ==> ran.Touches(place);
    }
  }
}
