/** The menu tree, derived from the menu path of every registered action. */
module MenuTree {
  import opened Ordering

  datatype ActionSpec = ActionSpec(id: string, name: string, menuPath: seq<string>) {
    function TopLabel(): string {
      if menuPath != [] then menuPath[0] else name
    }

    /** A shallow path degenerates to a group of its own name. */
    function GroupLabel(): string {
      if |menuPath| > 1 then menuPath[1] else TopLabel()
    }
  }

  datatype MenuGroup = MenuGroup(name: string, actions: seq<ActionSpec>)

  datatype MenuTop = MenuTop(name: string, groups: seq<MenuGroup>)

  // ----- What the tree is --------------------------------------------------

  /** Each label once, in the order in which it is first seen. */
  function FirstAppearances(labels: seq<string>): seq<string> {
    if labels == [] then []
    else
      var earlier, last := FirstAppearances(labels[..|labels| - 1]), labels[|labels| - 1];
      if last in earlier then earlier else earlier + [last]
  }

  function TopLabels(specs: seq<ActionSpec>): (labels: seq<string>)
    ensures |labels| == |specs| && forall i :: 0 <= i < |specs| ==> labels[i] == specs[i].TopLabel()
  {
    seq(|specs|, i requires 0 <= i < |specs| => specs[i].TopLabel())
  }

  function GroupLabels(specs: seq<ActionSpec>): (labels: seq<string>)
    ensures |labels| == |specs| && forall i :: 0 <= i < |specs| ==> labels[i] == specs[i].GroupLabel()
  {
    seq(|specs|, i requires 0 <= i < |specs| => specs[i].GroupLabel())
  }

  /** The actions with this bar label, in registry order. */
  function UnderTop(specs: seq<ActionSpec>, name: string): seq<ActionSpec> {
    if specs == [] then []
    else UnderTop(specs[..|specs| - 1], name)
         + if specs[|specs| - 1].TopLabel() == name then [specs[|specs| - 1]] else []
  }

  /** The actions with this group label, in registry order. */
  function InGroup(specs: seq<ActionSpec>, name: string): seq<ActionSpec> {
    if specs == [] then []
    else InGroup(specs[..|specs| - 1], name)
         + if specs[|specs| - 1].GroupLabel() == name then [specs[|specs| - 1]] else []
  }

  predicate IsMenuOf(top: MenuTop, members: seq<ActionSpec>) {
    var labels := FirstAppearances(GroupLabels(members));
    && |top.groups| == |labels|
    && forall j :: 0 <= j < |labels| ==> top.groups[j] == MenuGroup(labels[j], InGroup(members, labels[j]))
  }

  /** The tree a registry has: bar nodes and groups by first appearance, and in each group its
      actions in registry order. */
  predicate IsTreeOf(tops: seq<MenuTop>, registry: seq<ActionSpec>) {
    var labels := FirstAppearances(TopLabels(registry));
    && |tops| == |labels|
    && forall i :: 0 <= i < |labels| ==>
         tops[i].name == labels[i] && IsMenuOf(tops[i], UnderTop(registry, labels[i]))
  }

  // ----- Building it -------------------------------------------------------

  method MenuTree(registry: seq<ActionSpec>) returns (tops: seq<MenuTop>)
    ensures IsTreeOf(tops, registry)
    ensures multiset(AllActions(tops)) == multiset(registry)
  {
    hide IsTreeOf, AllActions, Added;
    tops := [];
    NothingToShow();
    for n := 0 to |registry|
      invariant IsTreeOf(tops, registry[..n])
      invariant multiset(AllActions(tops)) == multiset(registry[..n])
    {
      assert registry[..n + 1] == registry[..n] + [registry[n]];
      OneMoreAction(tops, registry[..n], registry[n]);
      OneActionIsAdded(tops, registry[n]);
      tops := Add(tops, registry[n]);
    }
    assert registry[..|registry|] == registry;
  }

  /** One turn of the loop over the registry. */
  method Add(shown: seq<MenuTop>, spec: ActionSpec) returns (tops: seq<MenuTop>)
    ensures tops == Added(shown, spec)
  {
    tops := shown;
    var topIndex := FindTop(tops, spec.TopLabel());
    if topIndex == |tops| {
      tops := tops + [MenuTop(spec.TopLabel(), [])];
    }
    var groups := tops[topIndex].groups;
    var j := FindGroup(groups, spec.GroupLabel());
    if j < |groups| {
      groups := groups[j := groups[j].(actions := groups[j].actions + [spec])];
    } else {
      groups := groups + [MenuGroup(spec.GroupLabel(), [spec])];
    }
    tops := tops[topIndex := tops[topIndex].(groups := groups)];
  }

  /** The first bar node with this label, or the length of the bar. */
  method FindTop(tops: seq<MenuTop>, name: string) returns (i: nat)
    ensures i == TopPosition(tops, name)
  {
    i := 0;
    while i < |tops| && tops[i].name != name
      invariant i <= |tops|
      invariant TopPosition(tops, name) == i + TopPosition(tops[i..], name)
    {
      assert tops[i..][1..] == tops[i + 1..];
      i := i + 1;
    }
  }

  method FindGroup(groups: seq<MenuGroup>, name: string) returns (i: nat)
    ensures i == GroupPosition(groups, name)
  {
    i := 0;
    while i < |groups| && groups[i].name != name
      invariant i <= |groups|
      invariant GroupPosition(groups, name) == i + GroupPosition(groups[i..], name)
    {
      assert groups[i..][1..] == groups[i + 1..];
      i := i + 1;
    }
  }

  function TopPosition(tops: seq<MenuTop>, name: string): (i: nat)
    ensures i <= |tops| && (i < |tops| ==> tops[i].name == name)
    ensures forall k :: 0 <= k < i ==> tops[k].name != name
  {
    if tops == [] || tops[0].name == name then 0 else 1 + TopPosition(tops[1..], name)
  }

  function GroupPosition(groups: seq<MenuGroup>, name: string): (i: nat)
    ensures i <= |groups| && (i < |groups| ==> groups[i].name == name)
    ensures forall k :: 0 <= k < i ==> groups[k].name != name
  {
    if groups == [] || groups[0].name == name then 0 else 1 + GroupPosition(groups[1..], name)
  }

  /** What one action does to a bar node. */
  function WithAction(top: MenuTop, spec: ActionSpec): MenuTop {
    var j := GroupPosition(top.groups, spec.GroupLabel());
    if j < |top.groups| then
      top.(groups := top.groups[j := top.groups[j].(actions := top.groups[j].actions + [spec])])
    else top.(groups := top.groups + [MenuGroup(spec.GroupLabel(), [spec])])
  }

  /** What one action does to the tree. */
  function Added(tops: seq<MenuTop>, spec: ActionSpec): seq<MenuTop> {
    var i := TopPosition(tops, spec.TopLabel());
    if i < |tops| then tops[i := WithAction(tops[i], spec)]
    else tops + [WithAction(MenuTop(spec.TopLabel(), []), spec)]
  }

  lemma NothingToShow()
    ensures IsTreeOf([], []) && AllActions([]) == []
  {
  }

  // ----- First appearances -------------------------------------------------

  lemma {:induction false} AppearancesAreTheLabels(labels: seq<string>)
    ensures forall x :: x in FirstAppearances(labels) <==> x in labels
    ensures Distinct(FirstAppearances(labels))
  {
    if labels != [] {
      var n := |labels| - 1;
      AppearancesAreTheLabels(labels[..n]);
      assert forall x :: x in labels <==> x in labels[..n] + [labels[n]];
      var earlier := FirstAppearances(labels[..n]);
      if labels[n] !in earlier {
        DistinctWithOneMore(earlier, labels[n]);
      }
    }
  }

  lemma DistinctWithOneMore(names: seq<string>, name: string)
    requires Distinct(names) && name !in names
    ensures Distinct(names + [name])
  {
  }

  function FirstIndex(labels: seq<string>, name: string): (i: nat)
    requires name in labels
    ensures i < |labels| && labels[i] == name && name !in labels[..i]
  {
    if labels[0] == name then
      assert labels[..0] == [];
      0
    else
      var i := 1 + FirstIndex(labels[1..], name);
      assert labels[..i] == [labels[0]] + labels[1..][..i - 1];
      i
  }

  lemma {:induction false} FirstIndexIs(labels: seq<string>, name: string, k: nat)
    requires k < |labels| && labels[k] == name && name !in labels[..k]
    ensures FirstIndex(labels, name) == k
  {
    if k > 0 {
      assert labels[..k] == [labels[0]] + labels[1..][..k - 1];
      FirstIndexIs(labels[1..], name, k - 1);
    }
  }

  lemma FirstIndexStays(labels: seq<string>, name: string)
    requires labels != [] && name in labels[..|labels| - 1]
    ensures name in labels && FirstIndex(labels, name) == FirstIndex(labels[..|labels| - 1], name) < |labels| - 1
  {
    var k := FirstIndex(labels[..|labels| - 1], name);
    assert labels[..|labels| - 1][..k] == labels[..k];
    FirstIndexIs(labels, name, k);
  }

  /** First appearances come in the order in which the labels first appear. */
  lemma {:induction false} AppearancesKeepTheOrder(labels: seq<string>, i: nat, j: nat)
    requires i < j < |FirstAppearances(labels)|
    ensures FirstAppearances(labels)[i] in labels && FirstAppearances(labels)[j] in labels
    ensures FirstIndex(labels, FirstAppearances(labels)[i]) < FirstIndex(labels, FirstAppearances(labels)[j])
  {
    var n := |labels| - 1;
    var earlier, last := FirstAppearances(labels[..n]), labels[n];
    AppearancesAreTheLabels(labels[..n]);
    FirstIndexStays(labels, earlier[i]);
    if j < |earlier| {
      AppearancesKeepTheOrder(labels[..n], i, j);
      FirstIndexStays(labels, earlier[j]);
    } else {
      FirstIndexIs(labels, last, n);
    }
  }

  lemma {:induction false} AbsentGroupIsEmpty(specs: seq<ActionSpec>, name: string)
    requires name !in GroupLabels(specs)
    ensures InGroup(specs, name) == []
  {
    if specs != [] {
      var n := |specs| - 1;
      assert GroupLabels(specs)[..n] == GroupLabels(specs[..n]);
      assert GroupLabels(specs)[n] != name;
      AbsentGroupIsEmpty(specs[..n], name);
    }
  }

  lemma {:induction false} AbsentTopIsEmpty(specs: seq<ActionSpec>, name: string)
    requires name !in TopLabels(specs)
    ensures UnderTop(specs, name) == []
  {
    if specs != [] {
      var n := |specs| - 1;
      assert TopLabels(specs)[..n] == TopLabels(specs[..n]);
      assert TopLabels(specs)[n] != name;
      AbsentTopIsEmpty(specs[..n], name);
    }
  }

  // ----- One more action ---------------------------------------------------

  lemma GroupStep(members: seq<ActionSpec>, spec: ActionSpec)
    ensures FirstAppearances(GroupLabels(members + [spec]))
            == var earlier := FirstAppearances(GroupLabels(members));
               if spec.GroupLabel() in earlier then earlier else earlier + [spec.GroupLabel()]
    ensures forall name ::
      InGroup(members + [spec], name) == InGroup(members, name) + (if spec.GroupLabel() == name then [spec] else [])
  {
    assert (members + [spec])[..|members|] == members;
    assert GroupLabels(members + [spec])[..|members|] == GroupLabels(members);
  }

  lemma TopStep(specs: seq<ActionSpec>, spec: ActionSpec)
    ensures FirstAppearances(TopLabels(specs + [spec]))
            == var earlier := FirstAppearances(TopLabels(specs));
               if spec.TopLabel() in earlier then earlier else earlier + [spec.TopLabel()]
    ensures forall name ::
      UnderTop(specs + [spec], name) == UnderTop(specs, name) + (if spec.TopLabel() == name then [spec] else [])
  {
    assert (specs + [spec])[..|specs|] == specs;
    assert TopLabels(specs + [spec])[..|specs|] == TopLabels(specs);
  }

  lemma OneMoreMember(top: MenuTop, members: seq<ActionSpec>, spec: ActionSpec)
    requires IsMenuOf(top, members)
    ensures IsMenuOf(WithAction(top, spec), members + [spec]) && WithAction(top, spec).name == top.name
  {
    hide FirstAppearances, InGroup;
    var labels, name := FirstAppearances(GroupLabels(members)), spec.GroupLabel();
    GroupStep(members, spec);
    AppearancesAreTheLabels(GroupLabels(members));
    var j := GroupPosition(top.groups, name);
    if j < |top.groups| {
      assert labels[j] == name;
    } else {
      assert name !in labels;
      AbsentGroupIsEmpty(members, name);
    }
  }

  lemma OneMoreAction(tops: seq<MenuTop>, registry: seq<ActionSpec>, spec: ActionSpec)
    requires IsTreeOf(tops, registry)
    ensures IsTreeOf(Added(tops, spec), registry + [spec])
  {
    hide FirstAppearances, UnderTop, IsMenuOf, WithAction;
    var labels, name := FirstAppearances(TopLabels(registry)), spec.TopLabel();
    TopStep(registry, spec);
    AppearancesAreTheLabels(TopLabels(registry));
    var i := TopPosition(tops, name);
    if i < |tops| {
      assert labels[i] == name;
      OneMoreMember(tops[i], UnderTop(registry, name), spec);
    } else {
      assert name !in labels;
      AbsentTopIsEmpty(registry, name);
      NoMembers(name);
      OneMoreMember(MenuTop(name, []), [], spec);
      assert [] + [spec] == [spec];
    }
    forall k | 0 <= k < |labels| && labels[k] != name
      ensures UnderTop(registry + [spec], labels[k]) == UnderTop(registry, labels[k])
    {
      assert UnderTop(registry, labels[k]) + [] == UnderTop(registry, labels[k]);
    }
  }

  lemma NoMembers(name: string)
    ensures IsMenuOf(MenuTop(name, []), [])
  {
  }

  // ----- Every action once -------------------------------------------------

  function GroupActions(groups: seq<MenuGroup>): seq<ActionSpec> {
    if groups == [] then [] else groups[0].actions + GroupActions(groups[1..])
  }

  /** The actions under one bar node; none under a node the bar does not have. */
  function MenuActions(tops: seq<MenuTop>, topIndex: nat): seq<ActionSpec> {
    if topIndex < |tops| then GroupActions(tops[topIndex].groups) else []
  }

  /** The actions under every bar node, from left to right. */
  function AllActions(tops: seq<MenuTop>): seq<ActionSpec> {
    if tops == [] then [] else MenuActions(tops, 0) + AllActions(tops[1..])
  }

  lemma {:induction false} OneActionInAGroup(groups: seq<MenuGroup>, spec: ActionSpec)
    ensures multiset(GroupActions(WithAction(MenuTop("", groups), spec).groups))
            == multiset(GroupActions(groups)) + multiset{spec}
  {
    var more := WithAction(MenuTop("", groups), spec).groups;
    if groups == [] {
      assert more[1..] == [];
    } else if groups[0].name == spec.GroupLabel() {
      assert more[1..] == groups[1..];
    } else {
      OneActionInAGroup(groups[1..], spec);
      assert more[1..] == WithAction(MenuTop("", groups[1..]), spec).groups;
    }
  }

  lemma {:induction false} OneActionIsAdded(tops: seq<MenuTop>, spec: ActionSpec)
    ensures multiset(AllActions(Added(tops, spec))) == multiset(AllActions(tops)) + multiset{spec}
  {
    hide WithAction, GroupActions;
    var more := Added(tops, spec);
    if tops == [] {
      OneActionUnderATop(MenuTop(spec.TopLabel(), []), spec);
      NoAction();
      assert more[1..] == [];
    } else if tops[0].name == spec.TopLabel() {
      OneActionUnderATop(tops[0], spec);
      assert more[1..] == tops[1..];
    } else {
      OneActionIsAdded(tops[1..], spec);
      assert more[1..] == Added(tops[1..], spec);
    }
  }

  lemma OneActionUnderATop(top: MenuTop, spec: ActionSpec)
    ensures multiset(GroupActions(WithAction(top, spec).groups)) == multiset(GroupActions(top.groups)) + multiset{spec}
  {
    OneActionInAGroup(top.groups, spec);
  }

  lemma NoAction()
    ensures GroupActions([]) == []
  {
  }

  lemma MenuIsUnique(members: seq<ActionSpec>, a: MenuTop, b: MenuTop)
    requires IsMenuOf(a, members) && IsMenuOf(b, members)
    ensures a.groups == b.groups
    ensures forall j, k :: 0 <= j < k < |a.groups| ==> a.groups[j].name != a.groups[k].name
  {
    hide FirstAppearances, InGroup;
    AppearancesAreTheLabels(GroupLabels(members));
    var labels := FirstAppearances(GroupLabels(members));
    assert forall j :: 0 <= j < |labels| ==> a.groups[j].name == labels[j];
  }

  /** A registry has one tree, and the labels of the bar, and of each node's groups, do not
      repeat. */
  lemma TreeIsUnique(registry: seq<ActionSpec>, a: seq<MenuTop>, b: seq<MenuTop>)
    requires IsTreeOf(a, registry) && IsTreeOf(b, registry)
    ensures a == b
    ensures forall i, j :: 0 <= i < j < |a| ==> a[i].name != a[j].name
    ensures forall i, j, k :: 0 <= i < |a| && 0 <= j < k < |a[i].groups| ==>
              a[i].groups[j].name != a[i].groups[k].name
  {
    hide FirstAppearances, UnderTop, IsMenuOf;
    AppearancesAreTheLabels(TopLabels(registry));
    var labels := FirstAppearances(TopLabels(registry));
    assert forall i :: 0 <= i < |labels| ==> a[i].name == labels[i];
    forall i | 0 <= i < |a|
      ensures a[i].groups == b[i].groups && a[i] == b[i]
      ensures forall j, k :: 0 <= j < k < |a[i].groups| ==> a[i].groups[j].name != a[i].groups[k].name
    {
      MenuIsUnique(UnderTop(registry, a[i].name), a[i], b[i]);
    }
  }

  // ----- Where an action is found ------------------------------------------

  lemma {:induction false} MembersAreFound(specs: seq<ActionSpec>, spec: ActionSpec)
    ensures spec in specs <==> spec in UnderTop(specs, spec.TopLabel())
    ensures spec in specs <==> spec in InGroup(specs, spec.GroupLabel())
  {
    if specs != [] {
      MembersAreFound(specs[..|specs| - 1], spec);
      assert specs == specs[..|specs| - 1] + [specs[|specs| - 1]];
    }
  }

  /** An action shows in this group of this bar node. */
  predicate ShowsAt(tops: seq<MenuTop>, i: nat, j: nat, bar: string, group: string, spec: ActionSpec) {
    && i < |tops| && tops[i].name == bar
    && j < |tops[i].groups| && tops[i].groups[j].name == group && spec in tops[i].groups[j].actions
  }

  /** Every action is found by its path: under its first label and in the group of its second; a
      path of one label gives both, and an action without a path stands under its own name. */
  lemma ActionIsFoundByItsPath(registry: seq<ActionSpec>, tops: seq<MenuTop>, spec: ActionSpec) returns (i: nat, j: nat)
    requires IsTreeOf(tops, registry) && spec in registry
    ensures |spec.menuPath| >= 2 ==> ShowsAt(tops, i, j, spec.menuPath[0], spec.menuPath[1], spec)
    ensures |spec.menuPath| == 1 ==> ShowsAt(tops, i, j, spec.menuPath[0], spec.menuPath[0], spec)
    ensures |spec.menuPath| == 0 ==> ShowsAt(tops, i, j, spec.name, spec.name, spec)
  {
    hide UnderTop, InGroup, FirstAppearances;
    var n :| 0 <= n < |registry| && registry[n] == spec;
    assert TopLabels(registry)[n] == spec.TopLabel();
    AppearancesAreTheLabels(TopLabels(registry));
    assert spec.TopLabel() in FirstAppearances(TopLabels(registry));
    i :| 0 <= i < |FirstAppearances(TopLabels(registry))| && FirstAppearances(TopLabels(registry))[i] == spec.TopLabel();
    var members := UnderTop(registry, spec.TopLabel());
    MembersAreFound(registry, spec);
    var m :| 0 <= m < |members| && members[m] == spec;
    assert GroupLabels(members)[m] == spec.GroupLabel();
    AppearancesAreTheLabels(GroupLabels(members));
    assert spec.GroupLabel() in FirstAppearances(GroupLabels(members));
    j :| 0 <= j < |FirstAppearances(GroupLabels(members))| && FirstAppearances(GroupLabels(members))[j] == spec.GroupLabel();
    MembersAreFound(members, spec);
  }
}
