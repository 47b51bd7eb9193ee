/** Callee-before-caller verification order over groups of mutually recursive functions. */
module TopologicalOrder {
  import opened Sorting
  import opened CallGraph
  import opened Layering

  datatype SccGroup = SccGroup(id: nat, members: seq<Name>, level: nat, isCycle: bool)

  datatype Level = Level(level: nat, groups: seq<SccGroup>)

  predicate CallsInto(g: Graph, a: seq<Name>, b: seq<Name>) {
    exists e :: e in g.edges && e.0 in a && e.1 in b
  }

  /** Calls between different groups, by group index. */
  function CondensedEdges(g: Graph, groups: seq<seq<Name>>): (r: set<(nat, nat)>)
    ensures forall e :: e in r <==>
      e.0 < |groups| && e.1 < |groups| && e.0 != e.1 && CallsInto(g, groups[e.0], groups[e.1])
  {
    set i: nat, j: nat | i < |groups| && j < |groups| && i != j && CallsInto(g, groups[i], groups[j]) :: (i, j)
  }

  ghost function GroupRank(g: Graph, groups: seq<seq<Name>>): (r: seq<nat>)
    requires IsCondensation(g, groups)
    ensures |r| == |groups| && forall i :: 0 <= i < |r| ==> r[i] == |Below(g, groups[i][0])|
  {
    seq(|groups|, i requires 0 <= i < |groups| => |Below(g, groups[i][0])|)
  }

  /** The condensation is acyclic: every call between groups shrinks what is below. */
  lemma CondensationIsRanked(g: Graph, groups: seq<seq<Name>>)
    requires g.Valid() && IsCondensation(g, groups)
    ensures Ranked(|groups|, CondensedEdges(g, groups), GroupRank(g, groups))
  {
    var rank := GroupRank(g, groups);
    forall e | e in CondensedEdges(g, groups) ensures rank[e.1] < rank[e.0] {
      var call :| call in g.edges && call.0 in groups[e.0] && call.1 in groups[e.1];
      var u, v := groups[e.0][0], groups[e.1][0];
      EdgeReaches(g, call.0, call.1);
      assert Mutual(g, u, call.0) && Mutual(g, call.1, v) && !Mutual(g, u, v);
      ReachesTransitive(g, u, call.0, call.1);
      ReachesTransitive(g, u, call.1, v);
      BelowShrinks(g, u, v);
    }
  }

  /** A group is recursive exactly when a call path leads from a member back to it. */
  lemma CycleTest(g: Graph, groups: seq<seq<Name>>, i: nat, v: Name)
    requires g.Valid() && IsCondensation(g, groups) && i < |groups| && v in groups[i]
    ensures OnCycle(g, v) <==> |groups[i]| >= 2 || (v, v) in g.edges
  {
    var group := groups[i];
    if |group| >= 2 {
      var u := if group[0] == v then group[1] else group[0];
      assert Mutual(g, v, u);
      var c := FirstCall(g, v, u);
      ReachesTransitive(g, c, u, v);
    } else if OnCycle(g, v) {
      var u :| (v, u) in g.edges && Reaches(g, u, v);
      EdgeReaches(g, v, u);
      var j := GroupOf(g, groups, u);
      assert Mutual(g, v, u);
      assert u in group;
    }
    if (v, v) in g.edges {
      ReachesSelf(g, v);
    }
  }

  function MembersOf(groups: seq<SccGroup>): (r: seq<seq<Name>>)
    ensures |r| == |groups| && forall i :: 0 <= i < |r| ==> r[i] == groups[i].members
  {
    seq(|groups|, i requires 0 <= i < |groups| => groups[i].members)
  }

  function LevelsOf(groups: seq<SccGroup>): (r: seq<nat>)
    ensures |r| == |groups| && forall i :: 0 <= i < |r| ==> r[i] == groups[i].level
  {
    seq(|groups|, i requires 0 <= i < |groups| => groups[i].level)
  }

  /**
   * The groups are the strongly connected components, each carries the length
   * of the longest chain of calls below it, and the recursive ones are marked.
   */
  ghost predicate Scheduled(g: Graph, groups: seq<SccGroup>) {
    && IsCondensation(g, MembersOf(groups))
    && IsLayering(|groups|, CondensedEdges(g, MembersOf(groups)), LevelsOf(groups))
    && (forall i, v :: 0 <= i < |groups| && v in groups[i].members ==> (groups[i].isCycle <==> OnCycle(g, v)))
    && (forall i :: 0 <= i < |groups| ==> SortedBy(NameLeq, groups[i].members))
  }

  predicate GroupLeq(a: SccGroup, b: SccGroup) {
    a.level < b.level || (a.level == b.level && a.id <= b.id)
  }

  ghost predicate Permutes(order: seq<nat>, n: nat) {
    |order| == n && Distinct(order) && forall i: nat :: i in order <==> i < n
  }

  /** Rearranging the groups keeps every fact about the schedule. */
  lemma RearrangedSchedule(g: Graph, groups: seq<SccGroup>, order: seq<nat>, result: seq<SccGroup>)
    requires Scheduled(g, groups) && Permutes(order, |groups|)
    requires |result| == |groups|
    requires forall k :: 0 <= k < |order| ==> order[k] < |groups| && result[k] == groups[order[k]].(id := result[k].id)
    ensures Scheduled(g, result)
  {
    var before, after := MembersOf(groups), MembersOf(result);
    RearrangedCondensation(g, before, order, after);
    var calls, calls' := CondensedEdges(g, before), CondensedEdges(g, after);
    RearrangedCalls(g, before, order, after);
    RelabelledLayering(|groups|, order, calls, LevelsOf(groups), calls', LevelsOf(result));
  }

  lemma RearrangedCalls(g: Graph, before: seq<seq<Name>>, order: seq<nat>, after: seq<seq<Name>>)
    requires Permutes(order, |before|) && |after| == |before|
    requires forall k :: 0 <= k < |order| ==> order[k] < |before| && after[k] == before[order[k]]
    ensures forall e :: e in CondensedEdges(g, after) ==>
      e.0 < |order| && e.1 < |order| && (order[e.0], order[e.1]) in CondensedEdges(g, before)
    ensures forall i: nat, j: nat ::
      i < |order| && j < |order| && (order[i], order[j]) in CondensedEdges(g, before) ==>
        (i, j) in CondensedEdges(g, after)
  {
    forall i: nat, j: nat | i < |order| && j < |order| ensures i != j <==> order[i] != order[j] {
    }
  }

  lemma RearrangedCondensation(g: Graph, before: seq<seq<Name>>, order: seq<nat>, after: seq<seq<Name>>)
    requires IsCondensation(g, before) && Permutes(order, |before|)
    requires |after| == |before|
    requires forall k :: 0 <= k < |order| ==> order[k] < |before| && after[k] == before[order[k]]
    ensures IsCondensation(g, after)
  {
    forall u | u in g.nodes ensures exists i :: 0 <= i < |after| && u in after[i] {
      var i := GroupOf(g, before, u);
      assert i in order;
      var k :| 0 <= k < |order| && order[k] == i;
      assert u in after[k];
    }
    forall i, j, u, v | 0 <= i < |after| && 0 <= j < |after| && u in after[i] && v in after[j]
      ensures i == j <==> Mutual(g, u, v)
    {
      assert u in before[order[i]] && v in before[order[j]];
      assert i != j ==> order[i] != order[j];
    }
  }

  // ---- compute_topological_order ------------------------------------------

  ghost function Flat(levels: seq<Level>): (r: seq<SccGroup>) {
    if levels == [] then [] else Flat(levels[..|levels| - 1]) + levels[|levels| - 1].groups
  }

  /** Level l holds the groups of height l, no level is empty, ids count upward. */
  ghost predicate OrderedLevels(g: Graph, levels: seq<Level>) {
    && (forall l :: 0 <= l < |levels| ==> levels[l].level == l && levels[l].groups != [])
    && (forall l, k :: 0 <= l < |levels| && 0 <= k < |levels[l].groups| ==> levels[l].groups[k].level == l)
    && Scheduled(g, Flat(levels))
    && (forall k :: 0 <= k < |Flat(levels)| ==> Flat(levels)[k].id == k)
  }

  lemma SameMembersSameEdges(g: Graph, groups: seq<seq<Name>>, groups': seq<seq<Name>>)
    requires IsCondensation(g, groups) && |groups'| == |groups|
    requires forall i :: 0 <= i < |groups| ==> multiset(groups'[i]) == multiset(groups[i])
    ensures IsCondensation(g, groups') && CondensedEdges(g, groups') == CondensedEdges(g, groups)
  {
    forall i | 0 <= i < |groups|
      ensures |groups'[i]| == |groups[i]| && Distinct(groups'[i]) && forall u :: u in groups'[i] <==> u in groups[i]
    {
      SamePermutation(groups'[i], groups[i]);
    }
    forall u | u in g.nodes ensures exists i :: 0 <= i < |groups'| && u in groups'[i] {
      var i := GroupOf(g, groups, u);
      assert u in groups'[i];
    }
    assert forall e :: e in CondensedEdges(g, groups') <==> e in CondensedEdges(g, groups);
  }

  lemma GroupsAreOrdered()
    ensures TotalPreorder(GroupLeq)
  {
  }

  /** A component with its names sorted, marked recursive if it has two members or calls itself. */
  ghost predicate Numbered(g: Graph, members: seq<Name>, group: SccGroup)
    requires members != []
  {
    && multiset(group.members) == multiset(members) && SortedBy(NameLeq, group.members)
    && (group.isCycle <==> |members| >= 2 || (members[0], members[0]) in g.edges)
  }

  /** Whether the sorted members are tested or the given ones makes no difference. */
  lemma SortedTest(g: Graph, members: seq<Name>, sorted: seq<Name>)
    requires members != [] && multiset(sorted) == multiset(members)
    ensures sorted != [] && |sorted| == |members|
    ensures |sorted| == 1 ==> sorted[0] == members[0]
  {
    SamePermutation(sorted, members);
    assert members[0] in sorted;
  }

  lemma NumberedMarksCycles(g: Graph, condensed: seq<seq<Name>>, i: nat, v: Name, group: SccGroup)
    requires g.Valid() && IsCondensation(g, condensed) && i < |condensed| && condensed[i] != []
    requires Numbered(g, condensed[i], group) && v in group.members
    ensures group.isCycle <==> OnCycle(g, v)
  {
    hide IsCondensation, OnCycle, SortedBy;
    SamePermutation(group.members, condensed[i]);
    CycleTest(g, condensed, i, v);
    assert |condensed[i]| == 1 ==> condensed[i][0] == v;
  }

  lemma NumberedIsScheduled(g: Graph, condensed: seq<seq<Name>>, levelOf: seq<nat>, groups: seq<SccGroup>)
    requires g.Valid() && IsCondensation(g, condensed) && NoneEmpty(condensed)
    requires IsLayering(|condensed|, CondensedEdges(g, condensed), levelOf) && |levelOf| == |condensed| == |groups|
    requires forall k :: 0 <= k < |groups| ==> Numbered(g, condensed[k], groups[k]) && groups[k].level == levelOf[k]
    ensures Scheduled(g, groups)
  {
    hide IsCondensation, IsLayering, OnCycle, SortedBy, CondensedEdges;
    assert LevelsOf(groups) == levelOf;
    SameMembersSameEdges(g, condensed, MembersOf(groups));
    forall i, v | 0 <= i < |groups| && v in groups[i].members ensures groups[i].isCycle <==> OnCycle(g, v) {
      NumberedMarksCycles(g, condensed, i, v, groups[i]);
    }
  }

  predicate NoneEmpty(groups: seq<seq<Name>>) {
    forall k :: 0 <= k < |groups| ==> groups[k] != []
  }

  lemma ComponentsAreNotEmpty(g: Graph, groups: seq<seq<Name>>)
    requires IsCondensation(g, groups)
    ensures NoneEmpty(groups)
  {
  }

  method NumberGroups(g: Graph, condensed: seq<seq<Name>>, levelOf: seq<nat>) returns (groups: seq<SccGroup>)
    requires g.Valid() && IsCondensation(g, condensed)
    requires IsLayering(|condensed|, CondensedEdges(g, condensed), levelOf) && |levelOf| == |condensed|
    ensures Scheduled(g, groups)
    ensures forall i :: 0 <= i < |groups| ==> groups[i].id == i
  {
    hide IsCondensation, IsLayering, Scheduled, CondensedEdges, Sort, SortedBy, TotalPreorder;
    NamesAreOrdered();
    ComponentsAreNotEmpty(g, condensed);
    var selfLoops := set v | v in g.nodes && (v, v) in g.edges;
    groups := [];
    for i := 0 to |condensed|
      invariant |groups| == i
      invariant forall k :: 0 <= k < i ==>
        groups[k].id == k && groups[k].level == levelOf[k] && Numbered(g, condensed[k], groups[k])
    {
      var members := Sort(NameLeq, condensed[i]);
      SortedTest(g, condensed[i], members);
      var isCycle := |members| >= 2 || (|members| == 1 && members[0] in selfLoops);
      assert (members[0], members[0]) in g.edges ==> members[0] in g.nodes;
      groups := groups + [SccGroup(i, members, levelOf[i], isCycle)];
    }
    NumberedIsScheduled(g, condensed, levelOf, groups);
  }

  /** Sorting by level and then renumbering is a rearrangement with fresh ids. */
  lemma SortedSchedule(g: Graph, groups: seq<SccGroup>, sorted: seq<SccGroup>, renumbered: seq<SccGroup>)
    requires Scheduled(g, groups) && forall i :: 0 <= i < |groups| ==> groups[i].id == i
    requires multiset(sorted) == multiset(groups)
    requires |renumbered| == |sorted| && forall k :: 0 <= k < |sorted| ==> renumbered[k] == sorted[k].(id := k)
    ensures Scheduled(g, renumbered)
  {
    SamePermutation(sorted, groups);
    forall k | 0 <= k < |sorted| ensures sorted[k].id < |groups| && sorted[k] == groups[sorted[k].id] {
      assert sorted[k] in groups;
    }
    var order := seq(|sorted|, k requires 0 <= k < |sorted| => sorted[k].id);
    forall i: nat | i < |groups| ensures i in order {
      assert groups[i] in sorted;
      var k :| 0 <= k < |sorted| && sorted[k] == groups[i];
      assert order[k] == i;
    }
    assert Permutes(order, |groups|);
    RearrangedSchedule(g, groups, order, renumbered);
  }

  /** Groups by (level, id), with ids that follow that order. */
  method Renumber(g: Graph, groups: seq<SccGroup>) returns (renumbered: seq<SccGroup>)
    requires Scheduled(g, groups) && forall i :: 0 <= i < |groups| ==> groups[i].id == i
    ensures Scheduled(g, renumbered) && forall k :: 0 <= k < |renumbered| ==> renumbered[k].id == k
    ensures forall i, j :: 0 <= i < j < |renumbered| ==> renumbered[i].level <= renumbered[j].level
  {
    GroupsAreOrdered();
    var sorted := Sort(GroupLeq, groups);
    renumbered := [];
    for k := 0 to |sorted|
      invariant |renumbered| == k
      invariant forall i :: 0 <= i < k ==> renumbered[i] == sorted[i].(id := i)
    {
      renumbered := renumbered + [sorted[k].(id := k)];
    }
    SortedSchedule(g, groups, sorted, renumbered);
    forall i, j | 0 <= i < j < |renumbered| ensures renumbered[i].level <= renumbered[j].level {
      assert GroupLeq(sorted[i], sorted[j]);
    }
  }

  /** Appending to the last occupied level appends to the flattened order. */
  lemma {:induction false} FlatPush(levels: seq<Level>, l: nat, x: SccGroup)
    requires l < |levels| && forall k :: l < k < |levels| ==> levels[k].groups == []
    ensures Flat(levels[l := levels[l].(groups := levels[l].groups + [x])]) == Flat(levels) + [x]
  {
    var last := |levels| - 1;
    var pushed := levels[l := levels[l].(groups := levels[l].groups + [x])];
    if l == last {
      assert pushed[..last] == levels[..last];
    } else {
      assert pushed[..last] == levels[..last][l := levels[l].(groups := levels[l].groups + [x])];
      FlatPush(levels[..last], l, x);
    }
  }

  lemma {:induction false} FlatEmpty(levels: seq<Level>)
    requires forall k :: 0 <= k < |levels| ==> levels[k].groups == []
    ensures Flat(levels) == []
  {
    if levels != [] {
      FlatEmpty(levels[..|levels| - 1]);
    }
  }

  lemma {:induction false} InFlat(levels: seq<Level>, x: SccGroup) returns (l: nat)
    requires x in Flat(levels)
    ensures l < |levels| && x in levels[l].groups
  {
    var last := |levels| - 1;
    if x in levels[last].groups {
      l := last;
    } else {
      l := InFlat(levels[..last], x);
    }
  }

  /** Every level is numbered, holds groups of that level, and is empty past the last one filled. */
  predicate Bucketed(levels: seq<Level>, filled: nat) {
    && (forall l :: 0 <= l < |levels| ==> levels[l].level == l)
    && (forall l, k :: 0 <= l < |levels| && 0 <= k < |levels[l].groups| ==> levels[l].groups[k].level == l)
    && (forall l :: filled <= l < |levels| ==> levels[l].groups == [])
  }

  lemma PushBucket(levels: seq<Level>, filled: nat, x: SccGroup)
    requires Bucketed(levels, filled) && filled <= x.level + 1 <= |levels|
    ensures var l := x.level; var pushed := levels[l := levels[l].(groups := levels[l].groups + [x])];
      Bucketed(pushed, l + 1) && Flat(pushed) == Flat(levels) + [x]
  {
    hide Flat;
    FlatPush(levels, x.level, x);
  }

  /** Groups in order of level go into one bucket per level, order kept. */
  method FillLevels(groups: seq<SccGroup>) returns (levels: seq<Level>)
    requires groups != [] && forall i, j :: 0 <= i < j < |groups| ==> groups[i].level <= groups[j].level
    ensures |levels| == groups[|groups| - 1].level + 1
    ensures forall l :: 0 <= l < |levels| ==> levels[l].level == l
    ensures forall l, k :: 0 <= l < |levels| && 0 <= k < |levels[l].groups| ==> levels[l].groups[k].level == l
    ensures Flat(levels) == groups
  {
    hide Bucketed, Flat;
    var maxLevel := 0;
    for i := 0 to |groups|
      invariant forall k :: 0 <= k < i ==> groups[k].level <= maxLevel
      invariant maxLevel == if i == 0 then 0 else groups[i - 1].level
    {
      if groups[i].level > maxLevel {
        maxLevel := groups[i].level;
      }
    }
    levels := seq(maxLevel + 1, (l: nat) => Level(l, []));
    EmptyBuckets(levels);
    assert groups[..0] == [];
    for i := 0 to |groups|
      invariant |levels| == maxLevel + 1
      invariant Flat(levels) == groups[..i]
      invariant Bucketed(levels, if i == 0 then 0 else groups[i - 1].level + 1)
    {
      var l := groups[i].level;
      PushBucket(levels, if i == 0 then 0 else groups[i - 1].level + 1, groups[i]);
      levels := levels[l := levels[l].(groups := levels[l].groups + [groups[i]])];
      assert groups[..i + 1] == groups[..i] + [groups[i]];
    }
    assert groups[..|groups|] == groups;
    BucketsHold(levels);
  }

  lemma BucketsHold(levels: seq<Level>)
    ensures Bucketed(levels, |levels|) <==>
      && (forall l :: 0 <= l < |levels| ==> levels[l].level == l)
      && (forall l, k :: 0 <= l < |levels| && 0 <= k < |levels[l].groups| ==> levels[l].groups[k].level == l)
  {
  }

  lemma EmptyBuckets(levels: seq<Level>)
    requires forall l :: 0 <= l < |levels| ==> levels[l] == Level(l, [])
    ensures Bucketed(levels, 0) && Flat(levels) == []
  {
    FlatEmpty(levels);
  }

  /** Below every group of some level lies a group of each lower level. */
  lemma {:induction false} LowerLevelExists(g: Graph, groups: seq<SccGroup>, i: nat, l: nat) returns (j: nat)
    requires Scheduled(g, groups) && i < |groups| && l <= groups[i].level
    ensures j < |groups| && groups[j].level == l
    decreases groups[i].level
  {
    if l == groups[i].level {
      j := i;
    } else {
      var calls, level := CondensedEdges(g, MembersOf(groups)), LevelsOf(groups);
      assert Supported(calls, level, i);
      var next: nat :| next < |level| && (i, next) in calls && level[next] == level[i] - 1;
      j := LowerLevelExists(g, groups, next, l);
    }
  }

  lemma NoLevelIsEmpty(g: Graph, levels: seq<Level>)
    requires Scheduled(g, Flat(levels)) && Flat(levels) != []
    requires |levels| == Flat(levels)[|Flat(levels)| - 1].level + 1 && Bucketed(levels, |levels|)
    ensures forall l :: 0 <= l < |levels| ==> levels[l].groups != []
  {
    var groups := Flat(levels);
    forall l | 0 <= l < |levels| ensures levels[l].groups != [] {
      var j := LowerLevelExists(g, groups, |groups| - 1, l);
      var at := InFlat(levels, groups[j]);
    }
  }

  lemma NoLevels(g: Graph)
    requires g.nodes == []
    ensures OrderedLevels(g, [])
  {
  }

  method ComputeTopologicalOrder(vertices: seq<Name>, edges: seq<(Name, Name)>) returns (levels: seq<Level>)
    ensures OrderedLevels(DeclaredGraph(vertices, edges), levels)
    ensures levels == [] <==> vertices == []
  {
    hide IsCondensation, IsLayering, CondensedEdges, Ranked, Flat, Distinct, SortedBy;
    var g := BuildGraph(vertices, edges);
    assert vertices != [] ==> vertices[0] in g.nodes;
    if g.nodes == [] {
      NoLevels(g);
      return [];
    }
    var condensed := StronglyConnected(g);
    CondensationIsRanked(g, condensed);
    var levelOf, _ := LayerGroups(|condensed|, CondensedEdges(g, condensed), GroupRank(g, condensed));
    var groups := NumberGroups(g, condensed, levelOf);
    var renumbered := Renumber(g, groups);
    ghost var first := GroupOf(g, MembersOf(renumbered), g.nodes[0]);
    levels := FillLevels(renumbered);
    BucketsHold(levels);
    NoLevelIsEmpty(g, levels);
  }

  /** The level printed for a group is the length of the longest chain of calls below it. */
  lemma LevelIsHeight(g: Graph, levels: seq<Level>, k: nat)
    requires OrderedLevels(g, levels) && k < |Flat(levels)|
    ensures LongestChainFrom(CondensedEdges(g, MembersOf(Flat(levels))), k, Flat(levels)[k].level)
  {
    var groups := Flat(levels);
    LevelsAreHeights(|groups|, CondensedEdges(g, MembersOf(groups)), LevelsOf(groups), k);
  }

  // ---- flatten_levels_to_vo_scc --------------------------------------------

  function Defined(members: seq<Name>, defined: set<Name>): (r: seq<Name>)
    ensures forall v :: v in r <==> v in members && v in defined
    ensures Distinct(members) ==> Distinct(r)
  {
    if members == [] then
      []
    else
      (if members[0] in defined then [members[0]] else []) + Defined(members[1..], defined)
  }

  /** The verification order: the defined members, group after group. */
  function OrderOf(groups: seq<SccGroup>, defined: set<Name>): (r: seq<Name>) {
    if groups == [] then
      []
    else
      OrderOf(groups[..|groups| - 1], defined) + Defined(groups[|groups| - 1].members, defined)
  }

  /** The groups that keep a defined member, reduced to those members. */
  function KeptGroups(groups: seq<SccGroup>, defined: set<Name>): (r: seq<SccGroup>) {
    if groups == [] then
      []
    else
      var last := groups[|groups| - 1];
      var members := Defined(last.members, defined);
      KeptGroups(groups[..|groups| - 1], defined) + if members == [] then [] else [last.(members := members)]
  }

  lemma {:induction false} DefinedKeepsOrder(members: seq<Name>, defined: set<Name>)
    requires SortedBy(NameLeq, members)
    ensures SortedBy(NameLeq, Defined(members, defined))
  {
    if members != [] {
      DefinedKeepsOrder(members[1..], defined);
      forall v | v in Defined(members[1..], defined) ensures NameLeq(members[0], v) {
        var k :| 0 <= k < |members[1..]| && members[1..][k] == v;
        assert members[k + 1] == v;
      }
    }
  }

  predicate HasDefined(group: SccGroup, defined: set<Name>) {
    exists v :: v in group.members && v in defined
  }

  /** from lists, in order, the groups that have a defined member; each is kept as it is but for its members. */
  ghost predicate KeptFrom(groups: seq<SccGroup>, defined: set<Name>, kept: seq<SccGroup>, from: seq<nat>) {
    && |kept| == |from|
    && (forall i, j :: 0 <= i < j < |from| ==> from[i] < from[j])
    && (forall k: nat :: k in from <==> k < |groups| && HasDefined(groups[k], defined))
    && (forall i :: 0 <= i < |kept| ==> from[i] < |groups| && IsReduced(groups[from[i]], defined, kept[i]))
  }

  /** The same group with its defined members alone. */
  ghost predicate IsReduced(group: SccGroup, defined: set<Name>, kept: SccGroup) {
    && kept == group.(members := kept.members) && kept.members != []
    && (forall v :: v in kept.members <==> v in group.members && v in defined)
    && (Distinct(group.members) ==> Distinct(kept.members))
    && (SortedBy(NameLeq, group.members) ==> SortedBy(NameLeq, kept.members))
  }

  lemma ReducedGroup(group: SccGroup, defined: set<Name>)
    ensures var members := Defined(group.members, defined);
      && (members != [] <==> HasDefined(group, defined))
      && (members != [] ==> IsReduced(group, defined, group.(members := members)))
  {
    hide NameLeq, Distinct;
    var members := Defined(group.members, defined);
    if members != [] { assert members[0] in members; }
    if SortedBy(NameLeq, group.members) { DefinedKeepsOrder(group.members, defined); }
  }

  lemma OneGroupMore(groups: seq<SccGroup>, last: SccGroup, defined: set<Name>, kept: seq<SccGroup>, from: seq<nat>)
    requires KeptFrom(groups, defined, kept, from)
    ensures !HasDefined(last, defined) ==> KeptFrom(groups + [last], defined, kept, from)
    ensures forall more: SccGroup :: HasDefined(last, defined) && IsReduced(last, defined, more) ==>
      KeptFrom(groups + [last], defined, kept + [more], from + [|groups|])
  {
    hide HasDefined, IsReduced;
    var all := groups + [last];
    assert forall k :: 0 <= k < |groups| ==> all[k] == groups[k];
    forall i | 0 <= i < |from| ensures from[i] < |groups| {
      assert from[i] in from;
    }
    assert forall k: nat :: k in from + [|groups|] <==> k in from || k == |groups|;
  }

  /** A group is kept exactly when it has a defined member, with its id, level and cycle mark. */
  lemma {:induction false} KeptGroupsAre(groups: seq<SccGroup>, defined: set<Name>) returns (from: seq<nat>)
    ensures KeptFrom(groups, defined, KeptGroups(groups, defined), from)
  {
    from := [];
    if groups != [] {
      hide KeptFrom, HasDefined, IsReduced, Defined;
      var n := |groups| - 1;
      var before, last := groups[..n], groups[n];
      from := KeptGroupsAre(before, defined);
      ReducedGroup(last, defined);
      OneGroupMore(before, last, defined, KeptGroups(before, defined), from);
      assert groups == before + [last];
      if HasDefined(last, defined) {
        from := from + [n];
      }
    }
  }

  function Listed(groups: seq<SccGroup>): (r: seq<Name>) {
    if groups == [] then [] else Listed(groups[..|groups| - 1]) + groups[|groups| - 1].members
  }

  lemma ListedMore(groups: seq<SccGroup>, last: SccGroup)
    ensures Listed(groups + [last]) == Listed(groups) + last.members
  {
    assert (groups + [last])[..|groups|] == groups;
  }

  /** The order is what the kept groups list, one after the other. */
  lemma {:induction false} OrderListsTheKept(groups: seq<SccGroup>, defined: set<Name>)
    ensures OrderOf(groups, defined) == Listed(KeptGroups(groups, defined))
  {
    if groups != [] {
      hide Listed, Defined;
      var before, last := groups[..|groups| - 1], groups[|groups| - 1];
      OrderListsTheKept(before, defined);
      var members := Defined(last.members, defined);
      ListedMore(KeptGroups(before, defined), last.(members := members));
      assert KeptGroups(before, defined) + [] == KeptGroups(before, defined);
      assert OrderOf(before, defined) + [] == OrderOf(before, defined);
    }
  }

  /** So the groups stored beside the order have ascending ids and levels. */
  lemma KeptIdsAscend(g: Graph, levels: seq<Level>, defined: set<Name>, i: nat, j: nat)
    requires OrderedLevels(g, levels) && i < j < |KeptGroups(Flat(levels), defined)|
    ensures var kept := KeptGroups(Flat(levels), defined);
      kept[i].id < kept[j].id && kept[i].level <= kept[j].level
  {
    hide KeptGroups;
    var from := KeptGroupsAre(Flat(levels), defined);
    FlatAscends(levels, from[i], from[j]);
  }

  lemma {:induction false} FlatGrows(levels: seq<Level>, l: nat, k: nat)
    requires l < |levels| && k < |levels[l].groups|
    ensures Flat(levels[..l]) + levels[l].groups[..k + 1]
      == Flat(levels[..l]) + levels[l].groups[..k] + [levels[l].groups[k]]
  {
    assert levels[l].groups[..k + 1] == levels[l].groups[..k] + [levels[l].groups[k]];
  }

  method FlattenLevels(levels: seq<Level>, defined: set<Name>) returns (vo: seq<Name>, groups: seq<SccGroup>)
    requires forall l, k :: 0 <= l < |levels| && 0 <= k < |levels[l].groups| ==>
      levels[l].groups[k].level == levels[l].level
    ensures vo == OrderOf(Flat(levels), defined)
    ensures groups == KeptGroups(Flat(levels), defined)
  {
    vo, groups := [], [];
    ghost var seen: seq<SccGroup> := [];
    for l := 0 to |levels|
      invariant seen == Flat(levels[..l])
      invariant vo == OrderOf(seen, defined) && groups == KeptGroups(seen, defined)
    {
      for k := 0 to |levels[l].groups|
        invariant seen == Flat(levels[..l]) + levels[l].groups[..k]
        invariant vo == OrderOf(seen, defined) && groups == KeptGroups(seen, defined)
      {
        var group := levels[l].groups[k];
        var members := Defined(group.members, defined);
        ghost var seen' := seen + [group];
        assert seen'[..|seen'| - 1] == seen;
        FlatGrows(levels, l, k);
        seen := seen';
        if members == [] {
          assert vo + members == vo;
          continue;
        }
        vo := vo + members;
        groups := groups + [SccGroup(group.id, members, levels[l].level, group.isCycle)];
      }
      assert levels[l].groups[..|levels[l].groups|] == levels[l].groups;
      assert levels[..l + 1][..l] == levels[..l];
    }
    assert levels[..|levels|] == levels;
  }

  lemma {:induction false} FlatAscends(levels: seq<Level>, i: nat, j: nat)
    requires forall l :: 0 <= l < |levels| ==> levels[l].level == l
    requires forall l, k :: 0 <= l < |levels| && 0 <= k < |levels[l].groups| ==> levels[l].groups[k].level == l
    requires i <= j < |Flat(levels)|
    ensures Flat(levels)[i].level <= Flat(levels)[j].level < |levels|
  {
    var front := levels[..|levels| - 1];
    if j < |Flat(front)| {
      FlatAscends(front, i, j);
    } else if i < |Flat(front)| {
      FlatAscends(front, i, i);
    }
  }

  /** Which groups two places of the order come from, and in which sequence. */
  lemma {:induction false} OrderPositions(groups: seq<SccGroup>, defined: set<Name>, i: nat, j: nat)
    returns (gi: nat, gj: nat)
    requires i <= j < |OrderOf(groups, defined)|
    ensures gi <= gj < |groups|
    ensures OrderOf(groups, defined)[i] in groups[gi].members && OrderOf(groups, defined)[j] in groups[gj].members
    ensures OrderOf(groups, defined)[i] in defined
    ensures gi == gj && Distinct(groups[gi].members) && i != j ==>
      OrderOf(groups, defined)[i] != OrderOf(groups, defined)[j]
  {
    var last := |groups| - 1;
    var front, tail := OrderOf(groups[..last], defined), Defined(groups[last].members, defined);
    if j < |front| {
      gi, gj := OrderPositions(groups[..last], defined, i, j);
    } else if i < |front| {
      assert tail[j - |front|] in tail;
      gi, gj := OrderPositions(groups[..last], defined, i, i);
      gj := last;
    } else {
      assert tail[i - |front|] in tail && tail[j - |front|] in tail;
      gi, gj := last, last;
    }
  }

  lemma {:induction false} OrderContains(groups: seq<SccGroup>, defined: set<Name>, k: nat, v: Name)
    requires k < |groups| && v in groups[k].members && v in defined
    ensures v in OrderOf(groups, defined)
  {
    if k < |groups| - 1 {
      OrderContains(groups[..|groups| - 1], defined, k, v);
    }
  }

  /** A call between two groups goes to a strictly lower level. */
  lemma CallsDescend(g: Graph, groups: seq<SccGroup>, i: nat, j: nat, u: Name, v: Name)
    requires Scheduled(g, groups) && i < |groups| && j < |groups| && i != j
    requires u in groups[i].members && v in groups[j].members && (u, v) in g.edges
    ensures groups[j].level < groups[i].level
  {
    var level, e := LevelsOf(groups), (i, j);
    assert (u, v).0 in MembersOf(groups)[i] && (u, v).1 in MembersOf(groups)[j];
    assert e in CondensedEdges(g, MembersOf(groups));
    assert level[e.1] < level[e.0];
  }

  /** Every defined function once, and only calls inside a group go forward. */
  ghost predicate BottomUp(g: Graph, defined: set<Name>, vo: seq<Name>) {
    && Distinct(vo)
    && (forall v :: v in vo <==> v in g.nodes && v in defined)
    && (forall i, j :: 0 <= i < j < |vo| && (vo[i], vo[j]) in g.edges ==> Mutual(g, vo[i], vo[j]))
  }

  lemma FlattenedOrderIsBottomUp(g: Graph, levels: seq<Level>, defined: set<Name>)
    requires g.Valid() && OrderedLevels(g, levels)
    ensures BottomUp(g, defined, OrderOf(Flat(levels), defined))
  {
    var groups := Flat(levels);
    var members := MembersOf(groups);
    var vo := OrderOf(groups, defined);
    forall v ensures v in vo <==> v in g.nodes && v in defined {
      if v in g.nodes && v in defined {
        var k := GroupOf(g, members, v);
        OrderContains(groups, defined, k, v);
      }
      if v in vo {
        var i :| 0 <= i < |vo| && vo[i] == v;
        var gi, gj := OrderPositions(groups, defined, i, i);
        assert v in members[gi];
      }
    }
    forall i, j | 0 <= i < j < |vo|
      ensures vo[i] != vo[j]
      ensures (vo[i], vo[j]) in g.edges ==> Mutual(g, vo[i], vo[j])
    {
      var gi, gj := OrderPositions(groups, defined, i, j);
      assert vo[i] in members[gi] && vo[j] in members[gj];
      FlatAscends(levels, gi, gj);
      if gi != gj {
        assert !Mutual(g, vo[i], vo[j]);
        ReachesSelf(g, vo[i]);
        if (vo[i], vo[j]) in g.edges {
          CallsDescend(g, groups, gi, gj, vo[i], vo[j]);
        }
      }
    }
  }
}
