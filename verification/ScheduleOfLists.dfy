/**
 * What the schedule and the ready functions say about the lists they were
 * computed from, with no graph in between.
 */
module ScheduleOfLists {
  import opened Sorting
  import opened CallGraph
  import opened Layering
  import opened TopologicalOrder
  import opened ReadyFunctions

  /** A call that counts: both ends are declared. */
  predicate Calls(vertices: seq<Name>, edges: seq<(Name, Name)>, a: Name, b: Name) {
    (a, b) in edges && a in vertices && b in vertices
  }

  /** A path of calls; a single declared function is one. */
  ghost predicate IsCallPath(vertices: seq<Name>, edges: seq<(Name, Name)>, path: seq<Name>) {
    && |path| > 0 && path[0] in vertices
    && forall k :: 0 <= k < |path| - 1 ==> Calls(vertices, edges, path[k], path[k + 1])
  }

  ghost predicate LeadsTo(vertices: seq<Name>, edges: seq<(Name, Name)>, a: Name, b: Name) {
    exists path :: IsCallPath(vertices, edges, path) && path[0] == a && path[|path| - 1] == b
  }

  /** Each can call the other, through any number of calls. */
  ghost predicate Together(vertices: seq<Name>, edges: seq<(Name, Name)>, a: Name, b: Name) {
    LeadsTo(vertices, edges, a, b) && LeadsTo(vertices, edges, b, a)
  }

  /** A call of v leads back to v. */
  ghost predicate CallsBack(vertices: seq<Name>, edges: seq<(Name, Name)>, v: Name) {
    exists u :: Calls(vertices, edges, v, u) && LeadsTo(vertices, edges, u, v)
  }

  lemma SameReach(vertices: seq<Name>, edges: seq<(Name, Name)>, a: Name, b: Name)
    ensures LeadsTo(vertices, edges, a, b) <==> Reaches(DeclaredGraph(vertices, edges), a, b)
  {
    var g := DeclaredGraph(vertices, edges);
    if path :| IsCallPath(vertices, edges, path) && path[0] == a && path[|path| - 1] == b {
      assert forall k :: 0 <= k < |path| - 1 ==> Calls(vertices, edges, path[k], path[k + 1]);
      assert WalkFromTo(g, path, a, b);
    }
    if path :| WalkFromTo(g, path, a, b) {
      assert IsCallPath(vertices, edges, path);
    }
  }

  lemma SameCycle(vertices: seq<Name>, edges: seq<(Name, Name)>, v: Name)
    ensures CallsBack(vertices, edges, v) <==> OnCycle(DeclaredGraph(vertices, edges), v)
  {
    hide LeadsTo, Reaches;
    var g := DeclaredGraph(vertices, edges);
    if u :| Calls(vertices, edges, v, u) && LeadsTo(vertices, edges, u, v) {
      SameReach(vertices, edges, u, v);
      assert (v, u) in g.edges;
    }
    if u :| (v, u) in g.edges && Reaches(g, u, v) {
      SameReach(vertices, edges, u, v);
      assert Calls(vertices, edges, v, u);
    }
  }

  // ---- The schedule ------------------------------------------------------------------

  /** The groups hold the declared functions and nothing else. */
  ghost predicate HoldTheDeclared(vertices: seq<Name>, groups: seq<SccGroup>) {
    && (forall v :: v in vertices ==> exists i :: 0 <= i < |groups| && v in groups[i].members)
    && (forall i, v :: 0 <= i < |groups| && v in groups[i].members ==> v in vertices)
  }

  /** Two functions are in one group exactly when they are mutually recursive. */
  ghost predicate OneGroupAClass(vertices: seq<Name>, edges: seq<(Name, Name)>, groups: seq<SccGroup>) {
    forall i, j, u, v :: 0 <= i < |groups| && 0 <= j < |groups| && u in groups[i].members && v in groups[j].members ==>
      (i == j <==> Together(vertices, edges, u, v))
  }

  /** A group is marked exactly when its members can call themselves again. */
  ghost predicate MarkedByCalls(vertices: seq<Name>, edges: seq<(Name, Name)>, groups: seq<SccGroup>) {
    forall i, v :: 0 <= i < |groups| && v in groups[i].members ==>
      (groups[i].isCycle <==> CallsBack(vertices, edges, v))
  }

  /** A member of the one calls a member of the other. */
  ghost predicate CallsGroup(vertices: seq<Name>, edges: seq<(Name, Name)>, a: SccGroup, b: SccGroup) {
    exists u, v :: u in a.members && v in b.members && Calls(vertices, edges, u, v)
  }

  /** Calls into another group go down, and a group rests on one just below it. */
  ghost predicate LevelledByCalls(vertices: seq<Name>, edges: seq<(Name, Name)>, groups: seq<SccGroup>) {
    && (forall i, j :: 0 <= i < |groups| && 0 <= j < |groups| && i != j ==>
         CallsGroup(vertices, edges, groups[i], groups[j]) ==> groups[j].level < groups[i].level)
    && (forall i :: 0 <= i < |groups| && groups[i].level > 0 ==> RestsOn(vertices, edges, groups, i))
  }

  ghost predicate RestsOn(vertices: seq<Name>, edges: seq<(Name, Name)>, groups: seq<SccGroup>, i: nat)
    requires i < |groups|
  {
    exists j :: 0 <= j < |groups| && CallsGroup(vertices, edges, groups[i], groups[j])
      && groups[j].level + 1 == groups[i].level
  }

  lemma GroupsAreOfCalls(vertices: seq<Name>, edges: seq<(Name, Name)>, groups: seq<SccGroup>)
    requires IsCondensation(DeclaredGraph(vertices, edges), MembersOf(groups))
    ensures HoldTheDeclared(vertices, groups) && OneGroupAClass(vertices, edges, groups)
  {
    hide LeadsTo, Reaches;
    var g, members := DeclaredGraph(vertices, edges), MembersOf(groups);
    forall v | v in vertices ensures exists i :: 0 <= i < |groups| && v in groups[i].members {
      assert v in g.nodes;
      var i :| 0 <= i < |members| && v in members[i];
      assert v in groups[i].members;
    }
    forall i, v | 0 <= i < |groups| && v in groups[i].members ensures v in vertices {
      assert v in members[i];
    }
    forall i, j, u, v | 0 <= i < |groups| && 0 <= j < |groups| && u in groups[i].members && v in groups[j].members
      ensures i == j <==> Together(vertices, edges, u, v)
    {
      assert u in members[i] && v in members[j];
      assert i == j <==> Mutual(g, u, v);
      SameReach(vertices, edges, u, v);
      SameReach(vertices, edges, v, u);
    }
  }

  lemma LevelsAreOfCalls(vertices: seq<Name>, edges: seq<(Name, Name)>, groups: seq<SccGroup>)
    requires Scheduled(DeclaredGraph(vertices, edges), groups)
    ensures LevelledByCalls(vertices, edges, groups)
  {
    hide IsCondensation, LeadsTo, Reaches, OnCycle;
    var g := DeclaredGraph(vertices, edges);
    var calls, level := CondensedEdges(g, MembersOf(groups)), LevelsOf(groups);
    forall i, j | 0 <= i < |groups| && 0 <= j < |groups| && i != j && CallsGroup(vertices, edges, groups[i], groups[j])
      ensures groups[j].level < groups[i].level
    {
      var u, v :| u in groups[i].members && v in groups[j].members && Calls(vertices, edges, u, v);
      assert (u, v) in g.edges && (u, v).0 in MembersOf(groups)[i] && (u, v).1 in MembersOf(groups)[j];
      assert (i, j) in calls;
    }
    forall i: nat | i < |groups| && groups[i].level > 0 ensures RestsOn(vertices, edges, groups, i) {
      assert level[i] == groups[i].level && Supported(calls, level, i);
      var j: nat :| j < |level| && (i, j) in calls && level[j] == level[i] - 1;
      var e :| e in g.edges && e.0 in MembersOf(groups)[i] && e.1 in MembersOf(groups)[j];
      assert (e.0, e.1) in g.edges && Calls(vertices, edges, e.0, e.1);
    }
  }

  lemma MembersSorted(vertices: seq<Name>, edges: seq<(Name, Name)>, groups: seq<SccGroup>)
    requires Scheduled(DeclaredGraph(vertices, edges), groups)
    ensures forall group :: group in groups ==> SortedBy(NameLeq, group.members) && Distinct(group.members)
  {
    hide SortedBy, Distinct, Mutual;
    forall group | group in groups ensures SortedBy(NameLeq, group.members) && Distinct(group.members) {
      var i :| 0 <= i < |groups| && groups[i] == group;
      assert MembersOf(groups)[i] == group.members;
    }
  }

  /**
   * Whatever the two lists: the groups are the classes of mutual recursion
   * among the declared functions, marked exactly when recursive, and levelled
   * by their calls, with undeclared names and nothing else left out.
   */
  lemma ScheduleIsOfTheLists(vertices: seq<Name>, edges: seq<(Name, Name)>, levels: seq<Level>)
    requires OrderedLevels(DeclaredGraph(vertices, edges), levels)
    ensures HoldTheDeclared(vertices, Flat(levels)) && OneGroupAClass(vertices, edges, Flat(levels))
    ensures MarkedByCalls(vertices, edges, Flat(levels))
    ensures LevelledByCalls(vertices, edges, Flat(levels))
    ensures forall group :: group in Flat(levels) ==> SortedBy(NameLeq, group.members) && Distinct(group.members)
    ensures forall k :: 0 <= k < |Flat(levels)| ==> Flat(levels)[k].id == k
  {
    hide IsCondensation, IsLayering, OnCycle, CallsBack, Flat;
    var groups := Flat(levels);
    MembersSorted(vertices, edges, groups);
    GroupsAreOfCalls(vertices, edges, groups);
    LevelsAreOfCalls(vertices, edges, groups);
    forall i, v | 0 <= i < |groups| && v in groups[i].members
      ensures groups[i].isCycle <==> CallsBack(vertices, edges, v)
    {
      SameCycle(vertices, edges, v);
    }
  }

  /** A declared function that calls itself is in a group marked recursive. */
  lemma SelfCallIsRecursion(vertices: seq<Name>, edges: seq<(Name, Name)>, levels: seq<Level>, f: Name, i: nat)
    requires OrderedLevels(DeclaredGraph(vertices, edges), levels) && (f, f) in edges && f in vertices
    requires i < |Flat(levels)| && f in Flat(levels)[i].members
    ensures Flat(levels)[i].isCycle
  {
    hide OrderedLevels, Flat;
    ScheduleIsOfTheLists(vertices, edges, levels);
    assert IsCallPath(vertices, edges, [f]);
    assert Calls(vertices, edges, f, f) && LeadsTo(vertices, edges, f, f);
    assert CallsBack(vertices, edges, f);
  }

  /** The order lists every defined function once, and a call forward in it is a mutual one. */
  lemma OrderIsOfTheLists(vertices: seq<Name>, edges: seq<(Name, Name)>, levels: seq<Level>, defined: set<Name>)
    requires OrderedLevels(DeclaredGraph(vertices, edges), levels)
    ensures var vo := OrderOf(Flat(levels), defined);
      && Distinct(vo) && (forall v :: v in vo <==> v in vertices && v in defined)
      && (forall i, j :: 0 <= i < j < |vo| && Calls(vertices, edges, vo[i], vo[j]) ==>
            Together(vertices, edges, vo[i], vo[j]))
  {
    hide OrderedLevels, OrderOf, Flat, LeadsTo, Reaches;
    var g, vo := DeclaredGraph(vertices, edges), OrderOf(Flat(levels), defined);
    FlattenedOrderIsBottomUp(g, levels, defined);
    forall i, j | 0 <= i < j < |vo| && Calls(vertices, edges, vo[i], vo[j])
      ensures Together(vertices, edges, vo[i], vo[j])
    {
      assert (vo[i], vo[j]) in g.edges;
      EdgeReaches(g, vo[i], vo[j]);
      SameReach(vertices, edges, vo[i], vo[j]);
      SameReach(vertices, edges, vo[j], vo[i]);
    }
  }

  /** Every defined function is in a kept group, and a kept group holds nothing else. */
  ghost predicate KeepsTheDefined(vertices: seq<Name>, defined: set<Name>, kept: seq<SccGroup>) {
    && (forall v :: v in vertices && v in defined ==> exists i :: 0 <= i < |kept| && v in kept[i].members)
    && (forall i, v :: 0 <= i < |kept| && v in kept[i].members ==> v in vertices && v in defined)
  }

  lemma KeptHoldTheDefined(vertices: seq<Name>, groups: seq<SccGroup>, defined: set<Name>,
                           kept: seq<SccGroup>, from: seq<nat>)
    requires HoldTheDeclared(vertices, groups) && KeptFrom(groups, defined, kept, from)
    ensures KeepsTheDefined(vertices, defined, kept)
  {
    hide Distinct, SortedBy;
    forall v | v in vertices && v in defined ensures exists i :: 0 <= i < |kept| && v in kept[i].members {
      var k :| 0 <= k < |groups| && v in groups[k].members;
      assert HasDefined(groups[k], defined);
      assert k in from;
      var i :| 0 <= i < |from| && from[i] == k;
      assert v in kept[i].members;
    }
    forall i, v | 0 <= i < |kept| && v in kept[i].members ensures v in vertices && v in defined {
      assert v in groups[from[i]].members;
    }
  }

  lemma KeptStayApart(vertices: seq<Name>, edges: seq<(Name, Name)>, groups: seq<SccGroup>, defined: set<Name>,
                      kept: seq<SccGroup>, from: seq<nat>)
    requires OneGroupAClass(vertices, edges, groups) && KeptFrom(groups, defined, kept, from)
    ensures OneGroupAClass(vertices, edges, kept)
  {
    hide LeadsTo, Distinct, SortedBy, HasDefined;
    forall i, j, u, v | 0 <= i < |kept| && 0 <= j < |kept| && u in kept[i].members && v in kept[j].members
      ensures i == j <==> Together(vertices, edges, u, v)
    {
      assert u in groups[from[i]].members && v in groups[from[j]].members;
      assert i == j <==> from[i] == from[j];
    }
  }

  lemma KeptAreMarked(vertices: seq<Name>, edges: seq<(Name, Name)>, groups: seq<SccGroup>, defined: set<Name>,
                      kept: seq<SccGroup>, from: seq<nat>)
    requires MarkedByCalls(vertices, edges, groups) && KeptFrom(groups, defined, kept, from)
    ensures MarkedByCalls(vertices, edges, kept)
  {
    hide CallsBack, Distinct, SortedBy, HasDefined;
    forall i, v | 0 <= i < |kept| && v in kept[i].members
      ensures kept[i].isCycle <==> CallsBack(vertices, edges, v)
    {
      assert v in groups[from[i]].members && kept[i].isCycle == groups[from[i]].isCycle;
    }
  }

  lemma KeptAreSorted(groups: seq<SccGroup>, defined: set<Name>, kept: seq<SccGroup>, from: seq<nat>, i: nat)
    requires forall group :: group in groups ==> SortedBy(NameLeq, group.members) && Distinct(group.members)
    requires KeptFrom(groups, defined, kept, from) && i < |kept|
    ensures kept[i].members != [] && SortedBy(NameLeq, kept[i].members) && Distinct(kept[i].members)
  {
    hide SortedBy, Distinct, HasDefined;
    assert groups[from[i]] in groups;
  }

  /**
   * The groups stored beside the order hold exactly the declared and defined
   * functions, one group for each class of mutual recursion, sorted, distinct
   * and not empty, marked iff recursive, ids strictly and levels weakly ascending.
   */
  lemma KeptIsOfTheLists(vertices: seq<Name>, edges: seq<(Name, Name)>, levels: seq<Level>, defined: set<Name>)
    requires OrderedLevels(DeclaredGraph(vertices, edges), levels)
    ensures var kept := KeptGroups(Flat(levels), defined);
      && KeepsTheDefined(vertices, defined, kept) && OneGroupAClass(vertices, edges, kept)
      && MarkedByCalls(vertices, edges, kept)
      && (forall i :: 0 <= i < |kept| ==>
           kept[i].members != [] && SortedBy(NameLeq, kept[i].members) && Distinct(kept[i].members))
      && (forall i, j :: 0 <= i < j < |kept| ==> kept[i].id < kept[j].id && kept[i].level <= kept[j].level)
  {
    hide OrderedLevels, KeptGroups, SortedBy, Distinct, CallsBack, LeadsTo, KeptFrom, Flat;
    hide HoldTheDeclared, OneGroupAClass, MarkedByCalls, LevelledByCalls, KeepsTheDefined;
    var groups, kept := Flat(levels), KeptGroups(Flat(levels), defined);
    ScheduleIsOfTheLists(vertices, edges, levels);
    var from := KeptGroupsAre(groups, defined);
    KeptHoldTheDefined(vertices, groups, defined, kept, from);
    KeptStayApart(vertices, edges, groups, defined, kept, from);
    KeptAreMarked(vertices, edges, groups, defined, kept, from);
    forall i | 0 <= i < |kept|
      ensures kept[i].members != [] && SortedBy(NameLeq, kept[i].members) && Distinct(kept[i].members)
    {
      KeptAreSorted(groups, defined, kept, from, i);
    }
    forall i, j | 0 <= i < j < |kept| ensures kept[i].id < kept[j].id && kept[i].level <= kept[j].level {
      KeptIdsAscend(DeclaredGraph(vertices, edges), levels, defined, i, j);
    }
  }

  // ---- The ready functions -------------------------------------------------------------

  /** Untouched, and every function it calls is done or mutually recursive with it. */
  ghost predicate ReadyByCalls(vertices: seq<Name>, edges: seq<(Name, Name)>, done: seq<Name>, inProgress: seq<Name>,
                               v: Name)
  {
    && v in vertices && v !in done && v !in inProgress
    && forall c :: Calls(vertices, edges, v, c) ==> c in done || Together(vertices, edges, v, c)
  }

  lemma ReadyIsOfTheLists(vertices: seq<Name>, edges: seq<(Name, Name)>, done: seq<Name>, inProgress: seq<Name>,
                          v: Name)
    ensures ReadyFunctions.IsReady(DeclaredGraph(vertices, edges), v, Set(done), Set(inProgress))
      <==> ReadyByCalls(vertices, edges, done, inProgress, v)
  {
    hide LeadsTo, Reaches;
    var g := DeclaredGraph(vertices, edges);
    forall c ensures Calls(vertices, edges, v, c) <==> (v, c) in g.edges
      ensures Together(vertices, edges, v, c) <==> Mutual(g, v, c)
    {
      SameReach(vertices, edges, v, c);
      SameReach(vertices, edges, c, v);
    }
  }

  /** What an entry says of its function, read off the lists. */
  lemma EntryIsOfTheLists(vertices: seq<Name>, edges: seq<(Name, Name)>, r: ReadyFunc)
    requires Describes(DeclaredGraph(vertices, edges), r)
    ensures r.isCycle <==> CallsBack(vertices, edges, r.name)
    ensures r.sccId.Some? <==> r.isCycle
    ensures forall u :: u in r.sccMembers <==> u in vertices && Together(vertices, edges, r.name, u)
  {
    hide LeadsTo, Reaches, OnCycle, CallsBack;
    SameCycle(vertices, edges, r.name);
    forall u ensures Together(vertices, edges, r.name, u) <==> Mutual(DeclaredGraph(vertices, edges), r.name, u) {
      SameReach(vertices, edges, r.name, u);
      SameReach(vertices, edges, u, r.name);
    }
  }
}
