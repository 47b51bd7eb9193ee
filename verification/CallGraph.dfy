/**
 * Call graphs by function name, reachability, and the strongly connected
 * components the scheduler takes from its graph library.
 */
module CallGraph {
  import opened FiniteSets
  import opened Sorting

  type Name = string

  /** Caller to callee edges over the declared vertices, each vertex once. */
  datatype Graph = Graph(nodes: seq<Name>, edges: set<(Name, Name)>) {
    ghost predicate Valid() {
      && Distinct(nodes)
      && forall e :: e in edges ==> e.0 in nodes && e.1 in nodes
    }
  }

  function FirstOccurrences(s: seq<Name>): (r: seq<Name>)
    ensures Distinct(r) && forall v :: v in r <==> v in s
    ensures Distinct(s) ==> r == s
  {
    if s == [] then
      []
    else
      var front := s[..|s| - 1];
      assert s == front + [s[|s| - 1]];
      var r := FirstOccurrences(front);
      if s[|s| - 1] in r then r else r + [s[|s| - 1]]
  }

  /** Every listed call between declared functions is there, a function's call of itself too, and nothing else is. */
  ghost predicate HasTheCalls(g: Graph, vertices: seq<Name>, edges: seq<(Name, Name)>) {
    forall a, b :: (a, b) in g.edges <==> (a, b) in edges && a in vertices && b in vertices
  }

  /** The graph of a vertex and edge list; edges naming an undeclared vertex are dropped. */
  function DeclaredGraph(vertices: seq<Name>, edges: seq<(Name, Name)>): (g: Graph)
    ensures g.Valid()
    ensures forall v :: v in g.nodes <==> v in vertices
    ensures HasTheCalls(g, vertices, edges)
    ensures Distinct(vertices) ==> g.nodes == vertices
  {
    Graph(FirstOccurrences(vertices), set e | e in edges && e.0 in vertices && e.1 in vertices)
  }

  method BuildGraph(vertices: seq<Name>, edges: seq<(Name, Name)>) returns (g: Graph)
    ensures g == DeclaredGraph(vertices, edges)
    ensures HasTheCalls(g, vertices, edges)
  {
    var nodes: seq<Name> := [];
    for i := 0 to |vertices|
      invariant nodes == FirstOccurrences(vertices[..i])
    {
      if vertices[i] !in nodes {
        nodes := nodes + [vertices[i]];
      }
      assert vertices[..i + 1][..i] == vertices[..i];
    }
    assert vertices[..|vertices|] == vertices;
    var kept: set<(Name, Name)> := {};
    for i := 0 to |edges|
      invariant forall e :: e in kept <==> e in edges[..i] && e.0 in nodes && e.1 in nodes
    {
      var e := edges[i];
      if e.0 in nodes && e.1 in nodes {
        kept := kept + {e};
      }
      assert edges[..i + 1] == edges[..i] + [e];
    }
    assert edges[..|edges|] == edges;
    g := Graph(nodes, kept);
  }

  // ---- Walks ------------------------------------------------------------

  ghost predicate IsWalk(g: Graph, w: seq<Name>) {
    && |w| > 0
    && w[0] in g.nodes
    && forall i :: 0 <= i < |w| - 1 ==> (w[i], w[i + 1]) in g.edges
  }

  ghost predicate WalkFromTo(g: Graph, w: seq<Name>, a: Name, b: Name) {
    IsWalk(g, w) && w[0] == a && w[|w| - 1] == b
  }

  ghost predicate Reaches(g: Graph, a: Name, b: Name) {
    exists w :: WalkFromTo(g, w, a, b)
  }

  ghost predicate Mutual(g: Graph, a: Name, b: Name) {
    Reaches(g, a, b) && Reaches(g, b, a)
  }

  /** v lies on a cycle: some call leads from v back to v. */
  ghost predicate OnCycle(g: Graph, v: Name) {
    exists u :: (v, u) in g.edges && Reaches(g, u, v)
  }

  lemma ReachesSelf(g: Graph, a: Name)
    requires a in g.nodes
    ensures Reaches(g, a, a)
  {
    assert WalkFromTo(g, [a], a, a);
  }

  lemma EdgeReaches(g: Graph, a: Name, b: Name)
    requires g.Valid() && (a, b) in g.edges
    ensures Reaches(g, a, b)
  {
    assert WalkFromTo(g, [a, b], a, b);
  }

  lemma ReachesTransitive(g: Graph, a: Name, b: Name, c: Name)
    requires Reaches(g, a, b) && Reaches(g, b, c)
    ensures Reaches(g, a, c)
  {
    var v, w :| WalkFromTo(g, v, a, b) && WalkFromTo(g, w, b, c);
    assert WalkFromTo(g, v + w[1..], a, c);
  }

  lemma ReachesStaysInside(g: Graph, a: Name, b: Name)
    requires g.Valid() && Reaches(g, a, b)
    ensures a in g.nodes && b in g.nodes
  {
    var w :| WalkFromTo(g, w, a, b);
    if |w| > 1 {
      assert (w[|w| - 2], w[|w| - 2 + 1]) in g.edges;
    }
  }

  /** A walk between different vertices starts with a call. */
  lemma FirstCall(g: Graph, a: Name, b: Name) returns (c: Name)
    requires g.Valid() && Reaches(g, a, b) && a != b
    ensures (a, c) in g.edges && Reaches(g, c, b)
  {
    var w :| WalkFromTo(g, w, a, b);
    c := w[1];
    assert (w[0], w[0 + 1]) in g.edges;
    var tail := w[1..];
    forall i | 0 <= i < |tail| - 1 ensures (tail[i], tail[i + 1]) in g.edges {
      assert (w[i + 1], w[(i + 1) + 1]) in g.edges;
    }
    assert WalkFromTo(g, tail, c, b);
  }

  /** Everything v can reach; calls that leave a component shrink it. */
  ghost function Below(g: Graph, v: Name): set<Name> {
    set w | w in g.nodes && Reaches(g, v, w)
  }

  lemma BelowShrinks(g: Graph, u: Name, v: Name)
    requires g.Valid() && Reaches(g, u, v) && !Reaches(g, v, u)
    ensures |Below(g, v)| < |Below(g, u)|
  {
    ReachesStaysInside(g, u, v);
    forall w | w in Below(g, v) ensures w in Below(g, u) {
      ReachesTransitive(g, u, v, w);
    }
    ReachesSelf(g, u);
    assert u in Below(g, u) && u !in Below(g, v);
    SmallerSubset(Below(g, v), Below(g, u));
  }

  // ---- Strongly connected components -------------------------------------

  /** groups lists every mutual-reachability class once, every member once. */
  ghost predicate IsCondensation(g: Graph, groups: seq<seq<Name>>) {
    && (forall i :: 0 <= i < |groups| ==> |groups[i]| > 0 && Distinct(groups[i]))
    && (forall i, u :: 0 <= i < |groups| && u in groups[i] ==> u in g.nodes)
    && (forall u :: u in g.nodes ==> exists i :: 0 <= i < |groups| && u in groups[i])
    && (forall i, j, u, v :: 0 <= i < |groups| && 0 <= j < |groups| && u in groups[i] && v in groups[j]
          ==> (i == j <==> Mutual(g, u, v)))
  }

  method ReachableFrom(g: Graph, v: Name) returns (r: set<Name>)
    requires g.Valid() && v in g.nodes
    ensures r == Below(g, v)
  {
    r := {v};
    ReachesSelf(g, v);
    ghost var all := set w | w in g.nodes;
    while exists e :: e in g.edges && e.0 in r && e.1 !in r
      invariant v in r && r <= Below(g, v)
      decreases all - r
    {
      var e :| e in g.edges && e.0 in r && e.1 !in r;
      EdgeReaches(g, e.0, e.1);
      ReachesTransitive(g, v, e.0, e.1);
      r := r + {e.1};
    }
    forall w | w in Below(g, v) ensures w in r {
      ClosedUnderCalls(g, v, w, r);
    }
  }

  lemma ClosedUnderCalls(g: Graph, a: Name, b: Name, r: set<Name>)
    requires a in r && Reaches(g, a, b)
    requires forall e :: e in g.edges && e.0 in r ==> e.1 in r
    ensures b in r
  {
    var w :| WalkFromTo(g, w, a, b);
    for k := 0 to |w| - 1
      invariant w[k] in r
    {
      assert (w[k], w[k + 1]) in g.edges;
      assert (w[k], w[k + 1]).0 in r;
    }
  }

  /**
   * Groups the vertices by mutual reachability, standing in for the graph
   * library's component search; callers rely on nothing but its contract.
   */
  method StronglyConnected(g: Graph) returns (groups: seq<seq<Name>>)
    requires g.Valid()
    ensures IsCondensation(g, groups)
  {
    hide ClassesOver, IsCondensation, Distinct;
    var reach: map<Name, set<Name>> := map[];
    for k := 0 to |g.nodes|
      invariant reach.Keys == set v | v in g.nodes[..k]
      invariant forall v :: v in reach ==> reach[v] == Below(g, v)
    {
      var r := ReachableFrom(g, g.nodes[k]);
      reach := reach[g.nodes[k] := r];
      assert g.nodes[..k + 1] == g.nodes[..k] + [g.nodes[k]];
    }
    assert g.nodes[..|g.nodes|] == g.nodes;
    groups := [];
    var placed: set<Name> := {};
    NoClasses(g);
    for k := 0 to |g.nodes|
      invariant forall v :: v in g.nodes[..k] ==> v in placed
      invariant ClassesOver(g, groups, placed)
    {
      var v := g.nodes[k];
      assert g.nodes[..k + 1] == g.nodes[..k] + [v];
      if v !in placed {
        var group := Members(g.nodes, v, reach);
        ClassIsMutual(g, v, group);
        AddClass(g, groups, placed, v, group);
        groups := groups + [group];
        placed := placed + set u | u in group;
      }
    }
    assert g.nodes[..|g.nodes|] == g.nodes;
    AllClasses(g, groups, placed);
  }

  lemma NoClasses(g: Graph)
    ensures ClassesOver(g, [], {})
  {
  }

  lemma AllClasses(g: Graph, groups: seq<seq<Name>>, placed: set<Name>)
    requires g.Valid() && ClassesOver(g, groups, placed) && forall v :: v in g.nodes ==> v in placed
    ensures IsCondensation(g, groups)
  {
  }

  /** groups is the list of mutual-reachability classes of the vertices placed. */
  ghost predicate ClassesOver(g: Graph, groups: seq<seq<Name>>, placed: set<Name>) {
    && (forall i :: 0 <= i < |groups| ==> |groups[i]| > 0 && Distinct(groups[i]))
    && (forall i, u :: 0 <= i < |groups| && u in groups[i] ==> u in g.nodes && u in placed)
    && (forall u :: u in placed ==> exists i :: 0 <= i < |groups| && u in groups[i])
    && (forall i, u, v :: 0 <= i < |groups| && u in groups[i] && v in g.nodes && Mutual(g, u, v) ==> v in groups[i])
    && (forall i, j, u, v :: 0 <= i < |groups| && 0 <= j < |groups| && u in groups[i] && v in groups[j]
          ==> (i == j <==> Mutual(g, u, v)))
  }

  lemma ClassIsMutual(g: Graph, v: Name, group: seq<Name>)
    requires g.Valid() && v in g.nodes
    requires forall u :: u in group <==> u in g.nodes && Mutual(g, v, u)
    ensures v in group
    ensures forall u, w :: u in group && w in g.nodes ==> (w in group <==> Mutual(g, u, w))
  {
    ReachesSelf(g, v);
    forall u, w | u in group && w in g.nodes ensures w in group <==> Mutual(g, u, w) {
      if Mutual(g, v, w) {
        ReachesTransitive(g, u, v, w);
        ReachesTransitive(g, w, v, u);
      }
      if Mutual(g, u, w) {
        ReachesTransitive(g, v, u, w);
        ReachesTransitive(g, w, u, v);
      }
    }
  }

  lemma AddClass(g: Graph, groups: seq<seq<Name>>, placed: set<Name>, v: Name, group: seq<Name>)
    requires g.Valid() && ClassesOver(g, groups, placed) && v !in placed
    requires v in group && Distinct(group)
    requires forall u :: u in group ==> u in g.nodes
    requires forall u, w :: u in group && w in g.nodes ==> (w in group <==> Mutual(g, u, w))
    ensures ClassesOver(g, groups + [group], placed + set u | u in group)
  {
    var all := groups + [group];
    forall u | u in group ensures u !in placed {
      assert Mutual(g, u, v);
    }
    var placed' := placed + set u | u in group;
    forall u | u in placed' ensures exists i :: 0 <= i < |all| && u in all[i] {
      if u in placed {
        var i :| 0 <= i < |groups| && u in groups[i];
        assert u in all[i];
      } else {
        assert u in all[|groups|];
      }
    }
    forall i, j, u, w | 0 <= i < |all| && 0 <= j < |all| && u in all[i] && w in all[j]
      ensures i == j <==> Mutual(g, u, w)
    {
      if i < |groups| && j < |groups| {
        assert u in groups[i] && w in groups[j];
      } else if i < |groups| {
        assert u in groups[i] && w !in placed;
      } else if j < |groups| {
        assert w in groups[j] && u !in placed;
      }
    }
    forall i, u, w | 0 <= i < |all| && u in all[i] && w in g.nodes && Mutual(g, u, w) ensures w in all[i] {
      if i < |groups| {
        assert u in groups[i];
      }
    }
  }

  /** The vertices of one component, in vertex order. */
  function Members(nodes: seq<Name>, v: Name, reach: map<Name, set<Name>>): (r: seq<Name>)
    requires v in reach && forall u :: u in nodes ==> u in reach
    ensures forall u :: u in r <==> u in nodes && u in reach[v] && v in reach[u]
    ensures Distinct(nodes) ==> Distinct(r)
  {
    if nodes == [] then
      []
    else
      (if nodes[0] in reach[v] && v in reach[nodes[0]] then [nodes[0]] else []) + Members(nodes[1..], v, reach)
  }

  lemma GroupOf(g: Graph, groups: seq<seq<Name>>, v: Name) returns (i: nat)
    requires IsCondensation(g, groups) && v in g.nodes
    ensures i < |groups| && v in groups[i]
  {
    i :| 0 <= i < |groups| && v in groups[i];
  }
}
