/** The verification order and the ready set as one schedule: agreement, liveness, safety over runs. */
module Scheduling {
  import opened FiniteSets
  import opened Sorting
  import opened CallGraph
  import opened TopologicalOrder
  import opened ReadyFunctions

  /** Every callee outside the function's own component has a body to verify. */
  ghost predicate CalleesDefined(g: Graph, v: Name, defined: set<Name>) {
    forall c :: (v, c) in g.edges ==> c in defined || Mutual(g, v, c)
  }

  lemma EarlierCallees(g: Graph, defined: set<Name>, vo: seq<Name>, k: nat, c: Name)
    requires g.Valid() && BottomUp(g, defined, vo) && k < |vo|
    requires (vo[k], c) in g.edges && c in defined && !Mutual(g, vo[k], c)
    ensures c in vo[..k]
  {
    assert (vo[k], c).1 in g.nodes && c in vo;
    var j :| 0 <= j < |vo| && vo[j] == c;
    ReachesSelf(g, vo[k]);
    assert j < k;
    assert vo[..k][j] == c;
  }

  lemma NextIsReadyIff(g: Graph, defined: set<Name>, vo: seq<Name>, k: nat)
    requires g.Valid() && BottomUp(g, defined, vo) && k < |vo|
    ensures IsReady(g, vo[k], Set(vo[..k]), {}) <==> CalleesDefined(g, vo[k], defined)
  {
    hide Mutual;
    assert vo[k] in vo && vo[k] !in vo[..k];
    assert forall u :: u in vo[..k] ==> u in vo;
    if CalleesDefined(g, vo[k], defined) {
      forall c | (vo[k], c) in g.edges && !Mutual(g, vo[k], c) ensures c in Set(vo[..k]) {
        EarlierCallees(g, defined, vo, k, c);
      }
    }
  }

  /**
   * Working through the order, the next function is ready exactly when none of
   * its callees is merely declared: the order leaves those out, the ready test
   * waits for them.
   */
  lemma NextInOrderIsReadyIff(g: Graph, levels: seq<Level>, defined: set<Name>, k: nat)
    requires g.Valid() && OrderedLevels(g, levels)
    requires k < |OrderOf(Flat(levels), defined)|
    ensures var vo := OrderOf(Flat(levels), defined);
      IsReady(g, vo[k], Set(vo[..k]), {}) <==> CalleesDefined(g, vo[k], defined)
  {
    hide OrderedLevels, OrderOf, Flat, BottomUp, IsReady, CalleesDefined;
    FlattenedOrderIsBottomUp(g, levels, defined);
    NextIsReadyIff(g, defined, OrderOf(Flat(levels), defined), k);
  }

  /** With every vertex defined the two schedulers agree at every step. */
  lemma SchedulersAgree(vertices: seq<Name>, edges: seq<(Name, Name)>, levels: seq<Level>, defined: set<Name>, k: nat)
    requires OrderedLevels(DeclaredGraph(vertices, edges), levels)
    requires forall v :: v in vertices ==> v in defined
    ensures var g, vo := DeclaredGraph(vertices, edges), OrderOf(Flat(levels), defined);
      && |vo| == |g.nodes| && (forall v :: v in vo <==> v in vertices)
      && (k < |vo| ==> IsReady(g, vo[k], Set(vo[..k]), {}))
  {
    var g, vo := DeclaredGraph(vertices, edges), OrderOf(Flat(levels), defined);
    FlattenedOrderIsBottomUp(g, levels, defined);
    DistinctSize(vo);
    DistinctSize(g.nodes);
    assert Set(vo) == Set(g.nodes);
    if k < |vo| {
      assert CalleesDefined(g, vo[k], defined) by {
        forall c | (vo[k], c) in g.edges ensures c in defined { assert (vo[k], c).1 in g.nodes; }
      }
      NextInOrderIsReadyIff(g, levels, defined, k);
    }
  }

  lemma {:induction false} DistinctSize(s: seq<Name>)
    requires Distinct(s)
    ensures |Set(s)| == |s|
  {
    if s != [] {
      assert s == [s[0]] + s[1..];
      DistinctSize(s[1..]);
      assert Set(s) == Set(s[1..]) + {s[0]};
    }
  }

  /** A function that calls a library function which is only declared. */
  ghost predicate CallsLibrary(g: Graph, f: Name, lib: Name) {
    f != lib && g == DeclaredGraph([f, lib], [(f, lib)])
  }

  lemma LibraryGraph(g: Graph, f: Name, lib: Name)
    requires CallsLibrary(g, f, lib)
    ensures g.Valid() && (forall v :: v in g.nodes <==> v == f || v == lib) && g.edges == {(f, lib)}
    ensures !Reaches(g, lib, f)
  {
    assert [f, lib][0] in g.nodes && [f, lib][1] in g.nodes;
    assert [(f, lib)][0] in g.edges;
    assert g.edges == {(f, lib)};
    if Reaches(g, lib, f) {
      var c := FirstCall(g, lib, f);
    }
  }

  /** Its turn comes, yet it is never ready. */
  lemma DeclaredOnlyCalleeBlocks(g: Graph, f: Name, lib: Name, levels: seq<Level>)
    requires CallsLibrary(g, f, lib) && OrderedLevels(g, levels)
    ensures OrderOf(Flat(levels), {f}) == [f]
    ensures !IsReady(g, f, {}, {})
  {
    hide OrderedLevels, OrderOf, Flat, CallsLibrary, DeclaredGraph;
    LibraryGraph(g, f, lib);
    var vo := OrderOf(Flat(levels), {f});
    FlattenedOrderIsBottomUp(g, levels, {f});
    DistinctSize(vo);
    assert Set(vo) == {f};
    assert vo[0] in vo;
    assert (f, lib) in g.edges;
  }

  /** If some vertex is unfinished, one of the unfinished ones is in progress or ready. */
  lemma NoDeadlock(g: Graph, done: set<Name>, inProgress: set<Name>, v: Name) returns (next: Name)
    requires g.Valid() && v in g.nodes && v !in done
    ensures next in g.nodes && next !in done
    ensures next in inProgress || IsReady(g, next, done, inProgress)
    decreases |Below(g, v)|
  {
    if c :| (v, c) in g.edges && c !in done && !Mutual(g, v, c) {
      EdgeReaches(g, v, c);
      assert (v, c).1 in g.nodes;
      BelowShrinks(g, v, c);
      next := NoDeadlock(g, done, inProgress, c);
    } else {
      next := v;
    }
  }

  /** Functions completed one by one, each ready beside whatever else was in progress. */
  ghost predicate IsRun(g: Graph, run: seq<Name>, busy: seq<set<Name>>) {
    |busy| == |run| && forall k :: 0 <= k < |run| ==> IsReady(g, run[k], Set(run[..k]), busy[k])
  }

  /** Settled: outside its own component, a finished function calls only finished ones. */
  ghost predicate Settled(g: Graph, done: set<Name>) {
    forall v, c :: v in done && (v, c) in g.edges ==> c in done || Mutual(g, v, c)
  }

  lemma {:induction false} RunsStaySettled(g: Graph, run: seq<Name>, busy: seq<set<Name>>, k: nat)
    requires g.Valid() && IsRun(g, run, busy) && k <= |run|
    ensures Settled(g, Set(run[..k])) && Distinct(run[..k])
    ensures forall v :: v in run[..k] ==> v in g.nodes
  {
    if k > 0 {
      RunsStaySettled(g, run, busy, k - 1);
      assert run[..k] == run[..k - 1] + [run[k - 1]];
      assert IsReady(g, run[k - 1], Set(run[..k - 1]), busy[k - 1]);
      DistinctAppend(run[..k - 1], [run[k - 1]]);
    }
  }

  /** A run can always be extended until it has finished every vertex, in exactly that many steps. */
  lemma RunsReachTheEnd(g: Graph, run: seq<Name>, busy: seq<set<Name>>)
    requires g.Valid() && IsRun(g, run, busy)
    ensures |run| <= |g.nodes|
    ensures |run| == |g.nodes| <==> forall v :: v in g.nodes ==> v in run
    ensures |run| < |g.nodes| ==> exists v :: IsRun(g, run + [v], busy + [{}])
  {
    RunsStaySettled(g, run, busy, |run|);
    assert run[..|run|] == run;
    DistinctSize(run);
    DistinctSize(g.nodes);
    assert Set(run) <= Set(g.nodes);
    SubsetSize(Set(run), Set(g.nodes));
    if v :| v in g.nodes && v !in run {
      assert v in Set(g.nodes) && v !in Set(run);
      SmallerSubset(Set(run), Set(g.nodes));
      var next := NoDeadlock(g, Set(run), {}, v);
      var longer, busier := run + [next], busy + [{}];
      forall k | 0 <= k < |longer| ensures IsReady(g, longer[k], Set(longer[..k]), busier[k]) {
        assert longer[..k] == run[..k];
      }
      assert IsRun(g, longer, busier);
    } else {
      assert Set(run) == Set(g.nodes);
    }
  }
}
