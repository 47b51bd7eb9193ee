/** Functions whose callees are settled, and why such a schedule never gets stuck. */
module ReadyFunctions {
  import opened Outcomes
  import opened Sorting
  import opened CallGraph
  import opened TopologicalOrder

  datatype ReadyFunc = ReadyFunc(name: Name, sccId: Option<nat>, isCycle: bool, sccMembers: seq<Name>)

  /** The documented rule: untouched, and every callee is done or mutually recursive with it. */
  ghost predicate IsReady(g: Graph, v: Name, done: set<Name>, inProgress: set<Name>) {
    && v in g.nodes && v !in done && v !in inProgress
    && forall c :: (v, c) in g.edges ==> c in done || Mutual(g, v, c)
  }

  /** What a reported entry says about the component of its function. */
  ghost predicate Describes(g: Graph, r: ReadyFunc) {
    && (r.isCycle <==> OnCycle(g, r.name))
    && (r.sccId.Some? <==> r.isCycle)
    && SortedBy(NameLeq, r.sccMembers) && Distinct(r.sccMembers)
    && (forall u :: u in r.sccMembers <==> u in g.nodes && Mutual(g, r.name, u))
  }

  predicate ReadyLeq(a: ReadyFunc, b: ReadyFunc) {
    NameLeq(a.name, b.name)
  }

  lemma ReadyIsOrdered()
    ensures TotalPreorder(ReadyLeq)
  {
    NamesAreOrdered();
    assert forall x: ReadyFunc, y: ReadyFunc :: NameLeq(x.name, y.name) || NameLeq(y.name, x.name);
  }

  /** Component index of every vertex. */
  method IndexComponents(g: Graph, sccs: seq<seq<Name>>) returns (sccOf: map<Name, nat>)
    requires IsCondensation(g, sccs)
    ensures forall v :: v in sccOf <==> v in g.nodes
    ensures forall v :: v in sccOf ==> sccOf[v] < |sccs| && v in sccs[sccOf[v]]
  {
    sccOf := map[];
    for i := 0 to |sccs|
      invariant forall v :: v in sccOf <==> exists k :: 0 <= k < i && v in sccs[k]
      invariant forall v :: v in sccOf ==> sccOf[v] < |sccs| && v in sccs[sccOf[v]]
    {
      ghost var before := sccOf;
      for k := 0 to |sccs[i]|
        invariant forall v :: v in sccOf <==> v in before || v in sccs[i][..k]
        invariant forall v :: v in sccOf ==> sccOf[v] < |sccs| && v in sccs[sccOf[v]]
      {
        sccOf := sccOf[sccs[i][k] := i];
        assert sccs[i][..k + 1] == sccs[i][..k] + [sccs[i][k]];
      }
      assert sccs[i][..|sccs[i]|] == sccs[i];
    }
    forall v ensures v in sccOf <==> v in g.nodes {
      if v in g.nodes {
        var i := GroupOf(g, sccs, v);
      }
    }
  }

  /** The test the loop makes of one function. */
  predicate CalleesSettled(g: Graph, sccs: seq<seq<Name>>, sccOf: map<Name, nat>, v: Name, done: set<Name>)
    requires v in sccOf && sccOf[v] < |sccs| && forall e :: e in g.edges ==> e.1 in sccOf
  {
    var group := sccs[sccOf[v]];
    var isCycle := IsCycle(g, group);
    forall e | e in g.edges :: e.0 == v ==> (sccOf[e.1] == sccOf[v] && isCycle) || e.1 in done
  }

  predicate IsCycle(g: Graph, group: seq<Name>) {
    |group| >= 2 || (|group| == 1 && (group[0], group[0]) in g.edges)
  }

  lemma TestMeetsRule(g: Graph, sccs: seq<seq<Name>>, sccOf: map<Name, nat>, v: Name, done: set<Name>)
    requires g.Valid() && IsCondensation(g, sccs) && v in g.nodes
    requires forall u :: u in sccOf <==> u in g.nodes
    requires forall u :: u in sccOf ==> sccOf[u] < |sccs| && u in sccs[sccOf[u]]
    ensures IsCycle(g, sccs[sccOf[v]]) <==> OnCycle(g, v)
    ensures CalleesSettled(g, sccs, sccOf, v, done) <==> forall c :: (v, c) in g.edges ==> c in done || Mutual(g, v, c)
  {
    var i := sccOf[v];
    CycleTest(g, sccs, i, v);
    forall c | (v, c) in g.edges ensures Mutual(g, v, c) <==> sccOf[c] == i && IsCycle(g, sccs[i]) {
      assert (v, c).1 in g.nodes;
      if Mutual(g, v, c) {
        assert OnCycle(g, v);
      }
    }
    if CalleesSettled(g, sccs, sccOf, v, done) {
      forall c | (v, c) in g.edges ensures c in done || Mutual(g, v, c) {
        assert (v, c).0 == v && (v, c).1 == c;
      }
    }
  }

  ghost function Names(out: seq<ReadyFunc>): set<Name> {
    set r | r in out :: r.name
  }

  /** out reports the ready ones among seen, each described correctly. */
  ghost predicate Reports(g: Graph, sccOf: map<Name, nat>, done: set<Name>, busy: set<Name>, seen: seq<Name>,
                          out: seq<ReadyFunc>)
  {
    && (forall v :: v in Names(out) <==> v in seen && IsReady(g, v, done, busy))
    && (forall r :: r in out ==> r.name in sccOf && Describes(g, r) && (r.isCycle ==> r.sccId == Some(sccOf[r.name])))
  }

  lemma AddEntry(g: Graph, sccOf: map<Name, nat>, done: set<Name>, busy: set<Name>, seen: seq<Name>,
                 out: seq<ReadyFunc>, r: ReadyFunc)
    requires Reports(g, sccOf, done, busy, seen, out)
    requires r.name in sccOf && Describes(g, r) && (r.isCycle ==> r.sccId == Some(sccOf[r.name]))
    requires IsReady(g, r.name, done, busy)
    ensures Reports(g, sccOf, done, busy, seen + [r.name], out + [r])
  {
    assert Names(out + [r]) == Names(out) + {r.name};
  }

  predicate OncePerName(out: seq<ReadyFunc>) {
    forall i, j :: 0 <= i < j < |out| ==> out[i].name != out[j].name
  }

  lemma NoEntries(g: Graph, sccOf: map<Name, nat>, done: set<Name>, busy: set<Name>)
    ensures Reports(g, sccOf, done, busy, [], [])
  {
  }

  lemma SkipEntry(g: Graph, sccOf: map<Name, nat>, done: set<Name>, busy: set<Name>, seen: seq<Name>,
                  out: seq<ReadyFunc>, v: Name)
    requires Reports(g, sccOf, done, busy, seen, out) && !IsReady(g, v, done, busy)
    ensures Reports(g, sccOf, done, busy, seen + [v], out)
  {
    hide Describes, IsReady;
  }

  lemma AddOnce(g: Graph, sccOf: map<Name, nat>, done: set<Name>, busy: set<Name>, seen: seq<Name>,
                out: seq<ReadyFunc>, r: ReadyFunc)
    requires Reports(g, sccOf, done, busy, seen, out) && OncePerName(out) && r.name !in seen
    ensures OncePerName(out + [r])
  {
    hide Describes, IsReady;
    forall i | 0 <= i < |out| ensures out[i].name != r.name {
      assert out[i].name in Names(out);
    }
  }

  lemma OnceInAnyOrder(a: seq<ReadyFunc>, b: seq<ReadyFunc>)
    requires |a| == |b| && (forall r :: r in a <==> r in b) && (Distinct(a) ==> Distinct(b))
    ensures OncePerName(a) ==> OncePerName(b)
  {
    if OncePerName(a) {
      assert Distinct(a);
      forall i, j | 0 <= i < j < |b| ensures b[i].name != b[j].name {
        assert b[i] in a && b[j] in a;
      }
    }
  }

  /** Recursive functions carry the same component id exactly when they call each other. */
  lemma SharedComponents(g: Graph, sccs: seq<seq<Name>>, sccOf: map<Name, nat>, out: seq<ReadyFunc>)
    requires IsCondensation(g, sccs)
    requires forall u :: u in sccOf ==> sccOf[u] < |sccs| && u in sccs[sccOf[u]]
    requires forall r :: r in out ==> r.name in sccOf && (r.isCycle ==> r.sccId == Some(sccOf[r.name]))
    ensures forall r, s :: r in out && s in out && r.isCycle && s.isCycle ==>
      (r.sccId == s.sccId <==> Mutual(g, r.name, s.name))
  {
    hide Mutual;
  }

  /** Putting the entries in another order keeps what is reported of them. */
  lemma ReportsInAnyOrder(g: Graph, sccOf: map<Name, nat>, done: set<Name>, busy: set<Name>, seen: seq<Name>,
                          out: seq<ReadyFunc>, sorted: seq<ReadyFunc>)
    requires Reports(g, sccOf, done, busy, seen, out) && multiset(sorted) == multiset(out)
    requires forall v :: v in g.nodes <==> v in seen
    ensures forall v :: v in Names(sorted) <==> IsReady(g, v, done, busy)
    ensures forall r :: r in sorted ==>
      r.name in sccOf && Describes(g, r) && (r.isCycle ==> r.sccId == Some(sccOf[r.name]))
    ensures OncePerName(out) ==> OncePerName(sorted)
  {
    hide Describes;
    SamePermutation(sorted, out);
    OnceInAnyOrder(out, sorted);
    assert Names(sorted) == Names(out);
  }

  /** One entry for every vertex that is ready, in the order of the vertices. */
  method ReadyEntries(g: Graph, sccs: seq<seq<Name>>, sccOf: map<Name, nat>, vertices: seq<Name>, done: seq<Name>,
                      inProgress: seq<Name>)
    returns (out: seq<ReadyFunc>)
    requires g.Valid() && IsCondensation(g, sccs) && forall v :: v in vertices ==> v in g.nodes
    requires forall u :: u in sccOf <==> u in g.nodes
    requires forall u :: u in sccOf ==> sccOf[u] < |sccs| && u in sccs[sccOf[u]]
    ensures Reports(g, sccOf, Set(done), Set(inProgress), vertices, out)
    ensures Distinct(vertices) ==> OncePerName(out)
  {
    hide Mutual, OnCycle, IsCondensation, SortedBy, Describes, Reports, OncePerName;
    out := [];
    NoEntries(g, sccOf, Set(done), Set(inProgress));
    assert Distinct(vertices) ==> OncePerName(out) by { NoneTwice(); }
    for k := 0 to |vertices|
      invariant Reports(g, sccOf, Set(done), Set(inProgress), vertices[..k], out)
      invariant Distinct(vertices) ==> OncePerName(out)
    {
      var v := vertices[k];
      assert vertices[..k + 1] == vertices[..k] + [v];
      assert v in vertices && v in g.nodes;
      if v in done || v in inProgress {
        SkipEntry(g, sccOf, Set(done), Set(inProgress), vertices[..k], out, v);
        continue;
      }
      TestMeetsRule(g, sccs, sccOf, v, Set(done));
      if CalleesSettled(g, sccs, sccOf, v, Set(done)) {
        var entry := Entry(g, sccs, sccOf, v);
        AddEntry(g, sccOf, Set(done), Set(inProgress), vertices[..k], out, entry);
        if Distinct(vertices) {
          AddOnce(g, sccOf, Set(done), Set(inProgress), vertices[..k], out, entry);
        }
        out := out + [entry];
      } else {
        SkipEntry(g, sccOf, Set(done), Set(inProgress), vertices[..k], out, v);
      }
    }
    assert vertices[..|vertices|] == vertices;
  }

  /** The ready functions in name order, whatever order the components were found in; each vertex once if given once. */
  method ComputeReadyFunctions(vertices: seq<Name>, edges: seq<(Name, Name)>, done: seq<Name>, inProgress: seq<Name>)
    returns (out: seq<ReadyFunc>)
    ensures var g := DeclaredGraph(vertices, edges);
      && (forall v :: v in Names(out) <==> IsReady(g, v, Set(done), Set(inProgress)))
      && (forall r :: r in out ==> Describes(g, r))
      && (forall r, s :: r in out && s in out && r.isCycle && s.isCycle ==>
            (r.sccId == s.sccId <==> Mutual(g, r.name, s.name)))
    ensures SortedBy(ReadyLeq, out)
    ensures Distinct(vertices) ==> OncePerName(out)
  {
    hide Mutual, OnCycle, IsCondensation, TotalPreorder, SortedBy, Describes, Reports, OncePerName, HasTheCalls;
    hide IsReady, Distinct;
    var g := BuildGraph(vertices, edges);
    var sccs := StronglyConnected(g);
    var sccOf := IndexComponents(g, sccs);
    out := ReadyEntries(g, sccs, sccOf, vertices, done, inProgress);
    ReadyIsOrdered();
    ghost var unsorted := out;
    out := Sort(ReadyLeq, out);
    ReportsInAnyOrder(g, sccOf, Set(done), Set(inProgress), vertices, unsorted, out);
    SharedComponents(g, sccs, sccOf, out);
  }

  lemma NoneTwice()
    ensures OncePerName([])
  {
  }

  function Set(s: seq<Name>): (r: set<Name>) {
    set x | x in s
  }

  method Entry(g: Graph, sccs: seq<seq<Name>>, sccOf: map<Name, nat>, v: Name) returns (r: ReadyFunc)
    requires g.Valid() && IsCondensation(g, sccs) && v in g.nodes
    requires forall u :: u in sccOf <==> u in g.nodes
    requires forall u :: u in sccOf ==> sccOf[u] < |sccs| && u in sccs[sccOf[u]]
    ensures r.name == v && Describes(g, r) && (r.isCycle ==> r.sccId == Some(sccOf[v]))
  {
    NamesAreOrdered();
    var group := sccs[sccOf[v]];
    var isCycle := IsCycle(g, group);
    CycleTest(g, sccs, sccOf[v], v);
    var sorted := Sort(NameLeq, group);
    SamePermutation(sorted, group);
    forall u ensures u in group <==> u in g.nodes && Mutual(g, v, u) {
      if u in g.nodes && Mutual(g, v, u) {
        var j := GroupOf(g, sccs, u);
        assert j == sccOf[v];
      }
    }
    r := ReadyFunc(v, if isCycle then Some(sccOf[v]) else None, isCycle, if isCycle then sorted else [v]);
    if !isCycle {
      assert group == [v];
    }
  }
}
