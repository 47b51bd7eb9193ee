/**
 * Kahn layering of an acyclic relation on group indices: level 0 calls
 * nothing, and every level is the length of the longest chain of calls below.
 */
module Layering {
  import opened Sorting

  /** The calls i still waits for when the groups in done have been placed. */
  ghost function Pending(calls: set<(nat, nat)>, i: nat, done: set<nat>): set<nat> {
    set e | e in calls && e.0 == i && e.1 !in done :: e.1
  }

  ghost predicate Ranked(n: nat, calls: set<(nat, nat)>, rank: seq<nat>) {
    && |rank| == n
    && forall e :: e in calls ==> e.0 < n && e.1 < n && rank[e.1] < rank[e.0]
  }

  /** Calls go strictly down, and a level above 0 has a callee just below it. */
  ghost predicate IsLayering(n: nat, calls: set<(nat, nat)>, level: seq<nat>) {
    && |level| == n
    && (forall e :: e in calls ==> e.0 < n && e.1 < n && level[e.1] < level[e.0])
    && (forall i: nat :: i < n ==> Supported(calls, level, i))
  }

  /** A level above 0 is explained by a callee exactly one level lower. */
  ghost predicate Supported(calls: set<(nat, nat)>, level: seq<nat>, i: nat)
    requires i < |level|
  {
    level[i] > 0 ==> exists j: nat :: j < |level| && (i, j) in calls && level[j] == level[i] - 1
  }

  ghost predicate IsChain(calls: set<(nat, nat)>, c: seq<nat>) {
    forall k :: 0 <= k < |c| - 1 ==> (c[k], c[k + 1]) in calls
  }

  /** len is the number of calls on a longest chain starting at i. */
  ghost predicate LongestChainFrom(calls: set<(nat, nat)>, i: nat, len: nat) {
    && (exists c :: |c| == len + 1 && c[0] == i && IsChain(calls, c))
    && (forall c :: |c| > 0 && c[0] == i && IsChain(calls, c) ==> |c| <= len + 1)
  }

  lemma LevelsAreHeights(n: nat, calls: set<(nat, nat)>, level: seq<nat>, i: nat)
    requires IsLayering(n, calls, level) && i < n
    ensures LongestChainFrom(calls, i, level[i])
  {
    var longest := DescendingChain(n, calls, level, i);
    assert |longest| == level[i] + 1;
    forall c | |c| > 0 && c[0] == i && IsChain(calls, c) ensures |c| <= level[i] + 1 {
      ChainsDescend(n, calls, level, c, |c| - 1);
    }
  }

  lemma {:induction false} DescendingChain(n: nat, calls: set<(nat, nat)>, level: seq<nat>, i: nat)
    returns (c: seq<nat>)
    requires IsLayering(n, calls, level) && i < n
    ensures |c| == level[i] + 1 && c[0] == i && IsChain(calls, c)
    decreases level[i]
  {
    if level[i] == 0 {
      c := [i];
    } else {
      assert Supported(calls, level, i);
      var j: nat :| j < n && (i, j) in calls && level[j] == level[i] - 1;
      var rest := DescendingChain(n, calls, level, j);
      c := [i] + rest;
    }
  }

  lemma {:induction false} ChainsDescend(n: nat, calls: set<(nat, nat)>, level: seq<nat>, c: seq<nat>, k: nat)
    requires IsLayering(n, calls, level) && IsChain(calls, c) && k < |c| && c[0] < n
    ensures c[k] < n && level[c[k]] + k <= level[c[0]]
  {
    if k > 0 {
      ChainsDescend(n, calls, level, c, k - 1);
      assert (c[k - 1], c[k - 1 + 1]) in calls;
    }
  }

  /** Longest chain lengths are unique, so the layering is. */
  lemma LayeringUnique(n: nat, calls: set<(nat, nat)>, a: seq<nat>, b: seq<nat>)
    requires IsLayering(n, calls, a) && IsLayering(n, calls, b)
    ensures a == b
  {
    forall i: nat | i < n ensures a[i] == b[i] {
      LevelsAreHeights(n, calls, a, i);
      LevelsAreHeights(n, calls, b, i);
    }
  }

  lemma PendingStep(calls: set<(nat, nat)>, i: nat, done: set<nat>, g: nat)
    requires g !in done
    ensures Pending(calls, i, done + {g}) == Pending(calls, i, done) - {g}
    ensures (i, g) in calls <==> g in Pending(calls, i, done)
    ensures |Pending(calls, i, done + {g})| == |Pending(calls, i, done)| - if (i, g) in calls then 1 else 0
  {
    var before, after := Pending(calls, i, done), Pending(calls, i, done + {g});
    assert (i, g) in calls ==> (i, g).1 in before;
    assert after == before - {g};
  }

  /** A group that is never placed would wait on an endless descent. */
  lemma {:induction false} NobodyWaitsForever(n: nat, calls: set<(nat, nat)>, rank: seq<nat>, done: set<nat>, i: nat)
    requires Ranked(n, calls, rank)
    requires forall k: nat :: k < n && k !in done ==> Pending(calls, k, done) != {}
    requires i < n
    ensures i in done
    decreases if i < n then rank[i] else 0
  {
    if i !in done {
      var j :| j in Pending(calls, i, done);
      assert (i, j) in calls;
      assert rank[(i, j).1] < rank[(i, j).0];
      NobodyWaitsForever(n, calls, rank, done, j);
    }
  }

  /** outDegree counts what every group still waits for. */
  ghost predicate Counts(n: nat, calls: set<(nat, nat)>, done: set<nat>, outDegree: seq<nat>) {
    && |outDegree| == n
    && forall i: nat :: i < n ==> outDegree[i] == |Pending(calls, i, done)|
  }

  /** One level: every caller of g loses one outstanding callee. */
  method ReleaseCallers(n: nat, calls: set<(nat, nat)>, outDegree: array<nat>, g: nat, ghost done: set<nat>)
    returns (released: seq<nat>)
    requires g < n && g !in done
    requires forall e :: e in calls ==> e.0 < n && e.1 < n
    requires Counts(n, calls, done, outDegree[..])
    modifies outDegree
    ensures Counts(n, calls, done + {g}, outDegree[..])
    ensures Distinct(released)
    ensures forall i :: i in released <==> (i, g) in calls && Pending(calls, i, done + {g}) == {}
  {
    hide Pending;
    released := [];
    var callers := set e | e in calls && e.1 == g :: e.0;
    ghost var all := callers;
    forall i: nat | i < n
      ensures |Pending(calls, i, done + {g})| == |Pending(calls, i, done)| - if (i, g) in calls then 1 else 0
    {
      PendingStep(calls, i, done, g);
    }
    assert forall i: nat :: i in all <==> (i, g) in calls by {
      forall i: nat | (i, g) in calls ensures i in all { assert (i, g).1 == g; }
    }
    assert forall i :: i in all ==> i < n by {
      forall i | i in all ensures i < n { assert (i, g).0 < n; }
    }
    while callers != {}
      invariant callers <= all
      invariant forall i: nat :: i < n ==>
        outDegree[i] == |Pending(calls, i, done)| - if i in all && i !in callers then 1 else 0
      invariant Distinct(released)
      invariant forall i :: i in released <==> i in all - callers && Pending(calls, i, done + {g}) == {}
      decreases callers
    {
      var caller :| caller in callers;
      callers := callers - {caller};
      assert (caller, g) in calls;
      outDegree[caller] := outDegree[caller] - 1;
      if outDegree[caller] == 0 {
        released := released + [caller];
      }
    }
  }

  /** Groups nothing holds back any more, and only those. */
  ghost predicate IsReady(n: nat, calls: set<(nat, nat)>, done: set<nat>, ready: seq<nat>) {
    && Distinct(ready)
    && forall i: nat :: i in ready <==> i < n && i !in done && Pending(calls, i, done) == {}
  }

  /** The levels handed out so far, all below current. */
  ghost predicate LayeredSoFar(n: nat, calls: set<(nat, nat)>, done: set<nat>, level: seq<nat>, current: nat) {
    && |level| == n
    && (forall i :: i in done ==> i < n && level[i] < current && Pending(calls, i, done) == {})
    && (forall e :: e in calls && e.0 in done ==> e.1 in done && level[e.1] < level[e.0])
    && (forall i :: i in done ==> Supported(calls, level, i))
  }

  ghost function Indices(n: nat): (r: set<nat>)
    ensures forall i: nat :: i in r <==> i < n
  {
    if n == 0 then {} else Indices(n - 1) + {n - 1}
  }

  ghost function Elements(s: seq<nat>): set<nat> {
    set x | x in s
  }

  /** next lists what became free between done and placed. */
  ghost predicate FreedSince(n: nat, calls: set<(nat, nat)>, done: set<nat>, placed: set<nat>, next: seq<nat>) {
    && Distinct(next)
    && forall i: nat :: i in next <==> i < n && Pending(calls, i, done) != {} && Pending(calls, i, placed) == {}
  }

  lemma AddFreed(n: nat, calls: set<(nat, nat)>, done: set<nat>, placed: set<nat>, next: seq<nat>, g: nat,
                 released: seq<nat>)
    requires forall e :: e in calls ==> e.0 < n && e.1 < n
    requires done <= placed && g !in placed
    requires FreedSince(n, calls, done, placed, next) && Distinct(released)
    requires forall i :: i in released <==> (i, g) in calls && Pending(calls, i, placed + {g}) == {}
    ensures FreedSince(n, calls, done, placed + {g}, next + released)
  {
    forall i: nat
      ensures i in next + released <==> i < n && Pending(calls, i, done) != {} && Pending(calls, i, placed + {g}) == {}
      ensures i in released ==> i !in next
    {
      PendingStep(calls, i, placed, g);
      assert Pending(calls, i, placed) <= Pending(calls, i, done);
      if i in released {
        assert (i, g).0 < n && g in Pending(calls, i, placed);
      }
    }
    DistinctAppend(next, released);
  }

  /** The whole level in ready leaves, and what it alone held back comes next. */
  method ReleaseLevel(n: nat, calls: set<(nat, nat)>, outDegree: array<nat>, ready: seq<nat>, ghost done: set<nat>)
    returns (next: seq<nat>)
    requires forall e :: e in calls ==> e.0 < n && e.1 < n
    requires Counts(n, calls, done, outDegree[..]) && IsReady(n, calls, done, ready)
    requires forall i :: i in done ==> Pending(calls, i, done) == {}
    modifies outDegree
    ensures Counts(n, calls, done + Elements(ready), outDegree[..])
    ensures IsReady(n, calls, done + Elements(ready), next)
    ensures forall i :: i in next ==> exists j: nat :: j in ready && (i, j) in calls
  {
    next := [];
    ghost var placed := done;
    assert placed == done + Elements(ready[..0]);
    for k := 0 to |ready|
      invariant placed == done + Elements(ready[..k])
      invariant Counts(n, calls, placed, outDegree[..])
      invariant FreedSince(n, calls, done, placed, next)
    {
      var g := ready[k];
      assert g in ready;
      assert g !in placed;
      var released := ReleaseCallers(n, calls, outDegree, g, placed);
      AddFreed(n, calls, done, placed, next, g, released);
      assert Elements(ready[..k + 1]) == Elements(ready[..k]) + {g};
      next := next + released;
      placed := placed + {g};
    }
    assert ready[..|ready|] == ready;
    forall i | i in next ensures exists j: nat :: j in ready && (i, j) in calls {
      var j :| j in Pending(calls, i, done);
      assert (i, j) in calls && (j in placed || j in Pending(calls, i, placed));
    }
  }

  method CountCallees(n: nat, calls: set<(nat, nat)>) returns (outDegree: array<nat>)
    ensures fresh(outDegree) && Counts(n, calls, {}, outDegree[..])
  {
    outDegree := new nat[n];
    for i := 0 to n
      invariant forall k: nat :: k < i ==> outDegree[k] == |Pending(calls, k, {})|
    {
      var callees := set e | e in calls && e.0 == i :: e.1;
      assert callees == Pending(calls, i, {});
      outDegree[i] := |callees|;
    }
  }

  method Leaves(n: nat, calls: set<(nat, nat)>, outDegree: array<nat>) returns (ready: seq<nat>)
    requires Counts(n, calls, {}, outDegree[..])
    ensures IsReady(n, calls, {}, ready)
  {
    ready := [];
    for i := 0 to n
      invariant Distinct(ready)
      invariant forall k: nat :: k in ready <==> k < i && Pending(calls, k, {}) == {}
    {
      assert outDegree[i] == outDegree[..][i];
      if outDegree[i] == 0 {
        ready := ready + [i];
      }
    }
  }

  /** Every group of the level is given its number. */
  method Stamp(n: nat, levels: array<nat>, ready: seq<nat>, current: nat)
    requires levels.Length == n && forall i :: i in ready ==> i < n
    modifies levels
    ensures forall i: nat :: i < n ==> levels[i] == if i in ready then current else old(levels[i])
  {
    for k := 0 to |ready|
      invariant forall i: nat :: i < n ==> levels[i] == if i in ready[..k] then current else old(levels[i])
    {
      assert ready[k] in ready;
      levels[ready[k]] := current;
      assert ready[..k + 1] == ready[..k] + [ready[k]];
    }
    assert ready[..|ready|] == ready;
  }

  /**
   * Level of every group index. placed records the order in which groups got
   * their level; no group gets one twice and none is left out.
   */
  method LayerGroups(n: nat, calls: set<(nat, nat)>, ghost rank: seq<nat>)
    returns (level: seq<nat>, ghost placed: seq<nat>)
    requires Ranked(n, calls, rank)
    ensures IsLayering(n, calls, level)
    ensures Distinct(placed) && forall i: nat :: i in placed <==> i < n
  {
    var outDegree := CountCallees(n, calls);
    var ready := Leaves(n, calls, outDegree);
    var levels := new nat[n](_ => 0);
    var current := 0;
    placed := [];
    ghost var done: set<nat> := {};
    while ready != []
      invariant Counts(n, calls, done, outDegree[..]) && IsReady(n, calls, done, ready)
      invariant LayeredSoFar(n, calls, done, levels[..], current)
      invariant RestsBelow(n, calls, done, levels[..], current, ready)
      invariant Distinct(placed) && forall i :: i in placed <==> i in done
      decreases Indices(n) - done
    {
      assert ready[0] in ready;
      ghost var before := levels[..];
      Stamp(n, levels, ready, current);
      PlaceLevel(n, calls, done, before, current, ready, levels[..]);
      var next := ReleaseLevel(n, calls, outDegree, ready, done);
      NextRestsBelow(n, calls, done, levels[..], current, ready, next);
      DistinctAppend(placed, ready);
      placed := placed + ready;
      done := done + Elements(ready);
      ready := next;
      current := current + 1;
    }
    NobodyIsLeftOut(n, calls, rank, done, levels[..], current);
    level := levels[..];
  }

  /** Whatever waits for the level called current calls something one level lower. */
  ghost predicate RestsBelow(n: nat, calls: set<(nat, nat)>, done: set<nat>, level: seq<nat>, current: nat,
                             ready: seq<nat>)
  {
    && |level| == n
    && (current > 0 ==> forall i :: i in ready ==>
         exists j: nat :: j < n && j in done && (i, j) in calls && level[j] == current - 1)
  }

  lemma PlaceLevel(n: nat, calls: set<(nat, nat)>, done: set<nat>, before: seq<nat>, current: nat, ready: seq<nat>,
                   after: seq<nat>)
    requires forall e :: e in calls ==> e.0 < n && e.1 < n
    requires LayeredSoFar(n, calls, done, before, current) && IsReady(n, calls, done, ready)
    requires RestsBelow(n, calls, done, before, current, ready)
    requires |after| == n
    requires forall i: nat :: i < n ==> after[i] == if i in ready then current else before[i]
    ensures LayeredSoFar(n, calls, done + Elements(ready), after, current + 1)
  {
    var done' := done + Elements(ready);
    forall i | i in done' ensures Pending(calls, i, done') == {} {
      assert Pending(calls, i, done') <= Pending(calls, i, done);
    }
    forall e | e in calls && e.0 in done' ensures e.1 in done' && after[e.1] < after[e.0] {
      assert e.1 in done || e.1 in Pending(calls, e.0, done);
    }
    forall i | i in done' && after[i] > 0 ensures Supported(calls, after, i) {
      if i in ready {
        var j: nat :| j < n && j in done && (i, j) in calls && before[j] == current - 1;
        assert after[j] == after[i] - 1;
      } else {
        assert Supported(calls, before, i);
        var j: nat :| j < n && (i, j) in calls && before[j] == before[i] - 1;
        assert (i, j).0 in done;
        assert j in done;
      }
    }
  }

  lemma NextRestsBelow(n: nat, calls: set<(nat, nat)>, done: set<nat>, level: seq<nat>, current: nat, ready: seq<nat>,
                       next: seq<nat>)
    requires |level| == n && forall i :: i in ready ==> i < n && level[i] == current
    requires forall i :: i in next ==> exists j: nat :: j in ready && (i, j) in calls
    ensures RestsBelow(n, calls, done + Elements(ready), level, current + 1, next)
  {
    forall i | i in next
      ensures exists j: nat :: j < n && j in done + Elements(ready) && (i, j) in calls && level[j] == current
    {
      var j: nat :| j in ready && (i, j) in calls;
      assert j in done + Elements(ready);
    }
  }

  lemma NobodyIsLeftOut(n: nat, calls: set<(nat, nat)>, rank: seq<nat>, done: set<nat>, level: seq<nat>, current: nat)
    requires Ranked(n, calls, rank) && IsReady(n, calls, done, []) && LayeredSoFar(n, calls, done, level, current)
    ensures IsLayering(n, calls, level)
    ensures forall i: nat :: i in done <==> i < n
  {
    var none: seq<nat> := [];
    assert forall k: nat :: k !in none;
    forall i: nat | i < n ensures i in done {
      NobodyWaitsForever(n, calls, rank, done, i);
    }
  }

  /** calls' and level' are calls and level under the new numbering of the groups. */
  ghost predicate Relabelled(n: nat, order: seq<nat>, calls: set<(nat, nat)>, level: seq<nat>,
                             calls': set<(nat, nat)>, level': seq<nat>)
  {
    && |order| == |level| == |level'| == n
    && (forall i: nat :: i < n ==> order[i] < n && level'[i] == level[order[i]])
    && (forall e :: e in calls' ==> e.0 < n && e.1 < n && (order[e.0], order[e.1]) in calls)
    && (forall i: nat, j: nat :: i < n && j < n && (order[i], order[j]) in calls ==> (i, j) in calls')
  }

  /** Renumbering the groups carries a layering along. */
  lemma RelabelledLayering(n: nat, order: seq<nat>, calls: set<(nat, nat)>, level: seq<nat>,
                           calls': set<(nat, nat)>, level': seq<nat>)
    requires IsLayering(n, calls, level) && Relabelled(n, order, calls, level, calls', level')
    requires forall i: nat :: i < n ==> i in order
    ensures IsLayering(n, calls', level')
  {
    forall e | e in calls' ensures level'[e.1] < level'[e.0] {
      var f := (order[e.0], order[e.1]);
      assert level[f.1] < level[f.0];
    }
    forall i: nat | i < n && level'[i] > 0 ensures Supported(calls', level', i) {
      assert Supported(calls, level, order[i]);
      var h: nat :| h < n && (order[i], h) in calls && level[h] == level[order[i]] - 1;
      assert h in order;
      var k: nat :| k < |order| && order[k] == h;
      assert (i, k) in calls';
    }
  }
}
