/** The call chain around one function: breadth first, to a depth, not past the stop functions. */
module CallChain {
  import opened Outcomes

  datatype CallEdge = CallEdge(src: string, dst: string)

  datatype Link = Link(from: string, to: string, depth: nat)

  datatype Direction = Callers | Callees

  /** The edge that makes one marker a neighbor of another. */
  function EdgeOf(direction: Direction, marker: string, neighbor: string): (e: CallEdge) {
    if direction == Callers then CallEdge(neighbor, marker) else CallEdge(marker, neighbor)
  }

  /** Direct callers or callees of a declaration marker, one per edge. */
  function Neighbors(edges: seq<CallEdge>, direction: Direction, marker: string): (r: seq<string>)
    ensures forall m :: m in r <==> EdgeOf(direction, marker, m) in edges
  {
    if edges == [] then []
    else
      var e := edges[0];
      assert edges == [e] + edges[1..];
      (if direction == Callers && e.dst == marker then [e.src]
       else if direction == Callees && e.src == marker then [e.dst] else [])
      + Neighbors(edges[1..], direction, marker)
  }

  /** A walk along neighbors that, after its start, never enters a stop function. */
  ghost predicate StopFreeWalk(edges: seq<CallEdge>, direction: Direction, stops: set<string>, w: seq<string>) {
    && |w| > 0
    && (forall i :: 0 <= i < |w| - 1 ==> w[i + 1] in Neighbors(edges, direction, w[i]))
    && (forall i :: 0 < i < |w| ==> w[i] !in stops)
  }

  ghost predicate WalkTo(edges: seq<CallEdge>, direction: Direction, stops: set<string>, start: string, v: string,
                         n: nat)
  {
    exists w :: StopFreeWalk(edges, direction, stops, w) && w[0] == start && w[|w| - 1] == v && |w| == n + 1
  }

  /** n is the length of a shortest stop-free walk from start to v. */
  ghost predicate IsDistance(edges: seq<CallEdge>, direction: Direction, stops: set<string>, start: string, v: string,
                             n: nat)
  {
    && WalkTo(edges, direction, stops, start, v, n)
    && forall k: nat :: k < n ==> !WalkTo(edges, direction, stops, start, v, k)
  }

  /** The links printed for one expanded function. */
  function LinksOf(marker: string, neighbors: seq<string>, depth: nat): (r: seq<Link>) {
    if neighbors == [] then []
    else LinksOf(marker, neighbors[..|neighbors| - 1], depth) + [Link(marker, neighbors[|neighbors| - 1], depth)]
  }

  function AllLinks(edges: seq<CallEdge>, direction: Direction, expanded: seq<(string, nat)>): (r: seq<Link>) {
    if expanded == [] then []
    else
      var last := expanded[|expanded| - 1];
      AllLinks(edges, direction, expanded[..|expanded| - 1])
      + LinksOf(last.0, Neighbors(edges, direction, last.0), last.1)
  }

  /** Expanded once each, nearest first, exactly the functions within the depth, each at its distance. */
  ghost predicate Expands(edges: seq<CallEdge>, direction: Direction, stops: set<string>, start: string,
                          maxDepth: nat, expanded: seq<(string, nat)>)
  {
    && (forall i, j :: 0 <= i < j < |expanded| ==> expanded[i].0 != expanded[j].0 && expanded[i].1 <= expanded[j].1)
    && (forall v, d: nat :: (v, d) in expanded <==> d <= maxDepth && IsDistance(edges, direction, stops, start, v, d))
  }

  // ---- The search state -----------------------------------------------------------

  datatype Search = Search(edges: seq<CallEdge>, direction: Direction, stops: set<string>, start: string, maxDepth: nat)

  ghost predicate Walk(s: Search, v: string, n: nat) {
    WalkTo(s.edges, s.direction, s.stops, s.start, v, n)
  }

  ghost predicate Distance(s: Search, v: string, n: nat) {
    IsDistance(s.edges, s.direction, s.stops, s.start, v, n)
  }

  /** The queue waits in order of depth, at most one deeper than its head. */
  ghost predicate QueueOrdered(queue: seq<(string, nat)>) {
    && (forall i, j :: 0 <= i < j < |queue| ==> queue[i].1 <= queue[j].1)
    && (forall i :: 0 <= i < |queue| ==> queue[i].1 <= queue[0].1 + 1)
  }

  /** Every entry is the start, or one call from a function on a walk one shorter. */
  ghost predicate QueueJustified(s: Search, queue: seq<(string, nat)>) {
    forall e :: e in queue ==>
      if e.1 == 0 then e.0 == s.start
      else exists p :: Walk(s, p, e.1 - 1) && e.0 in Neighbors(s.edges, s.direction, p)
  }

  ghost predicate Found(expanded: seq<(string, nat)>, queue: seq<(string, nat)>, v: string, n: nat) {
    (exists d :: d <= n && (v, d) in expanded) || (exists d :: d <= n && (v, d) in queue)
  }

  /** Whatever an expanded function calls is found, stopped at, or too deep. */
  ghost predicate Complete(s: Search, expanded: seq<(string, nat)>, queue: seq<(string, nat)>) {
    && Found(expanded, queue, s.start, 0)
    && forall v, d, n :: (v, d) in expanded && n in Neighbors(s.edges, s.direction, v) ==>
      n in s.stops || d + 1 > s.maxDepth || Found(expanded, queue, n, d + 1)
  }

  ghost predicate ExpandedExact(s: Search, expanded: seq<(string, nat)>) {
    && (forall i, j :: 0 <= i < j < |expanded| ==> expanded[i].0 != expanded[j].0 && expanded[i].1 <= expanded[j].1)
    && (forall e :: e in expanded ==> e.1 <= s.maxDepth && Distance(s, e.0, e.1))
  }

  ghost predicate SearchOk(s: Search, expanded: seq<(string, nat)>, queue: seq<(string, nat)>) {
    && QueueOrdered(queue) && QueueJustified(s, queue) && Complete(s, expanded, queue) && ExpandedExact(s, expanded)
    && (queue != [] ==> forall e :: e in expanded ==> e.1 <= queue[0].1)
  }

  lemma WalkStep(s: Search, p: string, n: nat, v: string)
    requires Walk(s, p, n) && v in Neighbors(s.edges, s.direction, p) && v !in s.stops
    ensures Walk(s, v, n + 1)
  {
    hide Neighbors;
    var w :| StopFreeWalk(s.edges, s.direction, s.stops, w) && w[0] == s.start && w[|w| - 1] == p && |w| == n + 1;
    assert StopFreeWalk(s.edges, s.direction, s.stops, w + [v]);
  }

  lemma WalkNowhere(s: Search)
    ensures Walk(s, s.start, 0)
  {
    assert StopFreeWalk(s.edges, s.direction, s.stops, [s.start]);
  }

  /** A walk no longer than the depth has been followed to its end, or waits in the queue. */
  lemma {:induction false} WalkFollowed(s: Search, expanded: seq<(string, nat)>, queue: seq<(string, nat)>,
                                        w: seq<string>, k: nat)
    requires Complete(s, expanded, queue)
    requires StopFreeWalk(s.edges, s.direction, s.stops, w) && w[0] == s.start && k < |w| && k <= s.maxDepth
    ensures (exists d :: d <= k && (w[k], d) in expanded) || (exists v, d :: d <= k && (v, d) in queue)
  {
    if k > 0 {
      WalkFollowed(s, expanded, queue, w, k - 1);
      var v := w[k - 1];
      if d :| d <= k - 1 && (v, d) in expanded {
        assert w[k - 1 + 1] in Neighbors(s.edges, s.direction, w[k - 1]);
        assert Found(expanded, queue, w[k], d + 1);
      }
    }
  }

  /** Taken from the head of the queue for the first time, a function stands at its distance. */
  lemma HeadAtDistance(s: Search, expanded: seq<(string, nat)>, queue: seq<(string, nat)>)
    requires SearchOk(s, expanded, queue) && queue != []
    requires queue[0].1 <= s.maxDepth && (queue[0].1 > 0 ==> queue[0].0 !in s.stops)
    requires forall e :: e in expanded ==> e.0 != queue[0].0
    ensures Distance(s, queue[0].0, queue[0].1)
  {
    var (v, n) := queue[0];
    assert queue[0] in queue;
    if n == 0 {
      WalkNowhere(s);
    } else {
      var p :| Walk(s, p, n - 1) && v in Neighbors(s.edges, s.direction, p);
      WalkStep(s, p, n - 1, v);
    }
    forall k: nat | k < n ensures !WalkTo(s.edges, s.direction, s.stops, s.start, v, k) {
      if WalkTo(s.edges, s.direction, s.stops, s.start, v, k) {
        var w :| StopFreeWalk(s.edges, s.direction, s.stops, w) && w[0] == s.start && w[|w| - 1] == v && |w| == k + 1;
        WalkFollowed(s, expanded, queue, w, k);
        QueueAtLeast(queue);
      }
    }
  }

  lemma QueueAtLeast(queue: seq<(string, nat)>)
    requires QueueOrdered(queue) && queue != []
    ensures forall v, d :: (v, d) in queue ==> queue[0].1 <= d
  {
    forall v, d | (v, d) in queue ensures queue[0].1 <= d {
      var i :| 0 <= i < |queue| && queue[i] == (v, d);
    }
  }

  /** An entry to be dropped was found already, or is no entry anybody asks for. */
  lemma StillFound(s: Search, expanded: seq<(string, nat)>, queue: seq<(string, nat)>, v: string, n: nat)
    requires queue != [] && ExpandedExact(s, expanded) && forall e :: e in expanded ==> e.1 <= queue[0].1
    requires queue[0].1 > s.maxDepth || (exists d :: (queue[0].0, d) in expanded)
      || (queue[0].1 > 0 && queue[0].0 in s.stops)
    requires Found(expanded, queue, v, n) && n <= s.maxDepth && (n == 0 || v !in s.stops)
    ensures Found(expanded, queue[1..], v, n)
  {
    hide IsDistance;
    assert queue == [queue[0]] + queue[1..];
    if d :| d <= n && (v, d) in queue {
      if (v, d) == queue[0] {
        var e :| (v, e) in expanded;
        assert (v, e).1 <= queue[0].1;
      } else {
        assert (v, d) in queue[1..];
      }
    }
  }

  lemma QueueShrinks(s: Search, queue: seq<(string, nat)>)
    requires queue != [] && QueueOrdered(queue) && QueueJustified(s, queue)
    ensures QueueOrdered(queue[1..]) && QueueJustified(s, queue[1..])
    ensures queue[1..] != [] ==> queue[0].1 <= queue[1..][0].1
  {
    hide Walk, Neighbors;
    assert forall e :: e in queue[1..] ==> e in queue;
    assert forall i :: 0 <= i < |queue[1..]| ==> queue[1..][i] == queue[i + 1];
  }

  /** Entries that are too deep, already expanded or stop functions can be dropped. */
  lemma DropHead(s: Search, expanded: seq<(string, nat)>, queue: seq<(string, nat)>)
    requires SearchOk(s, expanded, queue) && queue != []
    requires queue[0].1 > s.maxDepth || (exists d :: (queue[0].0, d) in expanded)
      || (queue[0].1 > 0 && queue[0].0 in s.stops)
    ensures SearchOk(s, expanded, queue[1..])
  {
    hide Neighbors, IsDistance, Found, QueueOrdered, QueueJustified, ExpandedExact;
    QueueShrinks(s, queue);
    StillFound(s, expanded, queue, s.start, 0);
    forall v, d, n | (v, d) in expanded && n in Neighbors(s.edges, s.direction, v)
        && n !in s.stops && d + 1 <= s.maxDepth
      ensures Found(expanded, queue[1..], n, d + 1)
    {
      StillFound(s, expanded, queue, n, d + 1);
    }
  }

  lemma ExpandHead(s: Search, expanded: seq<(string, nat)>, queue: seq<(string, nat)>, next: seq<(string, nat)>)
    requires SearchOk(s, expanded, queue) && queue != []
    requires queue[0].1 <= s.maxDepth && (queue[0].1 > 0 ==> queue[0].0 !in s.stops)
    requires forall e :: e in expanded ==> e.0 != queue[0].0
    requires forall e :: e in next <==> e.1 == queue[0].1 + 1 && e.0 in Neighbors(s.edges, s.direction, queue[0].0)
    ensures SearchOk(s, expanded + [queue[0]], queue[1..] + next)
  {
    hide Neighbors, IsDistance, WalkTo, Complete, QueueJustified, QueueOrdered, ExpandedExact;
    HeadAtDistance(s, expanded, queue);
    assert Walk(s, queue[0].0, queue[0].1) by { DistanceIsWalk(s, queue[0].0, queue[0].1); }
    QueueAdvances(queue, next);
    ExpandKeepsComplete(s, expanded, queue, next);
    ExpandKeepsExact(s, expanded, queue, next);
    ExpandKeepsJustified(s, queue, next);
  }

  lemma ExpandKeepsJustified(s: Search, queue: seq<(string, nat)>, next: seq<(string, nat)>)
    requires QueueJustified(s, queue) && queue != [] && Walk(s, queue[0].0, queue[0].1)
    requires forall e :: e in next <==> e.1 == queue[0].1 + 1 && e.0 in Neighbors(s.edges, s.direction, queue[0].0)
    ensures QueueJustified(s, queue[1..] + next)
  {
    hide Neighbors;
    assert queue == [queue[0]] + queue[1..];
    forall e | e in queue[1..] + next
      ensures if e.1 == 0 then e.0 == s.start
              else exists p :: Walk(s, p, e.1 - 1) && e.0 in Neighbors(s.edges, s.direction, p)
    {
      if e in queue[1..] {
        assert e in queue;
      } else {
        assert Walk(s, queue[0].0, e.1 - 1);
      }
    }
  }

  lemma ExpandKeepsExact(s: Search, expanded: seq<(string, nat)>, queue: seq<(string, nat)>, next: seq<(string, nat)>)
    requires QueueOrdered(queue) && ExpandedExact(s, expanded) && queue != []
    requires forall e :: e in expanded ==> e.1 <= queue[0].1 && e.0 != queue[0].0
    requires queue[0].1 <= s.maxDepth && Distance(s, queue[0].0, queue[0].1)
    requires forall e :: e in next ==> e.1 == queue[0].1 + 1
    ensures ExpandedExact(s, expanded + [queue[0]])
    ensures forall e, f :: e in expanded + [queue[0]] && f in queue[1..] + next ==> e.1 <= f.1
  {
    hide IsDistance;
    var expanded', queue' := expanded + [queue[0]], queue[1..] + next;
    forall i, j | 0 <= i < j < |expanded'|
      ensures expanded'[i].0 != expanded'[j].0 && expanded'[i].1 <= expanded'[j].1
    {
      assert i < |expanded| && expanded[i] in expanded;
    }
    QueueAtLeast(queue);
    assert queue == [queue[0]] + queue[1..];
    forall f | f in queue' ensures queue[0].1 <= f.1 {
      if f in queue[1..] {
        assert (f.0, f.1) in queue;
      }
    }
  }

  lemma DistanceIsWalk(s: Search, v: string, n: nat)
    requires Distance(s, v, n)
    ensures Walk(s, v, n)
  {
  }

  lemma QueueAdvances(queue: seq<(string, nat)>, next: seq<(string, nat)>)
    requires QueueOrdered(queue) && queue != [] && forall e :: e in next ==> e.1 == queue[0].1 + 1
    ensures QueueOrdered(queue[1..] + next)
  {
    var queue' := queue[1..] + next;
    forall i | 0 <= i < |queue'|
      ensures queue[0].1 <= queue'[i].1 <= queue[0].1 + 1
        && (i >= |queue| - 1 ==> queue'[i].1 == queue[0].1 + 1)
    {
      if i >= |queue| - 1 {
        assert queue'[i] in next;
      }
    }
  }

  lemma ExpandKeepsComplete(s: Search, expanded: seq<(string, nat)>, queue: seq<(string, nat)>,
                            next: seq<(string, nat)>)
    requires Complete(s, expanded, queue) && queue != []
    requires forall e :: e in next <==> e.1 == queue[0].1 + 1 && e.0 in Neighbors(s.edges, s.direction, queue[0].0)
    ensures Complete(s, expanded + [queue[0]], queue[1..] + next)
  {
    hide Neighbors;
    var expanded', queue' := expanded + [queue[0]], queue[1..] + next;
    assert queue == [queue[0]] + queue[1..];
    forall v, n: nat | Found(expanded, queue, v, n) ensures Found(expanded', queue', v, n) {
      if d :| d <= n && (v, d) in queue {
        assert (v, d) in expanded' || (v, d) in queue';
      } else {
        var d :| d <= n && (v, d) in expanded;
        assert (v, d) in expanded';
      }
    }
    forall n | n in Neighbors(s.edges, s.direction, queue[0].0) ensures Found(expanded', queue', n, queue[0].1 + 1) {
      assert (n, queue[0].1 + 1) in queue';
    }
  }

  /** With nothing waiting, the expanded functions are exactly those within the depth. */
  lemma SearchFinished(s: Search, expanded: seq<(string, nat)>)
    requires SearchOk(s, expanded, [])
    ensures Expands(s.edges, s.direction, s.stops, s.start, s.maxDepth, expanded)
  {
    forall v, d: nat
      ensures (v, d) in expanded <==> d <= s.maxDepth && IsDistance(s.edges, s.direction, s.stops, s.start, v, d)
    {
      if (v, d) in expanded {
        assert Distance(s, (v, d).0, (v, d).1);
      }
      if d <= s.maxDepth && IsDistance(s.edges, s.direction, s.stops, s.start, v, d) {
        var w :| StopFreeWalk(s.edges, s.direction, s.stops, w) && w[0] == s.start && w[|w| - 1] == v && |w| == d + 1;
        WalkFollowed(s, expanded, [], w, d);
        var e :| e <= d && (v, e) in expanded;
        assert Distance(s, (v, e).0, (v, e).1);
      }
    }
  }

  ghost function Markers(edges: seq<CallEdge>, start: string): (r: set<string>)
    ensures start in r && forall e :: e in edges ==> e.src in r && e.dst in r
  {
    if edges == [] then {start} else
      assert edges == [edges[0]] + edges[1..];
      Markers(edges[1..], start) + {edges[0].src, edges[0].dst}
  }

  /** The links of the functions expanded, one function after the other. */
  ghost predicate IsChain(edges: seq<CallEdge>, direction: Direction, stops: set<string>, start: string, limit: nat,
                          links: seq<Link>)
  {
    exists expanded :: Expands(edges, direction, stops, start, limit, expanded)
      && links == AllLinks(edges, direction, expanded)
  }

  method CallChainPayload(edges: seq<CallEdge>, start: string, direction: string, maxDepth: Option<nat>,
                          stops: set<string>)
    returns (r: Result<seq<Link>, string>)
    ensures r.Success? <==> direction == "callers" || direction == "callees"
    ensures r.Success? ==>
      var way := if direction == "callers" then Callers else Callees;
      var limit := if maxDepth == None then 5 else if maxDepth.value <= 20 then maxDepth.value else 20;
      IsChain(edges, way, stops, start, limit, r.value)
  {
    hide SearchOk, Expands, LinksOf;
    var limit := DepthLimit(maxDepth);
    var way := if direction == "callers" then Callers else Callees;
    ghost var s := Search(edges, way, stops, start, limit);
    var queue: seq<(string, nat)> := [(start, 0)];
    var visited: set<string> := {};
    var chain: seq<Link> := [];
    ghost var expanded: seq<(string, nat)> := [];
    SearchStarts(s);
    while queue != []
      invariant SearchOk(s, expanded, queue)
      invariant forall v :: v in visited <==> exists d :: (v, d) in expanded
      invariant chain == AllLinks(edges, way, expanded)
      invariant direction == "callers" || direction == "callees" || (expanded == [] && queue == [(start, 0)])
      invariant visited <= Markers(edges, start) && forall e :: e in queue ==> e.0 in Markers(edges, start)
      decreases Markers(edges, start) - visited, |queue|
    {
      var (marker, depth) := queue[0];
      if depth > limit || marker in visited || (depth > 0 && marker in stops) {
        DropHead(s, expanded, queue);
        queue := queue[1..];
        continue;
      }
      if direction != "callers" && direction != "callees" {
        return Failure("direction must be callers or callees");
      }
      var neighbors := Neighbors(edges, way, marker);
      var links, next := Expand(marker, neighbors, depth);
      ExpandHead(s, expanded, queue, next);
      visited := visited + {marker};
      chain := chain + links;
      queue := queue[1..] + next;
      ghost var expanded' := expanded + [(marker, depth)];
      assert expanded'[..|expanded'| - 1] == expanded;
      expanded := expanded';
    }
    SearchFinished(s, expanded);
    r := Success(chain);
  }

  lemma SearchStarts(s: Search)
    ensures SearchOk(s, [], [(s.start, 0)])
  {
    assert (s.start, 0) in [(s.start, 0)];
  }

  /** Five levels unless asked otherwise, never more than twenty. */
  function DepthLimit(maxDepth: Option<nat>): (d: nat)
    ensures d <= 20
  {
    var d := if maxDepth.Some? then maxDepth.value else 5;
    if d < 20 then d else 20
  }

  method Expand(marker: string, neighbors: seq<string>, depth: nat) returns (links: seq<Link>, next: seq<(string, nat)>)
    ensures links == LinksOf(marker, neighbors, depth)
    ensures forall e :: e in next <==> e.1 == depth + 1 && e.0 in neighbors
  {
    links, next := [], [];
    for i := 0 to |neighbors|
      invariant links == LinksOf(marker, neighbors[..i], depth)
      invariant forall e :: e in next <==> e.1 == depth + 1 && e.0 in neighbors[..i]
    {
      links := links + [Link(marker, neighbors[i], depth)];
      next := next + [(neighbors[i], depth + 1)];
      assert neighbors[..i + 1][..i] == neighbors[..i];
      assert neighbors[..i + 1] == neighbors[..i] + [neighbors[i]];
    }
    assert neighbors[..|neighbors|] == neighbors;
  }

  lemma {:induction false} LinksExact(edges: seq<CallEdge>, direction: Direction, expanded: seq<(string, nat)>,
                                      link: Link)
    ensures link in AllLinks(edges, direction, expanded) <==>
      (link.from, link.depth) in expanded && link.to in Neighbors(edges, direction, link.from)
  {
    if expanded != [] {
      var last := expanded[|expanded| - 1];
      LinksExact(edges, direction, expanded[..|expanded| - 1], link);
      LinksOfExact(last.0, Neighbors(edges, direction, last.0), last.1, link);
      assert expanded == expanded[..|expanded| - 1] + [last];
    }
  }

  lemma {:induction false} LinksOfExact(marker: string, neighbors: seq<string>, depth: nat, link: Link)
    ensures link in LinksOf(marker, neighbors, depth) <==>
      link.from == marker && link.depth == depth && link.to in neighbors
  {
    if neighbors != [] {
      LinksOfExact(marker, neighbors[..|neighbors| - 1], depth, link);
      assert neighbors == neighbors[..|neighbors| - 1] + [neighbors[|neighbors| - 1]];
    }
  }

  /** Every link printed carries the shortest distance of its source, and every source in range is there. */
  lemma LinksCarryTheDistance(edges: seq<CallEdge>, direction: Direction, stops: set<string>, start: string,
                              maxDepth: nat, expanded: seq<(string, nat)>, link: Link)
    requires Expands(edges, direction, stops, start, maxDepth, expanded)
    ensures link in AllLinks(edges, direction, expanded) <==>
      && link.depth <= maxDepth && IsDistance(edges, direction, stops, start, link.from, link.depth)
      && link.to in Neighbors(edges, direction, link.from)
  {
    LinksExact(edges, direction, expanded, link);
  }

  // ---- Told on the calls themselves --------------------------------------------------

  /** b is a function that calls a, or one that a calls. */
  predicate IsNext(edges: seq<CallEdge>, callers: bool, a: string, b: string) {
    if callers then CallEdge(b, a) in edges else CallEdge(a, b) in edges
  }

  /** From the start along calls, not on from a stop function except the start. */
  ghost predicate IsRoute(edges: seq<CallEdge>, callers: bool, stops: set<string>, start: string, route: seq<string>) {
    && |route| > 0 && route[0] == start
    && (forall i :: 0 <= i < |route| - 1 ==> IsNext(edges, callers, route[i], route[i + 1]))
    && (forall i :: 0 < i < |route| ==> route[i] !in stops)
  }

  ghost predicate RouteTo(edges: seq<CallEdge>, callers: bool, stops: set<string>, start: string, v: string, n: nat) {
    exists route :: IsRoute(edges, callers, stops, start, route) && |route| == n + 1 && route[n] == v
  }

  /** n calls lead there and no fewer do. */
  ghost predicate IsCallsAway(edges: seq<CallEdge>, callers: bool, stops: set<string>, start: string, v: string, n: nat)
  {
    && RouteTo(edges, callers, stops, start, v, n)
    && forall k: nat :: k < n ==> !RouteTo(edges, callers, stops, start, v, k)
  }

  lemma SameRoutes(edges: seq<CallEdge>, direction: Direction, stops: set<string>, start: string, v: string, n: nat)
    ensures WalkTo(edges, direction, stops, start, v, n) <==> RouteTo(edges, direction.Callers?, stops, start, v, n)
  {
    if w :| StopFreeWalk(edges, direction, stops, w) && w[0] == start && w[|w| - 1] == v && |w| == n + 1 {
      assert IsRoute(edges, direction.Callers?, stops, start, w);
    }
    if w :| IsRoute(edges, direction.Callers?, stops, start, w) && |w| == n + 1 && w[n] == v {
      assert StopFreeWalk(edges, direction, stops, w);
    }
  }

  lemma SameDistances(edges: seq<CallEdge>, direction: Direction, stops: set<string>, start: string, v: string, n: nat)
    ensures IsDistance(edges, direction, stops, start, v, n)
      <==> IsCallsAway(edges, direction.Callers?, stops, start, v, n)
  {
    hide WalkTo, RouteTo;
    forall k: nat ensures WalkTo(edges, direction, stops, start, v, k)
        <==> RouteTo(edges, direction.Callers?, stops, start, v, k)
    {
      SameRoutes(edges, direction, stops, start, v, k);
    }
  }

  /** The call a link stands for. */
  function CallOf(link: Link, callers: bool): (e: CallEdge) {
    if callers then CallEdge(link.to, link.from) else CallEdge(link.from, link.to)
  }

  lemma {:induction false} NeighborCount(edges: seq<CallEdge>, direction: Direction, marker: string, m: string)
    ensures multiset(Neighbors(edges, direction, marker))[m] == multiset(edges)[EdgeOf(direction, marker, m)]
  {
    if edges != [] {
      var e := edges[0];
      assert edges == [e] + edges[1..];
      NeighborCount(edges[1..], direction, marker, m);
      assert multiset(edges) == multiset{e} + multiset(edges[1..]);
      var own := if direction == Callers && e.dst == marker then [e.src]
        else if direction == Callees && e.src == marker then [e.dst] else [];
      assert Neighbors(edges, direction, marker) == own + Neighbors(edges[1..], direction, marker);
    }
  }

  lemma {:induction false} LinkCount(marker: string, neighbors: seq<string>, depth: nat, link: Link)
    ensures multiset(LinksOf(marker, neighbors, depth))[link] ==
      if link.from == marker && link.depth == depth then multiset(neighbors)[link.to] else 0
  {
    if neighbors != [] {
      var n := |neighbors| - 1;
      assert neighbors == neighbors[..n] + [neighbors[n]];
      LinkCount(marker, neighbors[..n], depth, link);
    }
  }

  lemma {:induction false} AllLinksCount(edges: seq<CallEdge>, direction: Direction, expanded: seq<(string, nat)>,
                                         link: Link)
    requires forall i, j :: 0 <= i < j < |expanded| ==> expanded[i].0 != expanded[j].0
    ensures multiset(AllLinks(edges, direction, expanded))[link] ==
      if (link.from, link.depth) in expanded then multiset(edges)[EdgeOf(direction, link.from, link.to)] else 0
  {
    if expanded != [] {
      var n := |expanded| - 1;
      var front, last := expanded[..n], expanded[n];
      assert expanded == front + [last];
      AllLinksCount(edges, direction, front, link);
      LinkCount(last.0, Neighbors(edges, direction, last.0), last.1, link);
      NeighborCount(edges, direction, link.from, link.to);
      if (link.from, link.depth) in front {
        var i :| 0 <= i < |front| && front[i] == (link.from, link.depth);
        assert expanded[i].0 != expanded[n].0;
      }
    }
  }

  predicate Ascending(links: seq<Link>) {
    forall i, j :: 0 <= i < j < |links| ==> links[i].depth <= links[j].depth
  }

  lemma {:induction false} LinksAscend(edges: seq<CallEdge>, direction: Direction, expanded: seq<(string, nat)>,
                                       limit: nat)
    requires forall i, j :: 0 <= i < j < |expanded| ==> expanded[i].1 <= expanded[j].1
    requires forall i :: 0 <= i < |expanded| ==> expanded[i].1 <= limit
    ensures Ascending(AllLinks(edges, direction, expanded))
    ensures forall link :: link in AllLinks(edges, direction, expanded) ==> link.depth <= limit
  {
    if expanded != [] {
      var n := |expanded| - 1;
      var (marker, depth) := expanded[n];
      var neighbors := Neighbors(edges, direction, marker);
      LinksAscend(edges, direction, expanded[..n], depth);
      SameDepth(marker, neighbors, depth);
      AppendAscends(AllLinks(edges, direction, expanded[..n]), LinksOf(marker, neighbors, depth), depth);
    }
  }

  lemma AppendAscends(before: seq<Link>, more: seq<Link>, depth: nat)
    requires Ascending(before) && (forall link :: link in before ==> link.depth <= depth)
    requires forall link :: link in more ==> link.depth == depth
    ensures Ascending(before + more)
  {
    var links := before + more;
    forall i, j | 0 <= i < j < |links| ensures links[i].depth <= links[j].depth {
      if j >= |before| {
        assert links[j] in more && (i < |before| ==> links[i] in before) && (i >= |before| ==> links[i] in more);
      }
    }
  }

  lemma {:induction false} SameDepth(marker: string, neighbors: seq<string>, depth: nat)
    ensures forall link :: link in LinksOf(marker, neighbors, depth) ==> link.depth == depth
  {
    if neighbors != [] {
      SameDepth(marker, neighbors[..|neighbors| - 1], depth);
    }
  }

  /**
   * A link is reported once for every time its call is in the call graph, when
   * its source is so many calls away from the start as the link says and that
   * is within the limit; and not at all otherwise. Near links come first.
   */
  lemma ChainIsOfTheCalls(edges: seq<CallEdge>, direction: Direction, stops: set<string>, start: string, limit: nat,
                          links: seq<Link>, link: Link)
    requires IsChain(edges, direction, stops, start, limit, links)
    ensures multiset(links)[link] ==
      if link.depth <= limit && IsCallsAway(edges, direction.Callers?, stops, start, link.from, link.depth)
      then multiset(edges)[CallOf(link, direction.Callers?)] else 0
    ensures Ascending(links)
  {
    hide IsDistance, IsCallsAway, AllLinks;
    var expanded: seq<(string, nat)> :| Expands(edges, direction, stops, start, limit, expanded)
      && links == AllLinks(edges, direction, expanded);
    AllLinksCount(edges, direction, expanded, link);
    assert forall i :: 0 <= i < |expanded| ==> (expanded[i].0, expanded[i].1) in expanded;
    LinksAscend(edges, direction, expanded, limit);
    SameDistances(edges, direction, stops, start, link.from, link.depth);
  }
}
