/** What changed between two proof runs, joined goal by goal on a stable id that may repeat. */
module GoalDiff {
  import opened Outcomes

  datatype Goal = Goal(id: Option<string>, status: Option<string>, progress: bool)

  /** What a goal is compared by: its status text and whether it counts as discharged. */
  datatype Mark = Mark(status: string, proved: bool)

  function MarkOf(goal: Goal): Mark {
    Mark(if goal.status.Some? then goal.status.value else "unknown", goal.progress)
  }

  datatype Pairing = Pairing(id: string, now: Mark, earlier: Option<Mark>)

  datatype Diff = Diff(
    newlyProved: seq<Pairing>,
    newlyUnproved: seq<Pairing>,
    statusChanged: seq<Pairing>,
    appeared: seq<Pairing>,
    disappeared: seq<(string, Mark)>,
    unchangedCount: nat,
    sharedTotal: nat,
    sharedProvedNow: nat,
    sharedProvedBefore: nat,
    comparable: bool)

  // ---- The matching of one id -----------------------------------------------

  /** Same progress state first, then same status. */
  function Distance(candidate: Mark, now: Mark): nat {
    (if candidate.proved != now.proved then 2 else 0) + (if candidate.status != now.status then 1 else 0)
  }

  /** The first candidate at the least distance. */
  function Nearest(candidates: seq<Mark>, now: Mark): (k: nat)
    requires candidates != []
    ensures k < |candidates|
    ensures forall c :: c in candidates ==> Distance(candidates[k], now) <= Distance(c, now)
    ensures forall i :: 0 <= i < k ==> Distance(candidates[k], now) < Distance(candidates[i], now)
  {
    if |candidates| == 1 then 0
    else
      var k := Nearest(candidates[..|candidates| - 1], now);
      if Distance(candidates[|candidates| - 1], now) < Distance(candidates[k], now) then |candidates| - 1 else k
  }

  function Without(s: seq<Mark>, k: nat): (r: seq<Mark>)
    requires k < |s|
    ensures |r| == |s| - 1 && multiset(r) == multiset(s) - multiset{s[k]}
  {
    assert s == s[..k] + [s[k]] + s[k + 1..];
    s[..k] + s[k + 1..]
  }

  /** The candidate a goal takes, if any is left, and the ones that remain. */
  function Meet(candidates: seq<Mark>, now: Mark): (r: (Option<Mark>, seq<Mark>))
    ensures r.0.None? ==> r.1 == candidates
  {
    if candidates == [] then (None, [])
    else (Some(candidates[Nearest(candidates, now)]), Without(candidates, Nearest(candidates, now)))
  }

  /** The greedy pairing of one id's occurrences: what each goal met, and what is left over. */
  function Pair(before: seq<Mark>, now: seq<Mark>): (r: (seq<Option<Mark>>, seq<Mark>))
    ensures |r.0| == |now|
    decreases now
  {
    if now == [] then ([], before)
    else
      var (first, remaining) := Meet(before, now[0]);
      var (rest, left) := Pair(remaining, now[1..]);
      ([first] + rest, left)
  }

  function Met(earlier: seq<Option<Mark>>): (n: nat)
    ensures n <= |earlier|
  {
    if earlier == [] then 0 else (if earlier[0].Some? then 1 else 0) + Met(earlier[1..])
  }

  /** Moves across the discharged boundary in the given direction. */
  function Moves(earlier: seq<Option<Mark>>, now: seq<Mark>, toProved: bool): (n: nat)
    requires |earlier| == |now|
  {
    if now == [] then 0
    else
      (if earlier[0].Some? && earlier[0].value.proved != now[0].proved && now[0].proved == toProved then 1 else 0)
      + Moves(earlier[1..], now[1..], toProved)
  }

  function Proved(s: seq<Mark>): (n: nat)
    ensures n <= |s|
  {
    if s == [] then 0 else (if s[0].proved then 1 else 0) + Proved(s[1..])
  }

  lemma {:induction false} ProvedAppend(a: seq<Mark>, b: seq<Mark>)
    ensures Proved(a + b) == Proved(a) + Proved(b)
  {
    if a == [] {
      assert a + b == b;
    } else {
      assert (a + b)[1..] == a[1..] + b;
      ProvedAppend(a[1..], b);
    }
  }

  lemma ProvedWithout(s: seq<Mark>, k: nat)
    requires k < |s|
    ensures Proved(Without(s, k)) == Proved(s) - if s[k].proved then 1 else 0
  {
    assert s == s[..k] + ([s[k]] + s[k + 1..]);
    ProvedAppend(s[..k], [s[k]] + s[k + 1..]);
    ProvedAppend(s[..k], s[k + 1..]);
  }

  lemma {:induction false} AllOrNone(s: seq<Mark>, proved: bool)
    ensures (forall m :: m in s ==> m.proved == proved) ==> Proved(s) == if proved then |s| else 0
  {
    if s != [] {
      AllOrNone(s[1..], proved);
      assert s == [s[0]] + s[1..];
    }
  }

  /** Exactly the smaller of the two counts pairs up. */
  lemma {:induction false} PairsTheSmallerCount(before: seq<Mark>, now: seq<Mark>)
    ensures var (earlier, left) := Pair(before, now);
      var n := if |before| <= |now| then |before| else |now|;
      Met(earlier) == n && |left| == |before| - n
    decreases now
  {
    if now != [] {
      PairsTheSmallerCount(if before == [] then [] else Without(before, Nearest(before, now[0])), now[1..]);
    }
  }

  /**
   * When an id occurs equally often in both runs, as many goals cross the
   * discharged boundary as the proved counts differ by, all in one direction.
   */
  lemma {:induction false} TransitionsAreTheDifference(before: seq<Mark>, now: seq<Mark>)
    requires |before| == |now|
    ensures var earlier, b, n := Pair(before, now).0, Proved(before), Proved(now);
      && Moves(earlier, now, true) == (if n >= b then n - b else 0)
      && Moves(earlier, now, false) == (if b >= n then b - n else 0)
    decreases now
  {
    if now != [] {
      var k := Nearest(before, now[0]);
      var rest := Without(before, k);
      var (earlier, _) := Pair(rest, now[1..]);
      TransitionsAreTheDifference(rest, now[1..]);
      ProvedWithout(before, k);
      assert Pair(before, now).0 == [Some(before[k])] + earlier;
      if before[k].proved != now[0].proved {
        assert forall m :: m in before ==> m.proved != now[0].proved;
        AllOrNone(before, !now[0].proved);
      }
    }
  }

  function Each(now: seq<Mark>): (r: seq<Option<Mark>>)
    ensures |r| == |now| && forall i :: 0 <= i < |now| ==> r[i] == Some(now[i])
  {
    if now == [] then [] else [Some(now[0])] + Each(now[1..])
  }

  lemma SameGoalFound(before: seq<Mark>, now: seq<Mark>)
    requires now != [] && multiset(before) == multiset(now)
    ensures before != [] && before[Nearest(before, now[0])] == now[0]
    ensures multiset(Without(before, Nearest(before, now[0]))) == multiset(now[1..])
  {
    assert now == [now[0]] + now[1..];
    assert now[0] in multiset(before);
    assert now[0] in before;
    var k := Nearest(before, now[0]);
    assert Distance(before[k], now[0]) <= Distance(now[0], now[0]);
  }

  /** Rearranging one id's occurrences changes nothing: each meets an equal one. */
  lemma {:induction false} ReorderingIsInvisible(before: seq<Mark>, now: seq<Mark>)
    requires multiset(before) == multiset(now)
    ensures Pair(before, now) == (Each(now), [])
    decreases now
  {
    if now == [] {
      assert |multiset(before)| == |before|;
    } else {
      SameGoalFound(before, now);
      ReorderingIsInvisible(Without(before, Nearest(before, now[0])), now[1..]);
    }
  }

  // ---- All ids ----------------------------------------------------------------

  function Get(groups: map<string, seq<Mark>>, id: string): (r: seq<Mark>) {
    if id in groups then groups[id] else []
  }

  /** The marks of the goals carrying this id, in order. */
  function Marks(goals: seq<Goal>, id: string): (r: seq<Mark>) {
    if goals == [] then []
    else Marks(goals[..|goals| - 1], id)
         + if goals[|goals| - 1].id == Some(id) then [MarkOf(goals[|goals| - 1])] else []
  }

  datatype Joined = Joined(rows: seq<Pairing>, left: map<string, seq<Mark>>)

  /** One goal of the current run meets the nearest remaining goal of its id. */
  function JoinGoal(j: Joined, goal: Goal): Joined {
    if goal.id.None? then j
    else
      var (earlier, remaining) := Meet(Get(j.left, goal.id.value), MarkOf(goal));
      Joined(j.rows + [Pairing(goal.id.value, MarkOf(goal), earlier)],
             if earlier.None? then j.left else j.left[goal.id.value := remaining])
  }

  function Join(before: map<string, seq<Mark>>, current: seq<Goal>): Joined {
    if current == [] then Joined([], before)
    else JoinGoal(Join(before, current[..|current| - 1]), current[|current| - 1])
  }

  datatype Kind = Appeared | NewlyProved | NewlyUnproved | Unchanged | StatusChanged

  function KindOf(p: Pairing): Kind {
    if p.earlier.None? then Appeared
    else if p.now.proved != p.earlier.value.proved then (if p.now.proved then NewlyProved else NewlyUnproved)
    else if p.now.status == p.earlier.value.status then Unchanged
    else StatusChanged
  }

  function OfKind(rows: seq<Pairing>, kind: Kind): (r: seq<Pairing>) {
    if rows == [] then []
    else OfKind(rows[..|rows| - 1], kind) + if KindOf(rows[|rows| - 1]) == kind then [rows[|rows| - 1]] else []
  }

  function NowProved(rows: seq<Pairing>): (n: nat) {
    if rows == [] then 0
    else NowProved(rows[..|rows| - 1]) + if rows[|rows| - 1].earlier.Some? && rows[|rows| - 1].now.proved then 1 else 0
  }

  function BeforeProved(rows: seq<Pairing>): (n: nat) {
    if rows == [] then 0
    else BeforeProved(rows[..|rows| - 1])
         + if rows[|rows| - 1].earlier.Some? && rows[|rows| - 1].earlier.value.proved then 1 else 0
  }

  function LostOf(lost: seq<(string, Mark)>, id: string): (r: seq<Mark>) {
    if lost == [] then []
    else LostOf(lost[..|lost| - 1], id) + if lost[|lost| - 1].0 == id then [lost[|lost| - 1].1] else []
  }

  /** The report a join amounts to; left-over groups may be listed in any order of ids. */
  ghost predicate Reports(diff: Diff, j: Joined, previous: seq<Goal>, current: seq<Goal>) {
    && diff.newlyProved == OfKind(j.rows, NewlyProved)
    && diff.newlyUnproved == OfKind(j.rows, NewlyUnproved)
    && diff.statusChanged == OfKind(j.rows, StatusChanged)
    && diff.appeared == OfKind(j.rows, Appeared)
    && diff.unchangedCount == |OfKind(j.rows, Unchanged)|
    && diff.sharedTotal + |diff.appeared| == |j.rows|
    && diff.sharedProvedNow == NowProved(j.rows)
    && diff.sharedProvedBefore == BeforeProved(j.rows)
    && (forall id :: LostOf(diff.disappeared, id) == Get(j.left, id))
    && (diff.comparable <==> diff.sharedTotal == |previous| && diff.sharedTotal == |current|)
  }

  method GroupById(goals: seq<Goal>) returns (groups: map<string, seq<Mark>>)
    ensures forall id :: Get(groups, id) == Marks(goals, id)
  {
    groups := map[];
    for i := 0 to |goals|
      invariant forall id :: Get(groups, id) == Marks(goals[..i], id)
    {
      assert goals[..i + 1][..i] == goals[..i];
      if goals[i].id.Some? {
        var id := goals[i].id.value;
        groups := groups[id := Get(groups, id) + [MarkOf(goals[i])]];
      }
    }
    assert goals[..|goals|] == goals;
  }

  lemma {:induction false} LostAppend(a: seq<(string, Mark)>, id: string, marks: seq<Mark>, other: string)
    ensures LostOf(a + Tagged(id, marks), other) == LostOf(a, other) + if id == other then marks else []
  {
    if marks == [] {
      assert a + Tagged(id, marks) == a;
    } else {
      var front := marks[..|marks| - 1];
      var all := a + Tagged(id, marks);
      assert all[..|all| - 1] == a + Tagged(id, front);
      LostAppend(a, id, front, other);
      assert marks == front + [marks[|marks| - 1]];
    }
  }

  function Tagged(id: string, marks: seq<Mark>): (r: seq<(string, Mark)>)
    ensures |r| == |marks|
  {
    if marks == [] then [] else Tagged(id, marks[..|marks| - 1]) + [(id, marks[|marks| - 1])]
  }

  method Leftovers(left: map<string, seq<Mark>>) returns (lost: seq<(string, Mark)>)
    ensures forall id :: LostOf(lost, id) == Get(left, id)
  {
    lost := [];
    var pending := left.Keys;
    while pending != {}
      invariant pending <= left.Keys
      invariant forall id :: LostOf(lost, id) == if id in pending then [] else Get(left, id)
      decreases pending
    {
      var id :| id in pending;
      forall other
        ensures LostOf(lost + Tagged(id, left[id]), other) == LostOf(lost, other) + if id == other then left[id] else []
      {
        LostAppend(lost, id, left[id], other);
      }
      lost := lost + Tagged(id, left[id]);
      pending := pending - {id};
    }
  }

  /** Everything the report says so far about the rows joined so far. */
  ghost predicate Tallies(diff: Diff, rows: seq<Pairing>) {
    && diff.newlyProved == OfKind(rows, NewlyProved)
    && diff.newlyUnproved == OfKind(rows, NewlyUnproved)
    && diff.statusChanged == OfKind(rows, StatusChanged)
    && diff.appeared == OfKind(rows, Appeared)
    && diff.unchangedCount == |OfKind(rows, Unchanged)|
    && diff.sharedTotal + |diff.appeared| == |rows|
    && diff.sharedProvedNow == NowProved(rows)
    && diff.sharedProvedBefore == BeforeProved(rows)
  }

  method Tally(diff: Diff, row: Pairing, ghost rows: seq<Pairing>) returns (r: Diff)
    requires Tallies(diff, rows)
    ensures Tallies(r, rows + [row])
  {
    assert (rows + [row])[..|rows|] == rows;
    r := diff;
    if row.earlier.None? {
      r := r.(appeared := r.appeared + [row]);
      return;
    }
    var was := row.earlier.value;
    r := r.(sharedTotal := r.sharedTotal + 1,
            sharedProvedNow := r.sharedProvedNow + if row.now.proved then 1 else 0,
            sharedProvedBefore := r.sharedProvedBefore + if was.proved then 1 else 0);
    if row.now.proved != was.proved {
      if row.now.proved {
        r := r.(newlyProved := r.newlyProved + [row]);
      } else {
        r := r.(newlyUnproved := r.newlyUnproved + [row]);
      }
    } else if was.status == row.now.status {
      r := r.(unchangedCount := r.unchangedCount + 1);
    } else {
      r := r.(statusChanged := r.statusChanged + [row]);
    }
  }

  ghost predicate Groups(before: map<string, seq<Mark>>, previous: seq<Goal>) {
    forall id :: Get(before, id) == Marks(previous, id)
  }

  ghost predicate IsDiffOf(diff: Diff, previous: seq<Goal>, current: seq<Goal>) {
    exists before :: Groups(before, previous) && Reports(diff, Join(before, current), previous, current)
  }

  /** The diff of two runs: each current goal takes the nearest remaining goal of its id. */
  method ProofGoalDiff(previous: seq<Goal>, current: seq<Goal>) returns (diff: Diff)
    ensures IsDiffOf(diff, previous, current)
  {
    var before := GroupById(previous);
    ghost var groups := before;
    diff := Diff([], [], [], [], [], 0, 0, 0, 0, false);
    ghost var rows: seq<Pairing> := [];
    for i := 0 to |current|
      invariant Join(groups, current[..i]) == Joined(rows, before)
      invariant Tallies(diff, rows)
    {
      assert current[..i + 1][..i] == current[..i];
      if current[i].id.None? {
        continue;
      }
      var id, now := current[i].id.value, MarkOf(current[i]);
      var earlier := None;
      var candidates := Get(before, id);
      if candidates != [] {
        var position := Nearest(candidates, now);
        earlier := Some(candidates[position]);
        before := before[id := Without(candidates, position)];
      }
      var row := Pairing(id, now, earlier);
      diff := Tally(diff, row, rows);
      rows := rows + [row];
    }
    assert current[..|current|] == current;
    var lost := Leftovers(before);
    diff := diff.(disappeared := lost, comparable := diff.sharedTotal == |previous| && diff.sharedTotal == |current|);
    assert Groups(groups, previous) && Reports(diff, Join(groups, current), previous, current);
  }
}
