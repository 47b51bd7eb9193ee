/**
 * The goal diff told on the two lists of goals themselves: which earlier goal
 * each goal is compared with, and the row each list gets for it.
 */
module GoalMatching {
  import opened Outcomes
  import opened Selection
  import opened GoalDiff
  import opened GoalDiffProperties

  function StatusText(g: Goal): (s: string) {
    match g.status
    case Some(text) => text
    case None => "unknown"
  }

  /** For every current goal, the place of the earlier goal it is compared with. */
  type Matching = seq<Option<nat>>

  ghost predicate Taken(m: Matching, i: nat, p: nat) {
    exists k :: 0 <= k < i && k < |m| && m[k] == Some(p)
  }

  /** Whether progress differs comes first, whether the status differs second. */
  function Farness(earlier: Goal, now: Goal): (n: nat) {
    if earlier.progress != now.progress then (if StatusText(earlier) != StatusText(now) then 3 else 2)
    else if StatusText(earlier) != StatusText(now) then 1
    else 0
  }

  /** An earlier goal with this goal's id that no goal before it took. */
  ghost predicate IsFree(previous: seq<Goal>, current: seq<Goal>, m: Matching, i: nat, p: nat)
    requires i < |current|
  {
    p < |previous| && current[i].id.Some? && previous[p].id == current[i].id && !Taken(m, i, p)
  }

  /** Goal i takes the nearest free one, the first of them, and none only if there is none. */
  ghost predicate IsMatch(previous: seq<Goal>, current: seq<Goal>, m: Matching, i: nat)
    requires i < |current| && i < |m|
  {
    match m[i]
    case None => forall p: nat :: !IsFree(previous, current, m, i, p)
    case Some(q) =>
      && IsFree(previous, current, m, i, q)
      && forall p: nat :: IsFree(previous, current, m, i, p) ==>
           && Farness(previous[q], current[i]) <= Farness(previous[p], current[i])
           && (p < q ==> Farness(previous[q], current[i]) < Farness(previous[p], current[i]))
  }

  ghost predicate IsMatching(previous: seq<Goal>, current: seq<Goal>, m: Matching) {
    |m| == |current| && forall i: nat :: i < |m| ==> IsMatch(previous, current, m, i)
  }

  function Shown(g: Goal): (mark: Mark) {
    Mark(StatusText(g), g.progress)
  }

  /** The row of a goal: its status and progress now, and those of the goal it is compared with. */
  function RowOf(previous: seq<Goal>, goal: Goal, p: Option<nat>): (row: Pairing)
    requires goal.id.Some?
  {
    Pairing(goal.id.value, Shown(goal),
            if p.Some? && p.value < |previous| then Some(Shown(previous[p.value])) else None)
  }

  function RowsOf(previous: seq<Goal>, current: seq<Goal>, m: Matching): (rows: seq<Pairing>)
    requires |m| == |current|
  {
    if current == [] then []
    else
      var n := |current| - 1;
      RowsOf(previous, current[..n], m[..n])
      + if current[n].id.Some? then [RowOf(previous, current[n], m[n])] else []
  }

  // ---- What is left of the earlier goals ------------------------------------------

  ghost function TakenIn(m: Matching): (taken: set<nat>) {
    set k | 0 <= k < |m| && m[k].Some? :: m[k].value
  }

  /** The places of the earlier goals of an id that nobody took, in order. */
  ghost function Untaken(previous: seq<Goal>, taken: set<nat>, id: string): (places: seq<nat>) {
    if previous == [] then []
    else
      var n := |previous| - 1;
      Untaken(previous[..n], taken, id) + if previous[n].id == Some(id) && n !in taken then [n] else []
  }

  predicate Within(places: seq<nat>, n: nat) {
    forall k :: 0 <= k < |places| ==> places[k] < n
  }

  ghost function ShownAt(previous: seq<Goal>, places: seq<nat>): (marks: seq<Mark>)
    requires Within(places, |previous|)
    ensures |marks| == |places| && forall k :: 0 <= k < |places| ==> marks[k] == Shown(previous[places[k]])
  {
    seq(|places|, k requires 0 <= k < |places| => Shown(previous[places[k]]))
  }

  lemma {:induction false} UntakenAre(previous: seq<Goal>, taken: set<nat>, id: string)
    ensures forall p: nat :: p in Untaken(previous, taken, id) <==>
      p < |previous| && previous[p].id == Some(id) && p !in taken
    ensures Within(Untaken(previous, taken, id), |previous|)
    ensures forall i, j :: 0 <= i < j < |Untaken(previous, taken, id)| ==>
      Untaken(previous, taken, id)[i] < Untaken(previous, taken, id)[j]
  {
    if previous != [] {
      UntakenAre(previous[..|previous| - 1], taken, id);
    }
  }

  lemma {:induction false} AllUntaken(previous: seq<Goal>, id: string)
    ensures Within(Untaken(previous, {}, id), |previous|)
    ensures ShownAt(previous, Untaken(previous, {}, id)) == Marks(previous, id)
  {
    if previous != [] {
      hide Shown, MarkOf;
      var n := |previous| - 1;
      AllUntaken(previous[..n], id);
      var front := Untaken(previous[..n], {}, id);
      assert ShownAt(previous, front) == ShownAt(previous[..n], front);
      SameMark(previous[n]);
      if previous[n].id == Some(id) {
        assert Untaken(previous, {}, id) == front + [n];
        assert ShownAt(previous, front + [n]) == ShownAt(previous, front) + [Shown(previous[n])];
      } else {
        assert Untaken(previous, {}, id) == front;
      }
    }
  }

  lemma SameMark(g: Goal)
    ensures MarkOf(g) == Shown(g)
  {
  }

  /** Taking a place outside the ids at hand, or past the end, changes nothing. */
  lemma {:induction false} TakingElsewhere(previous: seq<Goal>, taken: set<nat>, id: string, p: nat)
    requires p >= |previous| || previous[p].id != Some(id)
    ensures Untaken(previous, taken + {p}, id) == Untaken(previous, taken, id)
  {
    if previous != [] {
      TakingElsewhere(previous[..|previous| - 1], taken, id, p);
    }
  }

  lemma {:induction false} TakingOne(previous: seq<Goal>, taken: set<nat>, id: string, k: nat)
    requires k < |Untaken(previous, taken, id)|
    ensures var places := Untaken(previous, taken, id);
      Untaken(previous, taken + {places[k]}, id) == places[..k] + places[k + 1..]
  {
    var n := |previous| - 1;
    var front := Untaken(previous[..n], taken, id);
    var places := Untaken(previous, taken, id);
    if k < |front| {
      UntakenAre(previous[..n], taken, id);
      assert front[k] in front;
      TakingOne(previous[..n], taken, id, k);
      assert places[k] == front[k];
    } else {
      TakingElsewhere(previous[..n], taken, id, n);
      assert places[k] == n;
    }
  }

  // ---- The greedy matching -------------------------------------------------------------

  /** The join so far is the matching so far: its rows, and what it leaves of every id. */
  ghost predicate Follows(previous: seq<Goal>, current: seq<Goal>, m: Matching, j: Joined) {
    && IsMatching(previous, current, m)
    && j.rows == RowsOf(previous, current, m)
    && forall id :: LeavesTheUntaken(previous, m, j.left, id)
  }

  ghost predicate LeavesTheUntaken(previous: seq<Goal>, m: Matching, left: map<string, seq<Mark>>, id: string) {
    var places := Untaken(previous, TakenIn(m), id);
    Within(places, |previous|) && Get(left, id) == ShownAt(previous, places)
  }

  lemma TakenIff(m: Matching, p: nat)
    ensures p in TakenIn(m) <==> Taken(m, |m|, p)
  {
  }

  lemma TakenInMore(m: Matching, q: Option<nat>)
    ensures TakenIn(m + [q]) == TakenIn(m) + if q.Some? then {q.value} else {}
  {
    var more := m + [q];
    assert more[|m|] == q;
    forall p | p in TakenIn(m) ensures p in TakenIn(more) {
      var k :| 0 <= k < |m| && m[k] == Some(p);
      assert more[k] == Some(p);
    }
  }

  /** Adding a goal leaves the earlier matches as they are. */
  lemma MatchesStay(previous: seq<Goal>, current: seq<Goal>, m: Matching, goal: Goal, q: Option<nat>, i: nat)
    requires i < |m| == |current| && IsMatch(previous, current, m, i)
    ensures IsMatch(previous, current + [goal], m + [q], i)
  {
    hide Taken, Farness;
    assert (current + [goal])[i] == current[i] && (m + [q])[i] == m[i];
    forall p: nat ensures IsFree(previous, current + [goal], m + [q], i, p) <==> IsFree(previous, current, m, i, p) {
      TakenBefore(m, q, i, p);
    }
  }

  lemma TakenBefore(m: Matching, q: Option<nat>, i: nat, p: nat)
    requires i <= |m|
    ensures Taken(m + [q], i, p) <==> Taken(m, i, p)
  {
    assert forall k :: 0 <= k < i ==> (m + [q])[k] == m[k];
  }

  lemma NextMatch(previous: seq<Goal>, current: seq<Goal>, m: Matching, goal: Goal, q: Option<nat>)
    requires IsMatching(previous, current, m) && IsMatch(previous, current + [goal], m + [q], |current|)
    ensures IsMatching(previous, current + [goal], m + [q])
    ensures RowsOf(previous, current + [goal], m + [q]) ==
      RowsOf(previous, current, m) + if goal.id.Some? then [RowOf(previous, goal, q)] else []
  {
    hide IsMatch;
    forall i: nat | i < |m| ensures IsMatch(previous, current + [goal], m + [q], i) {
      MatchesStay(previous, current, m, goal, q, i);
    }
    assert (current + [goal])[..|current|] == current && (m + [q])[..|m|] == m;
  }

  /** A place is free for the next goal exactly when it is among the untaken ones of its id. */
  lemma FreeIff(previous: seq<Goal>, current: seq<Goal>, m: Matching, goal: Goal, q: Option<nat>, p: nat)
    requires |m| == |current| && goal.id.Some?
    ensures IsFree(previous, current + [goal], m + [q], |current|, p)
      <==> p in Untaken(previous, TakenIn(m), goal.id.value)
  {
    hide TakenIn, Untaken;
    var id := goal.id.value;
    UntakenAre(previous, TakenIn(m), id);
    TakenIff(m, p);
    assert (current + [goal])[|current|] == goal;
    TakenBefore(m, q, |m|, p);
    assert p < |previous| ==> (previous[p].id == goal.id <==> previous[p].id == Some(id));
  }

  lemma SameDistance(earlier: Goal, now: Goal)
    ensures Distance(MarkOf(earlier), MarkOf(now)) == Farness(earlier, now) && MarkOf(now) == Shown(now)
  {
  }

  /** The nearest of the remaining marks stands in the place the goal takes. */
  lemma NearestIsMatch(previous: seq<Goal>, current: seq<Goal>, m: Matching, goal: Goal)
    requires |m| == |current| && goal.id.Some?
    requires var places := Untaken(previous, TakenIn(m), goal.id.value);
      places != [] && Within(places, |previous|)
    ensures var places := Untaken(previous, TakenIn(m), goal.id.value);
      var k := Nearest(ShownAt(previous, places), MarkOf(goal));
      IsMatch(previous, current + [goal], m + [Some(places[k])], |current|)
  {
    hide Taken, Untaken, Distance, Farness, Shown, MarkOf, TakenIn;
    var places := Untaken(previous, TakenIn(m), goal.id.value);
    var marks := ShownAt(previous, places);
    var k := Nearest(marks, MarkOf(goal));
    var q := places[k];
    FreeIff(previous, current, m, goal, Some(q), q);
    UntakenAre(previous, TakenIn(m), goal.id.value);
    SameDistance(previous[q], goal);
    SameDistance(previous[q], previous[q]);
    forall p: nat | IsFree(previous, current + [goal], m + [Some(q)], |current|, p)
      ensures Farness(previous[q], goal) <= Farness(previous[p], goal)
      ensures p < q ==> Farness(previous[q], goal) < Farness(previous[p], goal)
    {
      FreeIff(previous, current, m, goal, Some(q), p);
      var i :| 0 <= i < |places| && places[i] == p;
      SameDistance(previous[p], goal);
      SameDistance(previous[p], previous[p]);
      assert marks[i] in marks;
      assert p < q ==> i < k;
    }
    assert (current + [goal])[|current|] == goal && (m + [Some(q)])[|current|] == Some(q);
  }

  lemma NoneIsMatch(previous: seq<Goal>, current: seq<Goal>, m: Matching, goal: Goal)
    requires |m| == |current| && (goal.id.Some? ==> Untaken(previous, TakenIn(m), goal.id.value) == [])
    ensures IsMatch(previous, current + [goal], m + [None], |current|)
  {
    hide Taken, Untaken, TakenIn;
    if goal.id.Some? {
      forall p: nat ensures !IsFree(previous, current + [goal], m + [None], |current|, p) {
        FreeIff(previous, current, m, goal, None, p);
      }
    }
  }

  lemma LeftAfterTaking(previous: seq<Goal>, m: Matching, left: map<string, seq<Mark>>, id: string, k: nat,
                        other: string)
    requires LeavesTheUntaken(previous, m, left, id) && LeavesTheUntaken(previous, m, left, other)
    requires k < |Untaken(previous, TakenIn(m), id)| && k < |Get(left, id)|
    ensures var q := Untaken(previous, TakenIn(m), id)[k];
      LeavesTheUntaken(previous, m + [Some(q)], left[id := Without(Get(left, id), k)], other)
  {
    hide TakenIn, Shown, Untaken, Without;
    var places := Untaken(previous, TakenIn(m), id);
    UntakenAre(previous, TakenIn(m), id);
    TakenInMore(m, Some(places[k]));
    assert places[k] in places;
    if other == id {
      TakingOne(previous, TakenIn(m), id, k);
      ShownWithout(previous, places, k);
    } else {
      TakingElsewhere(previous, TakenIn(m), other, places[k]);
    }
  }

  lemma ShownWithout(previous: seq<Goal>, places: seq<nat>, k: nat)
    requires Within(places, |previous|) && k < |places|
    ensures Within(places[..k] + places[k + 1..], |previous|)
    ensures Without(ShownAt(previous, places), k) == ShownAt(previous, places[..k] + places[k + 1..])
  {
    hide Shown;
  }

  lemma LeftAfterNone(previous: seq<Goal>, m: Matching, left: map<string, seq<Mark>>, id: string)
    requires LeavesTheUntaken(previous, m, left, id)
    ensures LeavesTheUntaken(previous, m + [None], left, id)
  {
    TakenInMore(m, None);
    assert TakenIn(m + [None]) == TakenIn(m);
  }

  lemma StartFollows(previous: seq<Goal>, before: map<string, seq<Mark>>)
    requires Groups(before, previous)
    ensures Follows(previous, [], [], Joined([], before))
  {
    assert TakenIn([]) == {};
    forall id ensures LeavesTheUntaken(previous, [], before, id) {
      AllUntaken(previous, id);
    }
  }

  lemma GoalFollows(previous: seq<Goal>, current: seq<Goal>, m: Matching, j: Joined, goal: Goal)
      returns (q: Option<nat>)
    requires Follows(previous, current, m, j)
    ensures Follows(previous, current + [goal], m + [q], JoinGoal(j, goal))
  {
    hide IsMatch, Untaken, TakenIn, Nearest, Without, LeavesTheUntaken, RowsOf;
    if goal.id.None? || Get(j.left, goal.id.value) == [] {
      q := None;
      assert goal.id.Some? ==> Untaken(previous, TakenIn(m), goal.id.value) == [] by {
        if goal.id.Some? { NothingLeft(previous, m, j.left, goal.id.value); }
      }
      NoneIsMatch(previous, current, m, goal);
      NextMatch(previous, current, m, goal, None);
      forall id ensures LeavesTheUntaken(previous, m + [None], j.left, id) {
        LeftAfterNone(previous, m, j.left, id);
      }
      SameDistance(goal, goal);
    } else {
      var id := goal.id.value;
      var places := Untaken(previous, TakenIn(m), id);
      SomethingLeft(previous, m, j.left, id);
      var k := Nearest(Get(j.left, id), MarkOf(goal));
      q := Some(places[k]);
      NearestIsMatch(previous, current, m, goal);
      NextMatch(previous, current, m, goal, q);
      forall other ensures LeavesTheUntaken(previous, m + [q], JoinGoal(j, goal).left, other) {
        LeftAfterTaking(previous, m, j.left, id, k, other);
      }
      SameDistance(goal, goal);
    }
  }

  lemma NothingLeft(previous: seq<Goal>, m: Matching, left: map<string, seq<Mark>>, id: string)
    requires LeavesTheUntaken(previous, m, left, id) && Get(left, id) == []
    ensures Untaken(previous, TakenIn(m), id) == []
  {
  }

  lemma SomethingLeft(previous: seq<Goal>, m: Matching, left: map<string, seq<Mark>>, id: string)
    requires LeavesTheUntaken(previous, m, left, id)
    ensures var places := Untaken(previous, TakenIn(m), id);
      && Within(places, |previous|)
      && Get(left, id) == ShownAt(previous, places)
      && (forall k :: 0 <= k < |places| ==> Get(left, id)[k] == Shown(previous[places[k]]))
  {
  }

  lemma {:induction false} JoinFollows(previous: seq<Goal>, before: map<string, seq<Mark>>, current: seq<Goal>)
      returns (m: Matching)
    requires Groups(before, previous)
    ensures Follows(previous, current, m, Join(before, current))
  {
    if current == [] {
      m := [];
      StartFollows(previous, before);
    } else {
      hide Follows, JoinGoal;
      var n := |current| - 1;
      m := JoinFollows(previous, before, current[..n]);
      var q := GoalFollows(previous, current[..n], m, Join(before, current[..n]), current[n]);
      m := m + [q];
      assert current[..n] + [current[n]] == current;
    }
  }

  // ---- The report ------------------------------------------------------------------------

  predicate IsGain(row: Pairing) {
    row.earlier.Some? && row.now.proved && !row.earlier.value.proved
  }

  predicate IsLoss(row: Pairing) {
    row.earlier.Some? && !row.now.proved && row.earlier.value.proved
  }

  predicate IsSame(row: Pairing) {
    row.earlier == Some(row.now)
  }

  /** As proved or unproved as before, under another status. */
  predicate IsOtherStatus(row: Pairing) {
    row.earlier.Some? && row.now.proved == row.earlier.value.proved && row.now.status != row.earlier.value.status
  }

  predicate IsNew(row: Pairing) {
    row.earlier.None?
  }

  predicate IsShared(row: Pairing) {
    row.earlier.Some?
  }

  predicate IsProvedNow(row: Pairing) {
    row.earlier.Some? && row.now.proved
  }

  predicate WasProved(row: Pairing) {
    row.earlier.Some? && row.earlier.value.proved
  }

  /** Every list holds exactly the rows it is for, in the order of the current goals, and the counters count them. */
  ghost predicate ListsTheRows(diff: Diff, rows: seq<Pairing>) {
    && diff.newlyProved == Select(rows, IsGain)
    && diff.newlyUnproved == Select(rows, IsLoss)
    && diff.statusChanged == Select(rows, IsOtherStatus)
    && diff.appeared == Select(rows, IsNew)
    && diff.unchangedCount == |Select(rows, IsSame)|
    && diff.sharedTotal == |Select(rows, IsShared)|
    && diff.sharedProvedNow == |Select(rows, IsProvedNow)|
    && diff.sharedProvedBefore == |Select(rows, WasProved)|
  }

  /** What disappeared of an id are its earlier goals that nobody took, in order. */
  ghost predicate ListsTheRest(diff: Diff, previous: seq<Goal>, m: Matching, id: string) {
    var places := Untaken(previous, TakenIn(m), id);
    Within(places, |previous|) && LostOf(diff.disappeared, id) == ShownAt(previous, places)
  }

  lemma {:induction false} KindsAreSelections(rows: seq<Pairing>)
    ensures OfKind(rows, NewlyProved) == Select(rows, IsGain)
    ensures OfKind(rows, NewlyUnproved) == Select(rows, IsLoss)
    ensures OfKind(rows, StatusChanged) == Select(rows, IsOtherStatus)
    ensures OfKind(rows, Appeared) == Select(rows, IsNew)
    ensures OfKind(rows, Unchanged) == Select(rows, IsSame)
  {
    if rows != [] {
      var n := |rows| - 1;
      var front, last := rows[..n], rows[n];
      assert rows == front + [last];
      KindsAreSelections(front);
      SelectLast(front, last, IsGain);
      SelectLast(front, last, IsLoss);
      SelectLast(front, last, IsOtherStatus);
      SelectLast(front, last, IsNew);
      SelectLast(front, last, IsSame);
    }
  }

  lemma SelectLast(rows: seq<Pairing>, row: Pairing, keep: Pairing -> bool)
    ensures Select(rows + [row], keep) == Select(rows, keep) + if keep(row) then [row] else []
  {
    SelectJoin(rows, [row], keep);
    assert [row][1..] == [];
  }

  lemma {:induction false} CountersCount(rows: seq<Pairing>)
    ensures NowProved(rows) == |Select(rows, IsProvedNow)| && BeforeProved(rows) == |Select(rows, WasProved)|
    ensures |Select(rows, IsShared)| + |Select(rows, IsNew)| == |rows|
  {
    if rows != [] {
      var n := |rows| - 1;
      var front, last := rows[..n], rows[n];
      assert rows == front + [last];
      CountersCount(front);
      SelectLast(front, last, IsProvedNow);
      SelectLast(front, last, WasProved);
      SelectLast(front, last, IsShared);
      SelectLast(front, last, IsNew);
    }
  }

  /**
   * Goal by goal: each takes the nearest earlier goal of its id that is still
   * free, and its status and progress beside those of that goal decide the
   * list it is in; the earlier goals nobody took have disappeared.
   */
  lemma DiffIsOfTheGoals(diff: Diff, previous: seq<Goal>, current: seq<Goal>) returns (m: Matching)
    requires IsDiffOf(diff, previous, current)
    ensures IsMatching(previous, current, m)
    ensures ListsTheRows(diff, RowsOf(previous, current, m))
    ensures forall id :: ListsTheRest(diff, previous, m, id)
  {
    hide IsMatching, RowsOf, Select, OfKind, Untaken, TakenIn;
    var before :| Groups(before, previous) && Reports(diff, Join(before, current), previous, current);
    m := JoinFollows(previous, before, current);
    var rows := Join(before, current).rows;
    KindsAreSelections(rows);
    CountersCount(rows);
    forall id ensures ListsTheRest(diff, previous, m, id) {
      assert LeavesTheUntaken(previous, m, Join(before, current).left, id);
    }
  }

  // ---- Counting on the goals ----------------------------------------------------------------

  /** How many goals of this id count as proved. */
  function ProvedGoals(goals: seq<Goal>, id: string): (n: nat) {
    if goals == [] then 0
    else (if goals[0].id == Some(id) && goals[0].progress then 1 else 0) + ProvedGoals(goals[1..], id)
  }

  function GoalsOf(goals: seq<Goal>, id: string): (n: nat) {
    if goals == [] then 0 else (if goals[0].id == Some(id) then 1 else 0) + GoalsOf(goals[1..], id)
  }

  lemma {:induction false} CountsAre(goals: seq<Goal>, id: string)
    ensures Proved(Marks(goals, id)) == ProvedGoals(goals, id) && |Marks(goals, id)| == GoalsOf(goals, id)
  {
    if goals != [] {
      var first, rest := [goals[0]], goals[1..];
      assert goals == first + rest;
      MarksAppend(first, rest, id);
      ProvedAppend(Marks(first, id), Marks(rest, id));
      CountsAre(rest, id);
      assert first[..0] == [];
      assert Marks(first, id) == if goals[0].id == Some(id) then [MarkOf(goals[0])] else [];
    }
  }

  /**
   * When an id occurs equally often in both runs, the goals of it reported as
   * newly proved are exactly as many as the proved ones have become more, and
   * then none is newly unproved; and the other way round.
   */
  lemma TransitionsAreOfTheGoals(diff: Diff, previous: seq<Goal>, current: seq<Goal>, id: string)
    requires IsDiffOf(diff, previous, current) && GoalsOf(previous, id) == GoalsOf(current, id)
    ensures var b, n := ProvedGoals(previous, id), ProvedGoals(current, id);
      && |OfId(diff.newlyProved, id)| == (if n > b then n - b else 0)
      && |OfId(diff.newlyUnproved, id)| == (if b > n then b - n else 0)
  {
    hide IsDiffOf;
    CountsAre(previous, id);
    CountsAre(current, id);
    TransitionsPerId(diff, previous, current, id);
  }
}
