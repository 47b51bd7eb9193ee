/** What the goal diff promises, id by id and in total. */
module GoalDiffProperties {
  import opened Outcomes
  import opened GoalDiff

  function OfId(rows: seq<Pairing>, id: string): (r: seq<Pairing>) {
    if rows == [] then []
    else OfId(rows[..|rows| - 1], id) + if rows[|rows| - 1].id == id then [rows[|rows| - 1]] else []
  }

  function Earlier(rows: seq<Pairing>, id: string): (r: seq<Option<Mark>>) {
    if rows == [] then []
    else Earlier(rows[..|rows| - 1], id) + if rows[|rows| - 1].id == id then [rows[|rows| - 1].earlier] else []
  }

  // ---- The join is the pairing of every id ---------------------------------------

  /** The last goal of an id meets the nearest of what its predecessors left. */
  lemma {:induction false} PairOneMore(before: seq<Mark>, now: seq<Mark>, m: Mark)
    ensures var (earlier, left) := Pair(before, now);
      var (last, left') := Meet(left, m);
      Pair(before, now + [m]) == (earlier + [last], left')
    decreases now
  {
    hide Meet;
    if now == [] {
      var (first, next) := Meet(before, m);
      assert now + [m] == [m] && [m][1..] == [];
      assert Pair(next, [m][1..]) == ([], next);
      assert [first] + [] == [] + [first];
    } else {
      assert (now + [m])[1..] == now[1..] + [m];
      var (first, next) := Meet(before, now[0]);
      var (earlier, left) := Pair(next, now[1..]);
      PairOneMore(next, now[1..], m);
      assert [first] + (earlier + [Meet(left, m).0]) == ([first] + earlier) + [Meet(left, m).0];
    }
  }

  lemma EarlierAppend(rows: seq<Pairing>, row: Pairing, id: string)
    ensures Earlier(rows + [row], id) == Earlier(rows, id) + if row.id == id then [row.earlier] else []
    ensures NowOf(rows + [row], id) == NowOf(rows, id) + if row.id == id then [row.now] else []
  {
    assert (rows + [row])[..|rows|] == rows;
  }

  lemma PairNothing(before: seq<Mark>)
    ensures Pair(before, []) == ([], before)
  {
  }

  lemma {:induction false} JoinProjects(before: map<string, seq<Mark>>, current: seq<Goal>, id: string)
    ensures var j := Join(before, current);
      (Earlier(j.rows, id), Get(j.left, id)) == Pair(Get(before, id), Marks(current, id))
  {
    hide Pair, Meet;
    if current == [] {
      assert Pair(Get(before, id), []) == ([], Get(before, id)) by { PairNothing(Get(before, id)); }
    } else {
      var goal := current[|current| - 1];
      var front := current[..|current| - 1];
      var j, j' := Join(before, front), Join(before, current);
      JoinProjects(before, front, id);
      if goal.id.Some? {
        var row := j'.rows[|j'.rows| - 1];
        assert j'.rows == j.rows + [row] && row.id == goal.id.value;
        EarlierAppend(j.rows, row, id);
        if goal.id.value == id {
          PairOneMore(Get(before, id), Marks(front, id), MarkOf(goal));
          assert Marks(current, id) == Marks(front, id) + [MarkOf(goal)];
        } else {
          assert Marks(current, id) == Marks(front, id) && Earlier(j'.rows, id) == Earlier(j.rows, id);
        }
      } else {
        assert Marks(current, id) == Marks(front, id);
      }
    }
  }

  lemma {:induction false} NowMarks(before: map<string, seq<Mark>>, current: seq<Goal>, id: string)
    ensures forall i :: 0 <= i < |OfId(Join(before, current).rows, id)| ==>
      OfId(Join(before, current).rows, id)[i].id == id
    ensures NowOf(Join(before, current).rows, id) == Marks(current, id)
  {
    OfIdHasId(Join(before, current).rows, id);
    if current != [] {
      NowMarks(before, current[..|current| - 1], id);
      var j, j' := Join(before, current[..|current| - 1]), Join(before, current);
      if current[|current| - 1].id.Some? {
        assert j'.rows[..|j'.rows| - 1] == j.rows;
      }
    }
  }

  lemma {:induction false} OfIdHasId(rows: seq<Pairing>, id: string)
    ensures forall i :: 0 <= i < |OfId(rows, id)| ==> OfId(rows, id)[i].id == id
  {
    if rows != [] {
      OfIdHasId(rows[..|rows| - 1], id);
    }
  }

  function NowOf(rows: seq<Pairing>, id: string): (r: seq<Mark>)
    ensures |r| == |Earlier(rows, id)|
  {
    if rows == [] then []
    else NowOf(rows[..|rows| - 1], id) + if rows[|rows| - 1].id == id then [rows[|rows| - 1].now] else []
  }

  // ---- Counting rows of one id by kind ---------------------------------------------

  lemma {:induction false} MovesOneMore(earlier: seq<Option<Mark>>, now: seq<Mark>, e: Option<Mark>, m: Mark,
                                        toProved: bool)
    requires |earlier| == |now|
    ensures Moves(earlier + [e], now + [m], toProved) == Moves(earlier, now, toProved)
      + if e.Some? && e.value.proved != m.proved && m.proved == toProved then 1 else 0
    ensures Met(earlier + [e]) == Met(earlier) + if e.Some? then 1 else 0
  {
    if now == [] {
      assert earlier + [e] == [e] && now + [m] == [m];
    } else {
      assert (earlier + [e])[1..] == earlier[1..] + [e] && (now + [m])[1..] == now[1..] + [m];
      MovesOneMore(earlier[1..], now[1..], e, m, toProved);
    }
  }

  lemma OfIdAppend(rows: seq<Pairing>, row: Pairing, id: string)
    ensures OfId(rows + [row], id) == OfId(rows, id) + if row.id == id then [row] else []
  {
    assert (rows + [row])[..|rows|] == rows;
  }

  lemma OfKindLast(rows: seq<Pairing>, kind: Kind, id: string)
    requires rows != []
    ensures var front, row := rows[..|rows| - 1], rows[|rows| - 1];
      |OfId(OfKind(rows, kind), id)| ==
        |OfId(OfKind(front, kind), id)| + if KindOf(row) == kind && row.id == id then 1 else 0
  {
    var front, row := rows[..|rows| - 1], rows[|rows| - 1];
    if KindOf(row) == kind {
      OfIdAppend(OfKind(front, kind), row, id);
    } else {
      assert OfKind(rows, kind) == OfKind(front, kind);
    }
  }

  lemma {:induction false} MovesPerId(rows: seq<Pairing>, id: string, toProved: bool)
    ensures |OfId(OfKind(rows, if toProved then NewlyProved else NewlyUnproved), id)|
      == Moves(Earlier(rows, id), NowOf(rows, id), toProved)
  {
    if rows != [] {
      var front, row := rows[..|rows| - 1], rows[|rows| - 1];
      MovesPerId(front, id, toProved);
      OfKindLast(rows, if toProved then NewlyProved else NewlyUnproved, id);
      if row.id == id {
        MovesOneMore(Earlier(front, id), NowOf(front, id), row.earlier, row.now, toProved);
      } else {
        assert Earlier(rows, id) == Earlier(front, id) && NowOf(rows, id) == NowOf(front, id);
      }
    }
  }

  lemma {:induction false} AppearedPerId(rows: seq<Pairing>, id: string)
    ensures |OfId(OfKind(rows, Appeared), id)| + Met(Earlier(rows, id)) == |Earlier(rows, id)|
  {
    if rows != [] {
      var front, row := rows[..|rows| - 1], rows[|rows| - 1];
      AppearedPerId(front, id);
      OfKindLast(rows, Appeared, id);
      if row.id == id {
        MovesOneMore(Earlier(front, id), NowOf(front, id), row.earlier, row.now, true);
      } else {
        assert Earlier(rows, id) == Earlier(front, id);
      }
    }
  }

  // ---- The promises -----------------------------------------------------------------

  /** Of each id exactly the smaller number of occurrences pairs up; the rest appeared or disappeared. */
  lemma PairedPerId(diff: Diff, previous: seq<Goal>, current: seq<Goal>, id: string)
    requires IsDiffOf(diff, previous, current)
    ensures var b, n := |Marks(previous, id)|, |Marks(current, id)|;
      && |OfId(diff.appeared, id)| == (if n > b then n - b else 0)
      && |LostOf(diff.disappeared, id)| == (if b > n then b - n else 0)
  {
    var before :| Groups(before, previous) && Reports(diff, Join(before, current), previous, current);
    JoinProjects(before, current, id);
    NowMarks(before, current, id);
    AppearedPerId(Join(before, current).rows, id);
    PairsTheSmallerCount(Marks(previous, id), Marks(current, id));
  }

  /** With equal occurrences, the proved counts explain every transition of the id, and all go one way. */
  lemma TransitionsPerId(diff: Diff, previous: seq<Goal>, current: seq<Goal>, id: string)
    requires IsDiffOf(diff, previous, current) && |Marks(previous, id)| == |Marks(current, id)|
    ensures var b, n := Proved(Marks(previous, id)), Proved(Marks(current, id));
      && |OfId(diff.newlyProved, id)| == (if n > b then n - b else 0)
      && |OfId(diff.newlyUnproved, id)| == (if b > n then b - n else 0)
  {
    var before :| Groups(before, previous) && Reports(diff, Join(before, current), previous, current);
    JoinProjects(before, current, id);
    NowMarks(before, current, id);
    MovesPerId(Join(before, current).rows, id, true);
    MovesPerId(Join(before, current).rows, id, false);
    TransitionsAreTheDifference(Marks(previous, id), Marks(current, id));
  }

  lemma {:induction false} MarksAppend(a: seq<Goal>, b: seq<Goal>, id: string)
    ensures Marks(a + b, id) == Marks(a, id) + Marks(b, id)
  {
    if b == [] {
      assert a + b == a;
    } else {
      assert (a + b)[..|a + b| - 1] == a + b[..|b| - 1];
      MarksAppend(a, b[..|b| - 1], id);
    }
  }

  lemma {:induction false} SameGoalsSameMarks(a: seq<Goal>, b: seq<Goal>, id: string)
    requires multiset(a) == multiset(b)
    ensures multiset(Marks(a, id)) == multiset(Marks(b, id))
  {
    assert |multiset(a)| == |a| && |multiset(b)| == |b|;
    if a != [] {
      var last := a[|a| - 1];
      assert a == a[..|a| - 1] + [last];
      assert last in multiset(b);
      var k :| 0 <= k < |b| && b[k] == last;
      var rest := b[..k] + b[k + 1..];
      assert b == b[..k] + ([last] + b[k + 1..]);
      assert multiset(rest) == multiset(b) - multiset{last};
      assert multiset(a[..|a| - 1]) == multiset(a) - multiset{last};
      SameGoalsSameMarks(a[..|a| - 1], rest, id);
      MarksAppend(b[..k], [last] + b[k + 1..], id);
      MarksAppend([last], b[k + 1..], id);
      MarksAppend(b[..k], b[k + 1..], id);
      MarksAppend(a[..|a| - 1], [last], id);
    }
  }

  lemma {:induction false} EqualPairsAreUnchanged(rows: seq<Pairing>)
    requires forall id :: Earlier(rows, id) == Each(NowOf(rows, id))
    ensures forall p :: p in rows ==> p.earlier == Some(p.now)
  {
    forall i | 0 <= i < |rows| ensures rows[i].earlier == Some(rows[i].now) {
      var k := PlaceInId(rows, i);
      assert Earlier(rows, rows[i].id)[k] == Each(NowOf(rows, rows[i].id))[k];
    }
  }

  lemma {:induction false} PlaceInId(rows: seq<Pairing>, i: nat) returns (k: nat)
    requires i < |rows|
    ensures k < |Earlier(rows, rows[i].id)|
    ensures Earlier(rows, rows[i].id)[k] == rows[i].earlier && NowOf(rows, rows[i].id)[k] == rows[i].now
  {
    var id := rows[i].id;
    if i == |rows| - 1 {
      k := |Earlier(rows[..|rows| - 1], id)|;
    } else {
      k := PlaceInId(rows[..|rows| - 1], i);
    }
  }

  lemma {:induction false} NoneOfKind(rows: seq<Pairing>, kind: Kind)
    requires forall p :: p in rows ==> KindOf(p) != kind
    ensures OfKind(rows, kind) == []
  {
    if rows != [] {
      assert forall p :: p in rows[..|rows| - 1] ==> p in rows;
      NoneOfKind(rows[..|rows| - 1], kind);
    }
  }

  /** The same goals in another order: no transition, no status change, nothing new, nothing gone. */
  lemma ReorderedRunsAgree(diff: Diff, previous: seq<Goal>, current: seq<Goal>)
    requires IsDiffOf(diff, previous, current) && multiset(previous) == multiset(current)
    ensures diff.newlyProved == [] && diff.newlyUnproved == [] && diff.statusChanged == [] && diff.appeared == []
    ensures forall id :: LostOf(diff.disappeared, id) == []
  {
    var before :| Groups(before, previous) && Reports(diff, Join(before, current), previous, current);
    var j := Join(before, current);
    forall id ensures Earlier(j.rows, id) == Each(NowOf(j.rows, id)) && Get(j.left, id) == [] {
      JoinProjects(before, current, id);
      NowMarks(before, current, id);
      SameGoalsSameMarks(previous, current, id);
      ReorderingIsInvisible(Marks(previous, id), Marks(current, id));
    }
    EqualPairsAreUnchanged(j.rows);
    NoneOfKind(j.rows, NewlyProved);
    NoneOfKind(j.rows, NewlyUnproved);
    NoneOfKind(j.rows, StatusChanged);
    NoneOfKind(j.rows, Appeared);
  }

  lemma {:induction false} KindsAddUp(rows: seq<Pairing>)
    ensures |OfKind(rows, Appeared)| + |OfKind(rows, NewlyProved)| + |OfKind(rows, NewlyUnproved)|
      + |OfKind(rows, Unchanged)| + |OfKind(rows, StatusChanged)| == |rows|
    ensures NowProved(rows) - BeforeProved(rows) == |OfKind(rows, NewlyProved)| - |OfKind(rows, NewlyUnproved)|
  {
    if rows != [] {
      KindsAddUp(rows[..|rows| - 1]);
    }
  }

  /** Every shared goal is in exactly one list, and the change of the proved fraction is the net of the transitions. */
  lemma TransitionsExplainProgress(diff: Diff, previous: seq<Goal>, current: seq<Goal>)
    requires IsDiffOf(diff, previous, current)
    ensures diff.sharedTotal == |diff.newlyProved| + |diff.newlyUnproved| + diff.unchangedCount + |diff.statusChanged|
    ensures diff.sharedProvedNow - diff.sharedProvedBefore == |diff.newlyProved| - |diff.newlyUnproved|
  {
    var before :| Groups(before, previous) && Reports(diff, Join(before, current), previous, current);
    KindsAddUp(Join(before, current).rows);
  }

  function Ids(goals: seq<Goal>): (r: seq<string>)
    ensures |r| <= |goals|
    ensures |r| == |goals| <==> forall g :: g in goals ==> g.id.Some?
  {
    if goals == [] then []
    else
      assert goals == goals[..|goals| - 1] + [goals[|goals| - 1]];
      Ids(goals[..|goals| - 1]) + if goals[|goals| - 1].id.Some? then [goals[|goals| - 1].id.value] else []
  }

  lemma {:induction false} IdCount(goals: seq<Goal>, id: string)
    ensures multiset(Ids(goals))[id] == |Marks(goals, id)|
  {
    if goals != [] {
      IdCount(goals[..|goals| - 1], id);
    }
  }

  lemma {:induction false} RowCount(before: map<string, seq<Mark>>, current: seq<Goal>)
    ensures |Join(before, current).rows| == |Ids(current)|
  {
    if current != [] {
      RowCount(before, current[..|current| - 1]);
    }
  }

  lemma NoIdNoRows(rows: seq<Pairing>)
    ensures rows == [] || OfId(rows, rows[|rows| - 1].id) != []
  {
  }

  /** Occurrences of every id in both runs, and what the diff adds to the picture. */
  lemma Occurrences(diff: Diff, previous: seq<Goal>, current: seq<Goal>)
    requires IsDiffOf(diff, previous, current)
    ensures diff.sharedTotal + |diff.appeared| == |Ids(current)|
    ensures diff.comparable <==> diff.sharedTotal == |previous| && diff.sharedTotal == |current|
    ensures forall id ::
      multiset(Ids(previous))[id] == |Marks(previous, id)| && multiset(Ids(current))[id] == |Marks(current, id)|
  {
    var before :| Groups(before, previous) && Reports(diff, Join(before, current), previous, current);
    RowCount(before, current);
    forall id
      ensures multiset(Ids(previous))[id] == |Marks(previous, id)| && multiset(Ids(current))[id] == |Marks(current, id)|
    {
      IdCount(previous, id);
      IdCount(current, id);
    }
  }

  /** Every goal can be told apart by id and every id occurs as often before as now. */
  ghost predicate SameOccurrences(previous: seq<Goal>, current: seq<Goal>) {
    && (forall g :: g in previous ==> g.id.Some?) && (forall g :: g in current ==> g.id.Some?)
    && (forall id :: |Marks(previous, id)| == |Marks(current, id)|)
  }

  lemma ComparableMeansSame(diff: Diff, previous: seq<Goal>, current: seq<Goal>)
    requires IsDiffOf(diff, previous, current) && diff.comparable
    ensures SameOccurrences(previous, current)
  {
    Occurrences(diff, previous, current);
    var p, c := multiset(Ids(previous)), multiset(Ids(current));
    assert |p| == |Ids(previous)| && |c| == |Ids(current)|;
    assert diff.appeared == [];
    forall id ensures c[id] <= p[id] {
      PairedPerId(diff, previous, current, id);
    }
    assert c <= p && |p - c| == 0;
    forall id ensures p[id] == c[id] {
      assert id !in p - c;
    }
  }

  lemma SameMeansComparable(diff: Diff, previous: seq<Goal>, current: seq<Goal>)
    requires IsDiffOf(diff, previous, current) && SameOccurrences(previous, current)
    ensures diff.comparable
  {
    Occurrences(diff, previous, current);
    var p, c := multiset(Ids(previous)), multiset(Ids(current));
    assert p == c;
    assert |p| == |Ids(previous)| && |c| == |Ids(current)|;
    NoIdNoRows(diff.appeared);
    if diff.appeared != [] {
      PairedPerId(diff, previous, current, diff.appeared[|diff.appeared| - 1].id);
    }
  }

  /** The fractions compare the same goals exactly when every goal has an id and each id occurs equally often. */
  lemma ComparableIff(diff: Diff, previous: seq<Goal>, current: seq<Goal>)
    requires IsDiffOf(diff, previous, current)
    ensures diff.comparable <==> SameOccurrences(previous, current)
  {
    if diff.comparable {
      ComparableMeansSame(diff, previous, current);
    } else if SameOccurrences(previous, current) {
      SameMeansComparable(diff, previous, current);
    }
  }
}
