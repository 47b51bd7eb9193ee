/** Coverage rows, and how an unproved callee uncovers everything that rests on it. */
module Coverage {
  import opened FiniteSets
  import opened Outcomes
  import opened Selection

  /** A row is covered when it carries no reason against it. */
  datatype Row = Row(name: string, status: string, reason: Option<string>, blockingCallees: seq<string>,
                 callees: seq<string>)

  const UNVERIFIED_CALLEE := "unverified_callee"

  /** Row i is uncovered after n rounds: at first for its own reason, later for a callee's. */
  ghost predicate UncoveredWithin(rows: seq<Row>, i: nat, n: nat)
    requires i < |rows|
    decreases n, 0
  {
    if n == 0 then rows[i].reason.Some?
    else UncoveredWithin(rows, i, n - 1) || exists c :: c in rows[i].callees && NameUncovered(rows, c, n - 1)
  }

  ghost predicate NameUncovered(rows: seq<Row>, name: string, n: nat)
    decreases n, 1
  {
    exists j: nat :: j < |rows| && rows[j].name == name && UncoveredWithin(rows, j, n)
  }

  /** From row to row through callees in scope. */
  ghost predicate IsCalleeChain(rows: seq<Row>, p: seq<nat>) {
    && (forall k :: 0 <= k < |p| ==> p[k] < |rows|)
    && (forall k :: 0 <= k < |p| - 1 ==> rows[p[k + 1]].name in rows[p[k]].callees)
  }

  /** Some chain of callees leads from row i to a row uncovered for its own reason. */
  ghost predicate RestsOnUncovered(rows: seq<Row>, i: nat) {
    exists p :: |p| > 0 && p[0] == i && IsCalleeChain(rows, p) && rows[p[|p| - 1]].reason.Some?
  }

  lemma {:induction false} WithinIsChain(rows: seq<Row>, i: nat, n: nat)
    requires i < |rows| && UncoveredWithin(rows, i, n)
    ensures RestsOnUncovered(rows, i)
    decreases n
  {
    if n == 0 {
      assert IsCalleeChain(rows, [i]);
    } else if UncoveredWithin(rows, i, n - 1) {
      WithinIsChain(rows, i, n - 1);
    } else {
      var c :| c in rows[i].callees && NameUncovered(rows, c, n - 1);
      var j: nat :| j < |rows| && rows[j].name == c && UncoveredWithin(rows, j, n - 1);
      WithinIsChain(rows, j, n - 1);
      var p :| |p| > 0 && p[0] == j && IsCalleeChain(rows, p) && rows[p[|p| - 1]].reason.Some?;
      assert IsCalleeChain(rows, [i] + p);
    }
  }

  /** Once a round adds nothing, everything resting on an uncovered row has been found. */
  lemma {:induction false} ChainIsWithin(rows: seq<Row>, p: seq<nat>, n: nat)
    requires |p| > 0 && IsCalleeChain(rows, p) && rows[p[|p| - 1]].reason.Some?
    requires forall i: nat :: i < |rows| ==> (UncoveredWithin(rows, i, n) <==> UncoveredWithin(rows, i, n + 1))
    ensures UncoveredWithin(rows, p[0], n)
    decreases |p|
  {
    if |p| == 1 {
      StaysUncovered(rows, p[0], n);
    } else {
      var tail := p[1..];
      forall k | 0 <= k < |tail| - 1 ensures rows[tail[k + 1]].name in rows[tail[k]].callees {
        assert rows[p[(k + 1) + 1]].name in rows[p[k + 1]].callees;
      }
      ChainIsWithin(rows, tail, n);
      assert rows[p[0 + 1]].name in rows[p[0]].callees;
      assert NameUncovered(rows, rows[p[1]].name, n);
      assert UncoveredWithin(rows, p[0], n + 1);
    }
  }

  lemma {:induction false} StaysUncovered(rows: seq<Row>, i: nat, n: nat)
    requires i < |rows| && UncoveredWithin(rows, i, 0)
    ensures UncoveredWithin(rows, i, n)
    decreases n
  {
    if n > 0 {
      StaysUncovered(rows, i, n - 1);
    }
  }

  function Selected(callees: seq<string>, names: set<string>): (r: seq<string>)
    ensures forall c :: c in r <==> c in callees && c in names
  {
    if callees == [] then [] else (if callees[0] in names then [callees[0]] else []) + Selected(callees[1..], names)
  }

  ghost function UncoveredNames(rows: seq<Row>, n: nat): set<string> {
    set j: nat | j < |rows| && UncoveredWithin(rows, j, n) :: rows[j].name
  }

  /** now is the table after n rounds. */
  ghost predicate AfterRounds(rows: seq<Row>, n: nat, now: seq<Row>) {
    |now| == |rows| && forall i: nat :: i < |rows| ==> RowAfter(rows, i, n, now[i])
  }

  /**
   * A row found in round k lists the callees that were uncovered before that
   * round: its shortest ways to an unproved function.
   */
  ghost predicate RowAfter(rows: seq<Row>, i: nat, n: nat, now: Row)
    requires i < |rows|
  {
    if rows[i].reason.Some? || !UncoveredWithin(rows, i, n) then now == rows[i]
    else exists k: nat :: FoundInRound(rows, i, k, now) && k <= n
  }

  ghost predicate FoundInRound(rows: seq<Row>, i: nat, k: nat, now: Row)
    requires i < |rows|
  {
    && k > 0 && UncoveredWithin(rows, i, k) && !UncoveredWithin(rows, i, k - 1)
    && now == rows[i].(reason := Some(UNVERIFIED_CALLEE),
                    blockingCallees := Selected(rows[i].callees, UncoveredNames(rows, k - 1)))
  }

  /** One round: the rows still covered that call an uncovered name, with those callees. */
  method NewlyBlocked(rows: array<Row>, uncovered: set<string>) returns (newly: seq<(nat, seq<string>)>)
    ensures forall e :: e in newly ==>
      e.0 < rows.Length && rows[e.0].reason.None? && e.1 == Selected(rows[e.0].callees, uncovered) && e.1 != []
    ensures forall i :: 0 <= i < rows.Length && rows[i].reason.None? && Selected(rows[i].callees, uncovered) != [] ==>
      (i, Selected(rows[i].callees, uncovered)) in newly
  {
    newly := [];
    for i := 0 to rows.Length
      invariant forall e :: e in newly ==>
        e.0 < i && rows[e.0].reason.None? && e.1 == Selected(rows[e.0].callees, uncovered) && e.1 != []
      invariant forall k :: 0 <= k < i && rows[k].reason.None? && Selected(rows[k].callees, uncovered) != [] ==>
        (k, Selected(rows[k].callees, uncovered)) in newly
    {
      if rows[i].reason.None? {
        var blocking := Selected(rows[i].callees, uncovered);
        if blocking != [] {
          newly := newly + [(i, blocking)];
        }
      }
    }
  }

  function Marked(row: Row, uncovered: set<string>): Row {
    var blocking := Selected(row.callees, uncovered);
    if row.reason.None? && blocking != []
      then row.(reason := Some(UNVERIFIED_CALLEE), blockingCallees := blocking)
      else row
  }

  method MarkBlocked(rows: array<Row>, newly: seq<(nat, seq<string>)>, uncovered: set<string>)
    returns (grown: set<string>)
    requires forall e :: e in newly ==>
      e.0 < rows.Length && rows[e.0].reason.None? && e.1 == Selected(rows[e.0].callees, uncovered) && e.1 != []
    requires forall i :: 0 <= i < rows.Length && rows[i].reason.None? && Selected(rows[i].callees, uncovered) != [] ==>
      (i, Selected(rows[i].callees, uncovered)) in newly
    modifies rows
    ensures forall i :: 0 <= i < rows.Length ==> rows[i] == Marked(old(rows[i]), uncovered)
    ensures forall n :: n in grown <==>
      n in uncovered || exists i :: 0 <= i < rows.Length && rows[i] != old(rows[i]) && rows[i].name == n
  {
    grown := uncovered;
    for k := 0 to |newly|
      invariant forall i :: 0 <= i < rows.Length ==>
        rows[i] == old(rows[i]) || rows[i] == Marked(old(rows[i]), uncovered)
      invariant forall e :: e in newly[..k] ==> rows[e.0] == Marked(old(rows[e.0]), uncovered)
      invariant uncovered <= grown
      invariant forall i :: 0 <= i < rows.Length && rows[i] != old(rows[i]) ==> rows[i].name in grown
      invariant forall n :: n in grown ==>
        n in uncovered || exists i :: 0 <= i < rows.Length && rows[i] != old(rows[i]) && rows[i].name == n
    {
      var e := newly[k];
      assert e in newly;
      grown := grown + {rows[e.0].name};
      rows[e.0] := rows[e.0].(reason := Some(UNVERIFIED_CALLEE), blockingCallees := e.1);
      assert newly[..k + 1] == newly[..k] + [e];
    }
    assert newly[..|newly|] == newly;
    forall i | 0 <= i < rows.Length ensures rows[i] == Marked(old(rows[i]), uncovered) {
      if old(rows[i]).reason.None? && Selected(old(rows[i]).callees, uncovered) != [] {
        assert (i, Selected(old(rows[i]).callees, uncovered)).0 == i;
      }
    }
  }

  ghost function StillCovered(rows: seq<Row>): set<nat> {
    set i: nat | i < |rows| && rows[i].reason.None?
  }

  lemma RoundStep(rows: seq<Row>, n: nat, now: seq<Row>, next: seq<Row>)
    requires AfterRounds(rows, n, now) && |next| == |rows|
    requires forall i :: 0 <= i < |rows| ==> next[i] == Marked(now[i], UncoveredNames(rows, n))
    ensures AfterRounds(rows, n + 1, next)
  {
    forall i: nat | i < |rows| ensures RowAfter(rows, i, n + 1, next[i]) {
      assert RowAfter(rows, i, n, now[i]);
      SelectedIffBlocked(rows, i, n);
      if UncoveredWithin(rows, i, n) {
        NextRoundKeeps(rows, i, n);
      } else if UncoveredWithin(rows, i, n + 1) && rows[i].reason.None? {
        assert FoundInRound(rows, i, n + 1, next[i]);
      } else {
        if rows[i].reason.Some? { StaysUncovered(rows, i, n); }
      }
    }
  }

  lemma NextRoundKeeps(rows: seq<Row>, i: nat, n: nat)
    requires i < |rows| && UncoveredWithin(rows, i, n)
    ensures UncoveredWithin(rows, i, n + 1)
  {
  }

  lemma SelectedIffBlocked(rows: seq<Row>, i: nat, n: nat)
    requires i < |rows|
    ensures Selected(rows[i].callees, UncoveredNames(rows, n)) != [] <==>
      exists c :: c in rows[i].callees && NameUncovered(rows, c, n)
  {
    var blocking := Selected(rows[i].callees, UncoveredNames(rows, n));
    if blocking != [] {
      assert blocking[0] in blocking;
      assert blocking[0] in UncoveredNames(rows, n);
      assert NameUncovered(rows, blocking[0], n);
    }
    if c :| c in rows[i].callees && NameUncovered(rows, c, n) {
      assert c in UncoveredNames(rows, n);
    }
  }

  lemma NamesGrow(rows: seq<Row>, n: nat, now: seq<Row>, next: seq<Row>, grown: set<string>)
    requires AfterRounds(rows, n, now) && AfterRounds(rows, n + 1, next)
    requires forall i :: 0 <= i < |rows| ==> next[i] == Marked(now[i], UncoveredNames(rows, n))
    requires forall m :: m in grown <==>
      m in UncoveredNames(rows, n) || exists i :: 0 <= i < |rows| && next[i] != now[i] && next[i].name == m
    ensures grown == UncoveredNames(rows, n + 1)
  {
    forall i: nat | i < |rows|
      ensures next[i].name == rows[i].name
      ensures UncoveredWithin(rows, i, n + 1) <==> UncoveredWithin(rows, i, n) || next[i] != now[i]
    {
      assert RowAfter(rows, i, n, now[i]) && RowAfter(rows, i, n + 1, next[i]);
      SelectedIffBlocked(rows, i, n);
      if rows[i].reason.Some? { StaysUncovered(rows, i, n); }
    }
    forall m ensures m in grown <==> m in UncoveredNames(rows, n + 1) {
      if m in UncoveredNames(rows, n + 1) {
        var j: nat :| j < |rows| && UncoveredWithin(rows, j, n + 1) && rows[j].name == m;
      }
    }
  }

  /**
   * The fixed point: afterwards a row is covered exactly if it was before and
   * no chain of callees in scope leads to an uncovered row; a row that lost
   * its cover names the callees that were uncovered first.
   */
  method PropagateUnverifiedCallees(rows: array<Row>)
    modifies rows
    ensures forall i: nat :: i < rows.Length ==> (rows[i].reason.None? <==> !RestsOnUncovered(old(rows[..]), i))
    ensures forall i: nat :: i < rows.Length && (old(rows[i]).reason.Some? || rows[i].reason.None?) ==>
      rows[i] == old(rows[i])
    ensures forall i: nat :: i < rows.Length && rows[i] != old(rows[i]) ==>
      exists k: nat :: FoundInRound(old(rows[..]), i, k, rows[i])
  {
    ghost var start := rows[..];
    var uncovered: set<string> := {};
    for i := 0 to rows.Length
      invariant forall m :: m in uncovered <==> exists j: nat :: j < i && rows[j].reason.Some? && rows[j].name == m
    {
      if rows[i].reason.Some? {
        uncovered := uncovered + {rows[i].name};
      }
    }
    ghost var n := 0;
    assert uncovered == UncoveredNames(start, 0);
    while true
      invariant AfterRounds(start, n, rows[..]) && uncovered == UncoveredNames(start, n)
      decreases |StillCovered(rows[..])|
    {
      var newly := NewlyBlocked(rows, uncovered);
      if newly == [] {
        Finished(start, n, rows[..]);
        return;
      }
      ghost var now := rows[..];
      var grown := MarkBlocked(rows, newly, uncovered);
      RoundStep(start, n, now, rows[..]);
      NamesGrow(start, n, now, rows[..], grown);
      FewerCovered(now, rows[..], newly[0].0);
      uncovered, n := grown, n + 1;
    }
  }

  lemma FewerCovered(now: seq<Row>, next: seq<Row>, i: nat)
    requires |next| == |now| && i < |now| && now[i].reason.None? && next[i].reason.Some?
    requires forall k :: 0 <= k < |now| && now[k].reason.Some? ==> next[k] == now[k]
    ensures |StillCovered(next)| < |StillCovered(now)|
  {
    assert i in StillCovered(now);
    SmallerSubset(StillCovered(next), StillCovered(now));
  }

  lemma Finished(rows: seq<Row>, n: nat, now: seq<Row>)
    requires AfterRounds(rows, n, now)
    requires forall i :: 0 <= i < |now| && now[i].reason.None? ==>
      Selected(now[i].callees, UncoveredNames(rows, n)) == []
    ensures forall i: nat :: i < |rows| ==> (now[i].reason.None? <==> !RestsOnUncovered(rows, i))
    ensures forall i: nat :: i < |rows| && now[i] != rows[i] ==> exists k: nat :: FoundInRound(rows, i, k, now[i])
    ensures forall i: nat :: i < |rows| && (rows[i].reason.Some? || now[i].reason.None?) ==> now[i] == rows[i]
  {
    forall i: nat | i < |rows|
      ensures UncoveredWithin(rows, i, n) <==> UncoveredWithin(rows, i, n + 1)
      ensures now[i].reason.None? <==> !UncoveredWithin(rows, i, n)
    {
      assert RowAfter(rows, i, n, now[i]);
      SelectedIffBlocked(rows, i, n);
      if rows[i].reason.Some? { StaysUncovered(rows, i, n); }
    }
    forall i: nat | i < |rows| ensures now[i].reason.None? <==> !RestsOnUncovered(rows, i) {
      if RestsOnUncovered(rows, i) {
        var p :| |p| > 0 && p[0] == i && IsCalleeChain(rows, p) && rows[p[|p| - 1]].reason.Some?;
        ChainIsWithin(rows, p, n);
      }
      if UncoveredWithin(rows, i, n) {
        WithinIsChain(rows, i, n);
      }
    }
  }

  /** A newly uncovered row blames somebody, and only rows that are uncovered themselves. */
  lemma BlamesUncoveredRows(rows: seq<Row>, i: nat, k: nat, now: Row)
    requires i < |rows| && FoundInRound(rows, i, k, now)
    ensures now.blockingCallees != []
    ensures forall c :: c in now.blockingCallees ==>
      c in rows[i].callees && exists j: nat :: j < |rows| && rows[j].name == c && RestsOnUncovered(rows, j)
  {
    hide RestsOnUncovered;
    SelectedIffBlocked(rows, i, k - 1);
    forall c | c in now.blockingCallees
      ensures c in rows[i].callees && exists j: nat :: j < |rows| && rows[j].name == c && RestsOnUncovered(rows, j)
    {
      assert c in UncoveredNames(rows, k - 1);
      var j: nat :| j < |rows| && UncoveredWithin(rows, j, k - 1) && rows[j].name == c;
      WithinIsChain(rows, j, k - 1);
    }
  }

  /** The uncovered rows are the least set that holds the initial ones and is closed under callers. */
  lemma LeastFixedPoint(rows: seq<Row>, bad: set<nat>, i: nat)
    requires i < |rows| && RestsOnUncovered(rows, i)
    requires forall j: nat :: j < |rows| && rows[j].reason.Some? ==> j in bad
    requires forall j: nat, k: nat ::
      j < |rows| && k < |rows| && k in bad && rows[k].name in rows[j].callees ==> j in bad
    ensures i in bad
  {
    var p :| |p| > 0 && p[0] == i && IsCalleeChain(rows, p) && rows[p[|p| - 1]].reason.Some?;
    var k := |p| - 1;
    while k > 0
      invariant 0 <= k < |p| && p[k] in bad
    {
      assert rows[p[k - 1 + 1]].name in rows[p[k - 1]].callees;
      k := k - 1;
    }
  }

  // ---- Whom exactly a row blames -----------------------------------------------------

  /** So many calls lead from row i to a row uncovered for its own reason. */
  ghost predicate CallsFromUncovered(rows: seq<Row>, i: nat, n: nat) {
    exists p :: |p| == n + 1 && p[0] == i && IsCalleeChain(rows, p) && rows[p[n]].reason.Some?
  }

  ghost predicate AtMostCallsFrom(rows: seq<Row>, i: nat, n: nat) {
    exists m: nat :: m <= n && CallsFromUncovered(rows, i, m)
  }

  lemma {:induction false} WithinIff(rows: seq<Row>, i: nat, n: nat)
    requires i < |rows|
    ensures UncoveredWithin(rows, i, n) <==> AtMostCallsFrom(rows, i, n)
    decreases n
  {
    if n == 0 {
      if rows[i].reason.Some? {
        assert IsCalleeChain(rows, [i]);
        assert CallsFromUncovered(rows, i, 0);
      }
    } else {
      hide CallsFromUncovered;
      var earlier: nat := n - 1;
      forall j: nat | j < |rows| ensures UncoveredWithin(rows, j, earlier) <==> AtMostCallsFrom(rows, j, earlier) {
        WithinIff(rows, j, earlier);
      }
      if UncoveredWithin(rows, i, n) && !UncoveredWithin(rows, i, n - 1) {
        var c :| c in rows[i].callees && NameUncovered(rows, c, n - 1);
        var j: nat :| j < |rows| && rows[j].name == c && UncoveredWithin(rows, j, n - 1);
        var m: nat :| m <= n - 1 && CallsFromUncovered(rows, j, m);
        OneCallMore(rows, i, j, m);
      }
      if m: nat :| m <= n && CallsFromUncovered(rows, i, m) {
        if m == n {
          var j := FirstCallOf(rows, i, m);
          assert AtMostCallsFrom(rows, j, n - 1);
          assert NameUncovered(rows, rows[j].name, n - 1);
        } else {
          assert AtMostCallsFrom(rows, i, n - 1);
        }
      }
    }
  }

  lemma OneCallMore(rows: seq<Row>, i: nat, j: nat, m: nat)
    requires i < |rows| && j < |rows| && rows[j].name in rows[i].callees && CallsFromUncovered(rows, j, m)
    ensures CallsFromUncovered(rows, i, m + 1)
  {
    var p :| |p| == m + 1 && p[0] == j && IsCalleeChain(rows, p) && rows[p[m]].reason.Some?;
    assert IsCalleeChain(rows, [i] + p);
  }

  lemma FirstCallOf(rows: seq<Row>, i: nat, m: nat) returns (j: nat)
    requires m > 0 && i < |rows| && CallsFromUncovered(rows, i, m)
    ensures j < |rows| && rows[j].name in rows[i].callees && CallsFromUncovered(rows, j, m - 1)
  {
    var p :| |p| == m + 1 && p[0] == i && IsCalleeChain(rows, p) && rows[p[m]].reason.Some?;
    j := p[1];
    var tail := p[1..];
    assert rows[p[0 + 1]].name in rows[p[0]].callees;
    forall k | 0 <= k < |tail| - 1 ensures rows[tail[k + 1]].name in rows[tail[k]].callees {
      assert rows[p[(k + 1) + 1]].name in rows[p[k + 1]].callees;
    }
    assert IsCalleeChain(rows, tail);
  }

  /** Some row of this name is at most so many calls from an uncovered one. */
  ghost predicate IsNearer(rows: seq<Row>, name: string, n: nat) {
    exists j: nat :: j < |rows| && rows[j].name == name && AtMostCallsFrom(rows, j, n)
  }

  lemma NearerNames(rows: seq<Row>, name: string, n: nat)
    ensures name in UncoveredNames(rows, n) <==> IsNearer(rows, name, n)
  {
    hide AtMostCallsFrom;
    forall j: nat | j < |rows| ensures UncoveredWithin(rows, j, n) <==> AtMostCallsFrom(rows, j, n) {
      WithinIff(rows, j, n);
    }
  }

  lemma {:induction false} SelectedIs(callees: seq<string>, names: set<string>, keep: string -> bool)
    requires forall c :: c in callees ==> (c in names <==> keep(c))
    ensures Selected(callees, names) == Select(callees, keep)
  {
    if callees != [] {
      assert callees == [callees[0]] + callees[1..];
      SelectedIs(callees[1..], names, keep);
    }
  }

  /**
   * A newly uncovered row stays as it was but for the reason, which says that a
   * callee is unverified, and the blame: exactly its callees that are nearer to
   * an uncovered row than it is itself, in the order in which it lists them.
   */
  lemma BlameIsExact(rows: seq<Row>, i: nat, k: nat, now: Row)
    requires i < |rows| && FoundInRound(rows, i, k, now)
    ensures k > 0 && CallsFromUncovered(rows, i, k) && !AtMostCallsFrom(rows, i, k - 1)
    ensures now == rows[i].(reason := Some("unverified_callee"), blockingCallees := now.blockingCallees)
    ensures forall keep: string -> bool ::
      (forall c :: c in rows[i].callees ==> (keep(c) <==> IsNearer(rows, c, k - 1))) ==>
        now.blockingCallees == Select(rows[i].callees, keep)
  {
    hide CallsFromUncovered, IsCalleeChain;
    WithinIff(rows, i, k);
    WithinIff(rows, i, k - 1);
    var m: nat :| m <= k && CallsFromUncovered(rows, i, m);
    assert m == k;
    var earlier: nat := k - 1;
    forall c ensures c in UncoveredNames(rows, earlier) <==> IsNearer(rows, c, earlier) {
      NearerNames(rows, c, earlier);
    }
    forall keep: string -> bool | forall c :: c in rows[i].callees ==> (keep(c) <==> IsNearer(rows, c, k - 1))
      ensures now.blockingCallees == Select(rows[i].callees, keep)
    {
      SelectedIs(rows[i].callees, UncoveredNames(rows, k - 1), keep);
    }
  }
}
