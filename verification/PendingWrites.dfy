/**
 * The writes that are still due. Nothing decides the order in which several
 * operations finish theirs, so the question is what every order comes to.
 */
module PendingWrites {
  import opened ProofReceipts
  import opened Conclusions
  import ConclusionRuns
  import opened Persistence

  // ---- Orders of writing -----------------------------------------------------------

  /** An order names, for each write in turn, the operation whose next file it is. */
  predicate CanDo(s: Session, order: seq<nat>)
    decreases |order|
  {
    order == [] || (CanWrite(s, order[0]) && CanDo(WriteNext(s, order[0]), order[1..]))
  }

  function After(s: Session, order: seq<nat>): (s': Session)
    requires CanDo(s, order)
    decreases |order|
  {
    if order == [] then s else After(WriteNext(s, order[0]), order[1..])
  }

  predicate Finishes(s: Session, order: seq<nat>) {
    CanDo(s, order) && AllWritten(After(s, order))
  }

  lemma {:induction false} Continue(s: Session, a: seq<nat>, b: seq<nat>)
    requires CanDo(s, a) && CanDo(After(s, a), b)
    ensures CanDo(s, a + b) && After(s, a + b) == After(After(s, a), b)
    decreases |a|
  {
    if a == [] {
      assert a + b == b;
    } else {
      assert (a + b)[1..] == a[1..] + b;
      Continue(WriteNext(s, a[0]), a[1..], b);
    }
  }

  lemma {:induction false} AfterKeepsOk(b: Build, s: Session, order: seq<nat>)
    requires SessionOk(b, s) && CanDo(s, order)
    ensures SessionOk(b, After(s, order)) && After(s, order).world == s.world
    decreases |order|
  {
    if order != [] {
      hide SessionOk, CanWrite;
      WriteKeepsOk(b, s, order[0]);
      AfterKeepsOk(b, WriteNext(s, order[0]), order[1..]);
    }
  }

  // ---- When it does not matter who writes last ----------------------------------------

  ghost predicate Due(s: Session, n: string) {
    exists j: nat :: j < |s.left| && n in s.left[j]
  }

  /** What operation j captured of n is still what memory has. */
  predicate IsCurrent(s: Session, j: nat, n: string) {
    && j < |s.captured| && n in s.captured[j]
    && n in s.world.conclusions && s.captured[j][n] == s.world.conclusions[n]
  }

  predicate IsOnDisk(s: Session, n: string) {
    n in s.world.conclusions && n in s.disk && s.disk[n] == s.world.conclusions[n]
  }

  /** Nothing older than memory is going to be written, and what is not going to be written is on disk already. */
  ghost predicate WritesAreCurrent(s: Session) {
    && (forall j: nat, n :: j < |s.left| && n in s.left[j] ==> IsCurrent(s, j, n))
    && (forall n :: n in s.world.conclusions && !Due(s, n) ==> IsOnDisk(s, n))
  }

  /** However the writes that are due are ordered, the disk ends up equal to memory. */
  ghost predicate EveryOrderSettles(s: Session) {
    forall order :: Finishes(s, order) ==> After(s, order).disk == After(s, order).world.conclusions
  }

  lemma WriteKeepsCurrent(s: Session, j: nat)
    requires CanWrite(s, j) && WritesAreCurrent(s)
    ensures WritesAreCurrent(WriteNext(s, j))
  {
    var s' := WriteNext(s, j);
    var names := s.left[j];
    assert names == [names[0]] + names[1..];
    assert IsCurrent(s, j, names[0]);
    forall i: nat, n | i < |s'.left| && n in s'.left[i] ensures IsCurrent(s', i, n) {
      assert n in s.left[i];
      assert IsCurrent(s, i, n);
    }
    forall n | n in s'.world.conclusions && !Due(s', n) ensures IsOnDisk(s', n) {
      if n != names[0] {
        StaysDue(s, j, n);
        assert IsOnDisk(s, n);
      }
    }
  }

  lemma StaysDue(s: Session, j: nat, n: string)
    requires CanWrite(s, j) && n != s.left[j][0]
    ensures Due(s, n) ==> Due(WriteNext(s, j), n)
  {
    if i: nat :| i < |s.left| && n in s.left[i] {
      assert s.left[j] == [s.left[j][0]] + s.left[j][1..];
      assert n in WriteNext(s, j).left[i];
    }
  }

  lemma {:induction false} CurrentSettles(b: Build, s: Session, order: seq<nat>)
    requires SessionOk(b, s) && WritesAreCurrent(s) && Finishes(s, order)
    ensures After(s, order).disk == After(s, order).world.conclusions
    decreases |order|
  {
    if order == [] {
      SameNames(s);
      forall n | n in s.world.conclusions ensures IsOnDisk(s, n) {
        assert !Due(s, n);
      }
    } else {
      hide SessionOk, WritesAreCurrent;
      WriteKeepsOk(b, s, order[0]);
      WriteKeepsCurrent(s, order[0]);
      CurrentSettles(b, WriteNext(s, order[0]), order[1..]);
    }
  }

  // ---- Otherwise some order loses an update ----------------------------------------------

  /** From s to s' the first k operations, but for one, wrote what they had left; the others nothing. */
  ghost predicate Drained(s: Session, s': Session, k: nat, last: nat) {
    && s'.world == s.world && s'.captured == s.captured && |s'.left| == |s.left|
    && (forall i: nat :: i < |s.left| ==> s'.left[i] == if i < k && i != last then [] else s.left[i])
    && (forall n :: !Due(s, n) ==> SameFile(s, s', n))
  }

  /** One operation wrote what it had left. */
  ghost predicate JobDone(s: Session, s': Session, j: nat)
    requires j < |s.left|
  {
    && s'.world == s.world && s'.captured == s.captured && s'.left == s.left[j := []]
    && (forall n :: n in s.left[j] ==> Holds(s', j, n))
    && (forall n :: n !in s.left[j] ==> SameFile(s, s', n))
  }

  /** The file holds what operation j captured. */
  predicate Holds(s: Session, j: nat, n: string) {
    j < |s.captured| && n in s.captured[j] && n in s.disk && s.disk[n] == s.captured[j][n]
  }

  predicate SameFile(s: Session, s': Session, n: string) {
    (n in s'.disk <==> n in s.disk) && (n in s.disk ==> s'.disk[n] == s.disk[n])
  }

  /** An operation can write all it has left. */
  lemma {:induction false} DrainJob(s: Session, j: nat) returns (order: seq<nat>)
    requires JobsAreKept(s) && j < |s.left|
    ensures CanDo(s, order) && JobsAreKept(After(s, order)) && JobDone(s, After(s, order), j)
    decreases |s.left[j]|
  {
    if s.left[j] == [] {
      order := [];
    } else {
      var names := s.left[j];
      assert names[0] in names && names == [names[0]] + names[1..];
      WriteKeepsJobs(s, j);
      var next := WriteNext(s, j);
      var rest := DrainJob(next, j);
      order := [j] + rest;
      assert order[1..] == rest;
      forall n | n in names ensures Holds(After(s, order), j, n) {
        assert n in next.left[j] || SameFile(next, After(next, rest), n);
      }
    }
  }

  lemma OneMoreDrained(s: Session, between: Session, s': Session, k: nat, last: nat)
    requires k < |s.left| && k != last && Drained(s, between, k, last) && JobDone(between, s', k)
    ensures Drained(s, s', k + 1, last)
  {
    forall n | !Due(s, n) ensures SameFile(s, s', n) {
      assert SameFile(s, between, n) && n !in s.left[k];
    }
  }

  /** So can the first k operations, but for one. */
  lemma {:induction false} DrainOthers(s: Session, k: nat, last: nat) returns (order: seq<nat>)
    requires JobsAreKept(s) && k <= |s.left|
    ensures CanDo(s, order) && JobsAreKept(After(s, order)) && Drained(s, After(s, order), k, last)
  {
    if k == 0 {
      order := [];
    } else {
      hide JobsAreKept, JobDone, CanWrite;
      order := DrainOthers(s, k - 1, last);
      if k - 1 != last {
        var between := After(s, order);
        var more := DrainJob(between, k - 1);
        OneMoreDrained(s, between, After(between, more), k - 1, last);
        Continue(s, order, more);
        order := order + more;
      }
    }
  }

  /** Any write that is due can be made the last of all. */
  lemma AnyoneCanBeLast(s: Session, j: nat, n: string) returns (order: seq<nat>)
    requires JobsAreKept(s) && j < |s.left| && n in s.left[j]
    ensures Finishes(s, order) && After(s, order).world == s.world && Holds(After(s, order), j, n)
    ensures After(s, order).captured == s.captured
  {
    hide JobsAreKept, CanWrite, CanDo, After, Holds;
    order := DrainOthers(s, |s.left|, j);
    var between := After(s, order);
    var more := DrainJob(between, j);
    Continue(s, order, more);
    order := order + more;
  }

  /** All that is due can be written, and no other file changes. */
  lemma SomeOrderFinishes(s: Session, n: string) returns (order: seq<nat>)
    requires JobsAreKept(s)
    ensures Finishes(s, order) && After(s, order).world == s.world
    ensures !Due(s, n) ==> SameFile(s, After(s, order), n)
  {
    order := DrainOthers(s, |s.left|, |s.left|);
  }

  lemma SettlingIsCurrent(s: Session)
    requires JobsAreKept(s) && EveryOrderSettles(s)
    ensures WritesAreCurrent(s)
  {
    hide Finishes, CanDo, After;
    forall j: nat, n | j < |s.left| && n in s.left[j] ensures IsCurrent(s, j, n) {
      var order := AnyoneCanBeLast(s, j, n);
    }
    forall n | n in s.world.conclusions && !Due(s, n) ensures IsOnDisk(s, n) {
      var order := SomeOrderFinishes(s, n);
    }
  }

  /**
   * At any point, before any of the writes that are due: every order of them
   * makes the disk equal to memory exactly when none of them is older than
   * memory, and what is not going to be written is on disk as it is.
   */
  lemma EveryOrderSettlesIff(b: Build, s: Session)
    requires SessionOk(b, s)
    ensures EveryOrderSettles(s) <==> WritesAreCurrent(s)
  {
    if EveryOrderSettles(s) {
      SettlingIsCurrent(s);
    }
    if WritesAreCurrent(s) {
      forall order | Finishes(s, order) ensures After(s, order).disk == After(s, order).world.conclusions {
        CurrentSettles(b, s, order);
      }
    }
  }

  // ---- In a run --------------------------------------------------------------------

  function Writes(order: seq<nat>): (events: seq<Event>) {
    if order == [] then [] else [Write(order[0])] + Writes(order[1..])
  }

  lemma {:induction false} LegalFront(b: Build, events: seq<Event>, more: seq<Event>)
    requires Legal(b, events + more)
    ensures Legal(b, events)
    decreases |more|
  {
    if more == [] {
      assert events + more == events;
    } else {
      var front := more[..|more| - 1];
      assert (events + more)[..|events + more| - 1] == events + front;
      LegalFront(b, events, front);
    }
  }

  lemma LegalOneMore(b: Build, events: seq<Event>, e: Event)
    ensures Legal(b, events + [e]) <==> Legal(b, events) && Enabled(b, Run(b, events), e)
    ensures Legal(b, events + [e]) ==> Run(b, events + [e]) == Do(b, Run(b, events), e)
  {
    assert (events + [e])[..|events|] == events;
  }

  /** The orders of writing are the ways a run can go on without another operation. */
  lemma {:induction false} OrdersAreRuns(b: Build, events: seq<Event>, order: seq<nat>)
    requires Legal(b, events)
    ensures Legal(b, events + Writes(order)) <==> CanDo(Run(b, events), order)
    ensures CanDo(Run(b, events), order) ==> Run(b, events + Writes(order)) == After(Run(b, events), order)
    decreases |order|
  {
    if order == [] {
      assert events + Writes(order) == events;
    } else {
      hide Legal, Run, CanWrite;
      var one := events + [Write(order[0])];
      assert events + Writes(order) == one + Writes(order[1..]);
      LegalOneMore(b, events, Write(order[0]));
      if Legal(b, one) {
        OrdersAreRuns(b, one, order[1..]);
      } else if Legal(b, one + Writes(order[1..])) {
        LegalFront(b, one, Writes(order[1..]));
      }
    }
  }

  /** The run goes on with these writes, and then nothing is due. */
  ghost predicate EndsWith(b: Build, events: seq<Event>, order: seq<nat>) {
    Legal(b, events + Writes(order)) && AllWritten(Run(b, events + Writes(order)))
  }

  ghost predicate EveryEndSettles(b: Build, events: seq<Event>) {
    forall order :: EndsWith(b, events, order) ==>
      Run(b, events + Writes(order)).disk == Run(b, events + Writes(order)).world.conclusions
  }

  /**
   * After any run: however the writes still due are ordered, disk and memory
   * end up equal exactly when none of them is older than memory, and what is
   * not going to be written is on disk as it is. There is always such an order.
   */
  lemma EveryEndSettlesIff(b: Build, events: seq<Event>)
    requires Legal(b, events)
    ensures EveryEndSettles(b, events) <==> WritesAreCurrent(Run(b, events))
    ensures exists order :: EndsWith(b, events, order)
  {
    hide Legal, Run, SessionOk, WritesAreCurrent, CanDo, After, AllWritten;
    var s := Run(b, events);
    RunKeepsOk(b, events);
    EveryOrderSettlesIff(b, s);
    forall order
      ensures EndsWith(b, events, order) <==> Finishes(s, order)
      ensures Finishes(s, order) ==> Run(b, events + Writes(order)) == After(s, order)
    {
      OrdersAreRuns(b, events, order);
    }
    JobsOfOk(b, s);
    var order := SomeOrderFinishes(s, "");
    assert EndsWith(b, events, order);
  }

  lemma JobsOfOk(b: Build, s: Session)
    requires SessionOk(b, s)
    ensures JobsAreKept(s)
  {
  }

  // ---- The guard that keeps it so -------------------------------------------------------

  predicate SameEntry(m: Store, m': Store, n: string) {
    n in m && n in m' && m'[n] == m[n]
  }

  /** The operation leaves every entry as it is that still has a write due. */
  ghost predicate SparesTheDue(b: Build, s: Session, op: ConclusionRuns.Op) {
    forall n :: Due(s, n) ==> SameEntry(s.world.conclusions, ConclusionRuns.Step(b, s.world, op).conclusions, n)
  }

  /** While no write is older than memory, it stays so exactly when an operation spares the entries that are due. */
  lemma ActKeepsCurrentIff(b: Build, s: Session, op: ConclusionRuns.Op, touched: seq<string>)
    requires SessionOk(b, s) && Enabled(b, s, Act(op, touched)) && WritesAreCurrent(s)
    ensures WritesAreCurrent(Do(b, s, Act(op, touched))) <==> SparesTheDue(b, s, op)
  {
    hide ConclusionRuns.Step, ConclusionRuns.WorldOk, HandsOn, MemoryIsCaptured, DiskIsWritten;
    var s' := Do(b, s, Act(op, touched));
    var m, m' := s.world.conclusions, s'.world.conclusions;
    forall n
      ensures n in touched ==> n in m'
      ensures n !in touched ==> (n in m' <==> n in m)
      ensures n !in touched && n in m ==> m'[n] == m[n]
    {
      HandedOnIsTheFrame(b, s.world, op, touched, n);
    }
    if WritesAreCurrent(s') {
      CurrentSpares(b, s, op, touched);
    }
    if SparesTheDue(b, s, op) {
      forall j: nat, n | j < |s'.left| && n in s'.left[j] ensures IsCurrent(s', j, n) {
        if j < |s.left| {
          assert Due(s, n) && IsCurrent(s, j, n);
        }
      }
      forall n | n in m' && !Due(s', n) ensures IsOnDisk(s', n) {
        StillDue(s, s', touched, n);
        assert IsOnDisk(s, n);
      }
    }
  }

  lemma StillDue(s: Session, s': Session, touched: seq<string>, n: string)
    requires s'.left == s.left + [touched]
    ensures Due(s, n) || n in touched ==> Due(s', n)
  {
    if i: nat :| i < |s.left| && n in s.left[i] {
      assert n in s'.left[i];
    }
    assert n in touched ==> n in s'.left[|s.left|];
  }

  lemma CurrentSpares(b: Build, s: Session, op: ConclusionRuns.Op, touched: seq<string>)
    requires JobsAreKept(s) && Enabled(b, s, Act(op, touched)) && WritesAreCurrent(s)
    requires WritesAreCurrent(Do(b, s, Act(op, touched)))
    ensures SparesTheDue(b, s, op)
  {
    hide ConclusionRuns.Step, HandsOn;
    var s' := Do(b, s, Act(op, touched));
    forall n | Due(s, n) ensures SameEntry(s.world.conclusions, s'.world.conclusions, n) {
      var j: nat :| j < |s.left| && n in s.left[j];
      assert n in s'.left[j];
      assert IsCurrent(s, j, n) && IsCurrent(s', j, n);
    }
  }

  /** Every operation of the run found nothing due of what it was about to change. */
  ghost predicate Guarded(b: Build, events: seq<Event>)
    requires Legal(b, events)
  {
    events == []
    || (var n := |events| - 1;
        Guarded(b, events[..n]) && (events[n].Act? ==> SparesTheDue(b, Run(b, events[..n]), events[n].op)))
  }

  /** So a run that waits for an entry's writes before it changes the entry again loses nothing, in any order. */
  lemma {:induction false} GuardedRunsSettle(b: Build, events: seq<Event>)
    requires Legal(b, events) && Guarded(b, events)
    ensures WritesAreCurrent(Run(b, events)) && EveryEndSettles(b, events)
  {
    if events == [] {
      NothingDueYet();
    } else {
      hide WritesAreCurrent, EveryEndSettles, SessionOk, SparesTheDue, Do, HandsOn, ConclusionRuns.Step, CanWrite;
      var n := |events| - 1;
      GuardedRunsSettle(b, events[..n]);
      RunKeepsOk(b, events[..n]);
      KeepsCurrent(b, Run(b, events[..n]), events[n]);
    }
    EveryEndSettlesIff(b, events);
  }

  lemma NothingDueYet()
    ensures WritesAreCurrent(FRESH)
  {
  }

  lemma KeepsCurrent(b: Build, s: Session, e: Event)
    requires SessionOk(b, s) && Enabled(b, s, e) && WritesAreCurrent(s)
    requires e.Act? ==> SparesTheDue(b, s, e.op)
    ensures WritesAreCurrent(Do(b, s, e))
  {
    hide WritesAreCurrent, SessionOk, SparesTheDue, HandsOn, ConclusionRuns.Step;
    match e
    case Act(op, touched) => ActKeepsCurrentIff(b, s, op, touched);
    case Write(j) => WriteKeepsCurrent(s, j);
  }
}
