/**
 * The conclusions on disk. Every operation on the store captures the entries
 * it changed and lets go of the store before it writes them out, one file at
 * a time, so the writes of several operations interleave.
 */
module Persistence {
  import opened Outcomes
  import opened ProofReceipts
  import opened Conclusions
  import opened ConclusionRuns

  /**
   * Each operation's captured entries, and which of them are still to be
   * written, in order; for each file, which operation wrote it last.
   */
  datatype Session = Session(
    world: World,
    captured: seq<Store>,
    left: seq<seq<string>>,
    disk: Store,
    writtenBy: map<string, nat>)

  const FRESH: Session := Session(EMPTY, [], [], map[], map[])

  /** Do an operation that hands these names on to be persisted, or write the next file of an earlier one. */
  datatype Event = Act(op: Op, touched: seq<string>) | Write(job: nat)

  /** The names an operation hands on: none when it is refused or touches nobody. */
  ghost predicate HandsOn(b: Build, w: World, op: Op, touched: seq<string>) {
    match op
    case StoreUpdate(u) =>
      if Validate(b, Merged(b, w.conclusions, u)).Some? then touched == []
      else TouchedList(b, w.conclusions, u, touched)
    case CreateSandbox(name, _) => touched == [name]
    case AddAnnotation(name) => touched == if name in w.conclusions then [name] else []
    case DeleteSandbox(name) => touched == if name in w.conclusions then [name] else []
  }

  predicate CanWrite(s: Session, j: nat) {
    j < |s.left| && s.left[j] != [] && j < |s.captured| && s.left[j][0] in s.captured[j]
  }

  /** An operation writes the next of its files. */
  function WriteNext(s: Session, j: nat): (s': Session)
    requires CanWrite(s, j)
  {
    var n := s.left[j][0];
    s.(left := s.left[j := s.left[j][1..]], disk := s.disk[n := s.captured[j][n]], writtenBy := s.writtenBy[n := j])
  }

  ghost predicate Enabled(b: Build, s: Session, e: Event) {
    match e
    case Act(op, touched) => HandsOn(b, s.world, op, touched)
    case Write(j) => CanWrite(s, j)
  }

  function Captured(m: Store, touched: seq<string>): (r: Store) {
    map n | n in touched && n in m :: m[n]
  }

  ghost function Do(b: Build, s: Session, e: Event): (s': Session)
    requires Enabled(b, s, e)
  {
    match e
    case Act(op, touched) =>
      var world := Step(b, s.world, op);
      s.(world := world, captured := s.captured + [Captured(world.conclusions, touched)], left := s.left + [touched])
    case Write(j) => WriteNext(s, j)
  }

  /** Operation j is the last that captured n. */
  ghost predicate IsLatest(s: Session, n: string, j: nat) {
    j < |s.captured| && n in s.captured[j] && forall k :: j < k < |s.captured| ==> n !in s.captured[k]
  }

  // ---- What every interleaving keeps -----------------------------------------------

  /** The latest capture of an entry is the entry. */
  ghost predicate MemoryIsCaptured(s: Session) {
    forall n :: n in s.world.conclusions ==> HasLatest(s, n)
  }

  ghost predicate HasLatest(s: Session, n: string)
    requires n in s.world.conclusions
  {
    exists j: nat :: IsLatest(s, n, j) && s.captured[j][n] == s.world.conclusions[n]
  }

  /** A file holds what the operation that wrote it last had captured. */
  ghost predicate DiskIsWritten(s: Session) {
    && s.disk.Keys == s.writtenBy.Keys
    && forall n :: n in s.disk ==>
         s.writtenBy[n] < |s.captured| && n in s.captured[s.writtenBy[n]] && s.disk[n] == s.captured[s.writtenBy[n]][n]
  }

  /** What was captured is in memory, and on disk or still to be written. */
  ghost predicate JobsAreKept(s: Session) {
    && |s.left| == |s.captured|
    && (forall j, n :: 0 <= j < |s.left| && n in s.left[j] ==> n in s.captured[j])
    && (forall j, n :: 0 <= j < |s.captured| && n in s.captured[j] ==>
         n in s.world.conclusions && (n in s.left[j] || n in s.disk))
  }

  ghost predicate SessionOk(b: Build, s: Session) {
    WorldOk(b, s.world) && MemoryIsCaptured(s) && DiskIsWritten(s) && JobsAreKept(s)
  }

  /** An operation changes exactly what it hands on. */
  lemma HandedOnIsTheFrame(b: Build, w: World, op: Op, touched: seq<string>, n: string)
    requires WorldOk(b, w) && HandsOn(b, w, op, touched)
    ensures n in touched ==> n in Step(b, w, op).conclusions
    ensures n !in touched ==> (n in Step(b, w, op).conclusions <==> n in w.conclusions)
    ensures n !in touched && n in w.conclusions ==> Step(b, w, op).conclusions[n] == w.conclusions[n]
  {
    hide Merged, Stored, Validate, EnvironmentTouched, DependencyTouched;
    if op.StoreUpdate? && Validate(b, Merged(b, w.conclusions, op.update)).None? {
      TouchedAreStored(b, w.conclusions, op.update);
      if n != op.update.name {
        TouchedIsTheFrame(b, w.conclusions, op.update, w.lastEnv, n);
      }
    }
  }

  lemma ActKeepsOk(b: Build, s: Session, op: Op, touched: seq<string>)
    requires SessionOk(b, s) && Enabled(b, s, Act(op, touched))
    ensures SessionOk(b, Do(b, s, Act(op, touched)))
  {
    hide Step, WorldOk, HandsOn;
    var s' := Do(b, s, Act(op, touched));
    var m, m' := s.world.conclusions, s'.world.conclusions;
    StepKeepsInv(b, s.world, op);
    forall n
      ensures n in touched ==> n in m'
      ensures n !in touched ==> (n in m' <==> n in m)
      ensures n !in touched && n in m ==> m'[n] == m[n]
    {
      HandedOnIsTheFrame(b, s.world, op, touched, n);
    }
    forall n | n in m' ensures HasLatest(s', n) {
      if n in touched {
        assert IsLatest(s', n, |s.captured|);
      } else {
        assert HasLatest(s, n);
        var j: nat :| IsLatest(s, n, j) && s.captured[j][n] == m[n];
        assert IsLatest(s', n, j);
      }
    }
  }

  lemma WriteKeepsDisk(s: Session, j: nat)
    requires DiskIsWritten(s) && CanWrite(s, j)
    ensures DiskIsWritten(WriteNext(s, j))
  {
  }

  lemma WriteKeepsJobs(s: Session, j: nat)
    requires JobsAreKept(s) && CanWrite(s, j)
    ensures JobsAreKept(WriteNext(s, j))
  {
    var s' := WriteNext(s, j);
    var names := s.left[j];
    assert names == [names[0]] + names[1..];
    forall i, n | 0 <= i < |s'.captured| && n in s'.captured[i] ensures n in s'.left[i] || n in s'.disk {
      assert n in s.left[i] || n in s.disk;
    }
  }

  lemma WriteKeepsOk(b: Build, s: Session, j: nat)
    requires SessionOk(b, s) && CanWrite(s, j)
    ensures SessionOk(b, WriteNext(s, j))
  {
    hide WorldOk, DiskIsWritten, JobsAreKept;
    var s' := WriteNext(s, j);
    WriteKeepsDisk(s, j);
    WriteKeepsJobs(s, j);
    forall n | n in s'.world.conclusions ensures HasLatest(s', n) {
      assert HasLatest(s, n);
      var k: nat :| IsLatest(s, n, k) && s.captured[k][n] == s.world.conclusions[n];
      assert IsLatest(s', n, k);
    }
  }

  // ---- Whole sessions ------------------------------------------------------------

  ghost predicate Legal(b: Build, events: seq<Event>)
    decreases |events|, 0
  {
    events == []
    || (Legal(b, events[..|events| - 1]) && Enabled(b, Run(b, events[..|events| - 1]), events[|events| - 1]))
  }

  ghost function Run(b: Build, events: seq<Event>): (s: Session)
    requires Legal(b, events)
    decreases |events|, 1
  {
    if events == [] then FRESH else Do(b, Run(b, events[..|events| - 1]), events[|events| - 1])
  }

  lemma {:induction false} RunKeepsOk(b: Build, events: seq<Event>)
    requires Legal(b, events)
    ensures SessionOk(b, Run(b, events))
  {
    if events != [] {
      hide SessionOk, WriteNext, CanWrite, HandsOn, Step;
      var before := events[..|events| - 1];
      RunKeepsOk(b, before);
      match events[|events| - 1]
      case Act(op, touched) => ActKeepsOk(b, Run(b, before), op, touched);
      case Write(j) => WriteKeepsOk(b, Run(b, before), j);
    }
  }

  predicate AllWritten(s: Session) {
    forall j :: 0 <= j < |s.left| ==> s.left[j] == []
  }

  /** The file was written last by the operation that captured the entry last, or by one that captured the same. */
  ghost predicate WroteTheLatest(s: Session, n: string) {
    && n in s.writtenBy && s.writtenBy[n] < |s.captured| && n in s.captured[s.writtenBy[n]]
    && exists j: nat :: IsLatest(s, n, j) && s.captured[s.writtenBy[n]][n] == s.captured[j][n]
  }

  lemma OneLatest(s: Session, n: string, j: nat, k: nat)
    requires IsLatest(s, n, j) && IsLatest(s, n, k)
    ensures j == k
  {
  }

  /**
   * With every write done, the disk is equal to memory when each file was
   * written last with what the last operation on its entry had captured. This
   * looks back at a finished session; PendingWrites decides it beforehand.
   */
  lemma DiskIsMemoryIff(b: Build, events: seq<Event>)
    requires Legal(b, events) && AllWritten(Run(b, events))
    ensures var s := Run(b, events);
      && s.disk.Keys == s.world.conclusions.Keys
      && (s.disk == s.world.conclusions <==> forall n :: n in s.disk ==> WroteTheLatest(s, n))
  {
    RunKeepsOk(b, events);
    SettledIff(b, Run(b, events));
  }

  lemma FileIff(s: Session, n: string)
    requires DiskIsWritten(s) && n in s.disk && n in s.world.conclusions && HasLatest(s, n)
    ensures s.disk[n] == s.world.conclusions[n] <==> WroteTheLatest(s, n)
  {
    var j: nat :| IsLatest(s, n, j) && s.captured[j][n] == s.world.conclusions[n];
    forall k: nat | IsLatest(s, n, k) ensures k == j {
      OneLatest(s, n, j, k);
    }
  }

  lemma SameNames(s: Session)
    requires MemoryIsCaptured(s) && DiskIsWritten(s) && JobsAreKept(s) && AllWritten(s)
    ensures s.disk.Keys == s.world.conclusions.Keys
  {
    forall n ensures n in s.disk <==> n in s.world.conclusions {
      if n in s.world.conclusions { assert HasLatest(s, n); }
    }
  }

  lemma SettledIff(b: Build, s: Session)
    requires SessionOk(b, s) && AllWritten(s)
    ensures s.disk.Keys == s.world.conclusions.Keys
    ensures s.disk == s.world.conclusions <==> forall n :: n in s.disk ==> WroteTheLatest(s, n)
  {
    hide WorldOk, HasLatest, DiskIsWritten, JobsAreKept, AllWritten, WroteTheLatest;
    SameNames(s);
    forall n | n in s.disk ensures s.disk[n] == s.world.conclusions[n] <==> WroteTheLatest(s, n) {
      FileIff(s, n);
    }
  }

  // ---- Writing in order is enough, and out of order is not ------------------------------

  /** No operation writes a file while an earlier one still has to. */
  ghost predicate InTurn(s: Session, e: Event) {
    e.Write? && e.job < |s.left| && s.left[e.job] != [] ==>
      forall i :: 0 <= i < e.job ==> s.left[e.job][0] !in s.left[i]
  }

  ghost predicate InOrder(b: Build, events: seq<Event>)
    requires Legal(b, events)
  {
    events == [] || (InOrder(b, events[..|events| - 1]) && InTurn(Run(b, events[..|events| - 1]), events[|events| - 1]))
  }

  /** Whoever wrote a file last: later operations still have to, earlier ones do not. */
  ghost predicate Ordered(s: Session) {
    && |s.left| == |s.captured|
    && (forall n, j :: n in s.writtenBy && s.writtenBy[n] < j < |s.captured| && n in s.captured[j] ==> n in s.left[j])
    && (forall n, i :: n in s.writtenBy && 0 <= i < s.writtenBy[n] && i < |s.left| ==> n !in s.left[i])
  }

  lemma InTurnKeepsOrdered(b: Build, s: Session, e: Event)
    requires SessionOk(b, s) && Enabled(b, s, e) && Ordered(s) && InTurn(s, e)
    ensures Ordered(Do(b, s, e))
  {
    hide WorldOk, Step, HandsOn, MemoryIsCaptured;
    var s' := Do(b, s, e);
    match e
    case Act(_, _) =>
    case Write(j) =>
      var n := s.left[j][0];
      assert s.left[j] == [n] + s.left[j][1..];
      assert n in s.left[j];
      assert n in s.writtenBy ==> s.writtenBy[n] <= j;
  }

  lemma {:induction false} InOrderKeepsOrdered(b: Build, events: seq<Event>)
    requires Legal(b, events) && InOrder(b, events)
    ensures Ordered(Run(b, events))
  {
    if events != [] {
      hide SessionOk, Ordered, InTurn, Enabled, Do;
      InOrderKeepsOrdered(b, events[..|events| - 1]);
      RunKeepsOk(b, events[..|events| - 1]);
      InTurnKeepsOrdered(b, Run(b, events[..|events| - 1]), events[|events| - 1]);
    }
  }

  /** As long as each file is written in the order of the operations, the disk ends up equal to memory. */
  lemma InOrderDiskIsMemory(b: Build, events: seq<Event>)
    requires Legal(b, events) && InOrder(b, events) && AllWritten(Run(b, events))
    ensures Run(b, events).disk == Run(b, events).world.conclusions
  {
    hide Legal, InOrder, Run, Do;
    var s := Run(b, events);
    RunKeepsOk(b, events);
    InOrderKeepsOrdered(b, events);
    DiskIsMemoryIff(b, events);
    forall n | n in s.disk ensures WroteTheLatest(s, n) {
      LastWriterIsLatest(b, s, n);
    }
  }

  lemma LastWriterIsLatest(b: Build, s: Session, n: string)
    requires SessionOk(b, s) && Ordered(s) && AllWritten(s) && n in s.disk
    ensures WroteTheLatest(s, n)
  {
    hide WorldOk, MemoryIsCaptured;
    var j := s.writtenBy[n];
    assert forall k :: j < k < |s.captured| && n in s.captured[k] ==> s.left[k] == [];
    assert IsLatest(s, n, j);
  }

  lemma RunOneMore(b: Build, events: seq<Event>, e: Event)
    requires Legal(b, events) && Enabled(b, Run(b, events), e)
    ensures Legal(b, events + [e]) && Run(b, events + [e]) == Do(b, Run(b, events), e)
  {
    assert (events + [e])[..|events|] == events;
  }

  /** A run in order, with the first k operations written out. */
  ghost predicate WrittenUpTo(b: Build, events: seq<Event>, k: nat) {
    && Legal(b, events) && InOrder(b, events)
    && forall i :: 0 <= i < k && i < |Run(b, events).left| ==> Run(b, events).left[i] == []
  }

  /** The next operation writes its files, now that those before it have. */
  lemma {:induction false} NextInTurn(b: Build, events: seq<Event>, k: nat) returns (more: seq<Event>)
    requires WrittenUpTo(b, events, k) && k < |Run(b, events).left|
    ensures WrittenUpTo(b, events + more, k + 1) && |Run(b, events + more).left| == |Run(b, events).left|
    ensures Run(b, events + more).world == Run(b, events).world
    decreases |Run(b, events).left[k]|
  {
    hide Legal, Run, InOrder;
    var s := Run(b, events);
    more := [];
    assert events + more == events;
    if s.left[k] != [] {
      RunKeepsOk(b, events);
      assert s.left[k][0] in s.left[k];
      RunOneMore(b, events, Write(k));
      WriteIsInOrder(b, events, k);
      var rest := NextInTurn(b, events + [Write(k)], k);
      more := [Write(k)] + rest;
      assert events + more == events + [Write(k)] + rest;
    }
  }

  lemma WriteIsInOrder(b: Build, events: seq<Event>, k: nat)
    requires WrittenUpTo(b, events, k) && Enabled(b, Run(b, events), Write(k))
    ensures Legal(b, events + [Write(k)]) && InOrder(b, events + [Write(k)])
  {
    hide Enabled, Do;
    RunOneMore(b, events, Write(k));
    hide Run;
    assert (events + [Write(k)])[..|events|] == events;
  }

  /** Any run in order can be ended in order, by writing out the operations one after the other. */
  lemma {:induction false} OrderCanBeKept(b: Build, events: seq<Event>, k: nat) returns (more: seq<Event>)
    requires WrittenUpTo(b, events, k) && k <= |Run(b, events).left|
    ensures Legal(b, events + more) && InOrder(b, events + more) && AllWritten(Run(b, events + more))
    ensures Run(b, events + more).world == Run(b, events).world
    decreases |Run(b, events).left| - k
  {
    hide Legal, Run, InOrder;
    more := [];
    assert events + more == events;
    if k < |Run(b, events).left| {
      more := NextInTurn(b, events, k);
      var rest := OrderCanBeKept(b, events + more, k + 1);
      assert events + (more + rest) == events + more + rest;
      more := more + rest;
    }
  }

  /** A function is stored without specs, then with one. */
  function TwoStores(f: string, s: AnnotationEntry): (events: seq<Event>) {
    [Act(StoreUpdate(Setting(f, [], None)), [f])] + [Act(StoreUpdate(Setting(f, [s], None)), [f])]
  }

  /** The second store is written out before the first. */
  function SwappedWrites(f: string, s: AnnotationEntry): (events: seq<Event>) {
    TwoStores(f, s) + [Write(1)] + [Write(0)]
  }

  /** Both stores were captured, and neither is written out yet. */
  ghost predicate BothWait(s: Session, f: string, first: seq<AnnotationEntry>, second: seq<AnnotationEntry>) {
    && |s.captured| == 2 && s.left == [[f], [f]] && s.disk == map[]
    && f in s.captured[0] && s.captured[0][f].specs == first
    && f in s.captured[1] && s.captured[1][f].specs == second
    && s.world.conclusions == map[f := s.captured[1][f]]
  }

  lemma TwoStoresWait(b: Build, f: string, s: AnnotationEntry)
    ensures Legal(b, TwoStores(f, s)) && BothWait(Run(b, TwoStores(f, s)), f, [], [s])
  {
    var u1, u2 := Setting(f, [], None), Setting(f, [s], None);
    var w1 := Step(b, EMPTY, StoreUpdate(u1));
    AloneTouchesItself(b, EMPTY, u1);
    AloneTouchesItself(b, w1, u2);
    hide Step, HandsOn, Setting;
    var a1, a2 := Act(StoreUpdate(u1), [f]), Act(StoreUpdate(u2), [f]);
    RunOneMore(b, [], a1);
    assert [] + [a1] == [a1];
    RunOneMore(b, [a1], a2);
  }

  /**
   * Two stores of one function whose writes change places: both are in memory
   * one after the other, and the file keeps the first.
   */
  lemma SwappedWritesLoseAnUpdate(b: Build, f: string, s: AnnotationEntry)
    ensures Legal(b, SwappedWrites(f, s))
    ensures var end := Run(b, SwappedWrites(f, s));
      && AllWritten(end) && |end.captured| == 2
      && f in end.captured[0] && end.captured[0][f].specs == [] && end.disk == map[f := end.captured[0][f]]
      && f in end.captured[1] && end.captured[1][f].specs == [s]
      && end.world.conclusions == map[f := end.captured[1][f]]
      && end.disk != end.world.conclusions
  {
    hide Step, HandsOn, TwoStores;
    TwoStoresWait(b, f, s);
    RunOneMore(b, TwoStores(f, s), Write(1));
    RunOneMore(b, TwoStores(f, s) + [Write(1)], Write(0));
    var end := Run(b, SwappedWrites(f, s));
    assert end.disk[f] != end.world.conclusions[f];
  }

  /** Setting the specs of the only function there is hands on that function alone. */
  lemma AloneTouchesItself(b: Build, w: World, u: Update)
    requires w.conclusions.Keys <= {u.name} && u == Setting(u.name, Or(u.specs, []), None) && u.specs.Some?
    requires u.name in w.conclusions ==> w.conclusions[u.name].status == InProgress
    ensures HandsOn(b, w, StoreUpdate(u), [u.name])
    ensures var m := Step(b, w, StoreUpdate(u)).conclusions;
      m.Keys == {u.name} && m[u.name].specs == u.specs.value && m[u.name].status == InProgress
  {
    var m := w.conclusions;
    StoredAt(b, m, u, u.name);
    assert EnvironmentTouched(b, m, u) == {} && DependencyTouched(b, m, u) == {};
    assert Enumerates([], {}) && [u.name] == [u.name] + [] + [];
  }
}
