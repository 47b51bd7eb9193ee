/**
 * What holds of the conclusion store after any sequence of operations:
 * staleness is exact, verified means supported, and persisting the touched
 * entries keeps the disk equal to memory.
 */
module ConclusionRuns {
  import opened Outcomes
  import opened ProofReceipts
  import opened Conclusions

  /** The contract of g that f was proved against is not g's contract any more. */
  ghost predicate ContractMoved(b: Build, m: Store, f: string, g: string)
    requires f in m
  {
    g != f && g in m[f].calleeSpecHashes && m[f].calleeSpecHashes[g] != SpecsHash(b, m, g)
  }

  ghost function StaleEntry(b: Build, m: Store, f: string, g: string): StaleDependency
    requires f in m && g in m[f].calleeSpecHashes
  {
    StaleDependency(g, m[f].calleeSpecHashes[g], SpecsHash(b, m, g))
  }

  ghost predicate UniqueCallees(deps: seq<StaleDependency>) {
    forall i, j :: 0 <= i < j < |deps| ==> deps[i].callee != deps[j].callee
  }

  /** f lists exactly the callees whose contract moved, once each, with both hashes right. */
  ghost predicate DependenciesExact(b: Build, m: Store, f: string)
    requires f in m
  {
    && (forall g :: g in m[f].calleeSpecHashes <==> g in m[f].callees)
    && UniqueCallees(m[f].staleDependencies)
    && (forall dep :: dep in m[f].staleDependencies ==>
         ContractMoved(b, m, f, dep.callee) && dep == StaleEntry(b, m, f, dep.callee))
    && (forall g :: ContractMoved(b, m, f, g) ==> StaleEntry(b, m, f, g) in m[f].staleDependencies)
  }

  /** lastEnv is the environment hash of the last accepted update that carried a receipt. */
  ghost predicate EnvironmentExact(b: Build, e: Conclusion, lastEnv: Option<string>) {
    && e.proofEnvHash ==
         (if e.proofReceipt.Some? then Some(b.environmentDigest(e.proofReceipt.value.environment)) else None)
    && (e.proofEnvHash.None? ==> e.staleEnvironment.None?)
    && (e.proofEnvHash.Some? ==> lastEnv.Some?)
    && (e.proofEnvHash.Some? && e.proofEnvHash == lastEnv ==> e.staleEnvironment.None?)
    && (e.proofEnvHash.Some? && e.proofEnvHash != lastEnv ==>
          e.staleEnvironment == Some(StaleEnvironment(e.proofEnvHash.value, lastEnv.value)))
  }

  ghost predicate EntryOk(b: Build, m: Store, lastEnv: Option<string>, f: string)
    requires f in m
  {
    && m[f].name == f
    && DependenciesExact(b, m, f)
    && EnvironmentExact(b, m[f], lastEnv)
    && Validate(b, m[f]).None?
  }

  ghost predicate Inv(b: Build, m: Store, lastEnv: Option<string>) {
    forall f :: f in m ==> EntryOk(b, m, lastEnv, f)
  }

  ghost function NextEnv(b: Build, lastEnv: Option<string>, u: Update): Option<string> {
    if u.proofReceipt.Some? then Some(b.environmentDigest(u.proofReceipt.value.environment)) else lastEnv
  }

  // ---- One accepted update ------------------------------------------------

  lemma {:induction false} RecordedMembers(deps: seq<StaleDependency>, dep: StaleDependency)
    requires UniqueCallees(deps)
    ensures UniqueCallees(Recorded(deps, dep))
    ensures forall x :: x in Recorded(deps, dep) <==> x == dep || (x in deps && x.callee != dep.callee)
  {
    if deps != [] {
      assert deps == [deps[0]] + deps[1..];
      if deps[0].callee == dep.callee {
        forall x | x in deps[1..] ensures x.callee != dep.callee {
          var i :| 0 <= i < |deps[1..]| && deps[1..][i] == x;
          assert deps[i + 1] == x;
        }
      } else {
        RecordedMembers(deps[1..], dep);
        forall x | x in Recorded(deps[1..], dep) ensures x.callee != deps[0].callee {
          if x != dep {
            var i :| 0 <= i < |deps[1..]| && deps[1..][i] == x;
            assert deps[i + 1] == x;
          }
        }
        UniqueCons(deps[0], Recorded(deps[1..], dep));
      }
    }
  }

  lemma UniqueCons(first: StaleDependency, rest: seq<StaleDependency>)
    requires UniqueCallees(rest) && forall x :: x in rest ==> x.callee != first.callee
    ensures UniqueCallees([first] + rest)
  {
    var all := [first] + rest;
    forall i, j | 0 <= i < j < |all| ensures all[i].callee != all[j].callee {
      assert all[j] in rest;
    }
  }

  lemma {:induction false} WithoutCalleeUnique(deps: seq<StaleDependency>, callee: string)
    requires UniqueCallees(deps)
    ensures UniqueCallees(WithoutCallee(deps, callee))
  {
    if deps != [] {
      WithoutCalleeUnique(deps[1..], callee);
      var rest := WithoutCallee(deps[1..], callee);
      forall x | x in rest ensures x.callee != deps[0].callee {
        var i :| 0 <= i < |deps[1..]| && deps[1..][i] == x;
        assert deps[i + 1] == x;
      }
      UniqueCons(deps[0], rest);
    }
  }

  /** What an accepted update does to the entry of another function. */
  function Refreshed(b: Build, e: Conclusion, u: Update, current: string): Conclusion {
    var moved :=
      if u.proofReceipt.Some? then EnvironmentStep(e, b.environmentDigest(u.proofReceipt.value.environment)) else e;
    DependencyStep(moved, u.name, current)
  }

  lemma StoredAt(b: Build, m: Store, u: Update, n: string)
    ensures Stored(b, m, u).Keys == m.Keys + {u.name}
    ensures Stored(b, m, u)[u.name] == Merged(b, m, u)
    ensures n in m && n != u.name ==> Stored(b, m, u)[n] == Refreshed(b, m[n], u, b.specsDigest(Merged(b, m, u).specs))
  {
    var m1 := AfterEnvironment(b, Inserted(b, m, u), u);
    assert m1[u.name] == Merged(b, m, u);
  }

  /** Nobody but the stored function changes specs, callees, recorded hashes or receipts. */
  lemma RefreshedKeeps(b: Build, e: Conclusion, u: Update, current: string)
    ensures var r := Refreshed(b, e, u, current);
      r.name == e.name && r.specs == e.specs && r.callees == e.callees && r.calleeSpecHashes == e.calleeSpecHashes
      && r.proofReceipt == e.proofReceipt && r.proofEnvHash == e.proofEnvHash && r.wpSummary == e.wpSummary
  {
  }

  lemma SpecsHashAfter(b: Build, m: Store, u: Update, g: string)
    ensures g != u.name ==> SpecsHash(b, Stored(b, m, u), g) == SpecsHash(b, m, g)
    ensures SpecsHash(b, Stored(b, m, u), u.name) == b.specsDigest(Merged(b, m, u).specs)
  {
    StoredAt(b, m, u, g);
    if g in m {
      RefreshedKeeps(b, m[g], u, b.specsDigest(Merged(b, m, u).specs));
    }
  }

  lemma StoredEntryExact(b: Build, m: Store, u: Update, lastEnv: Option<string>)
    requires Inv(b, m, lastEnv) && Validate(b, Merged(b, m, u)).None?
    ensures u.name in Stored(b, m, u) && EntryOk(b, Stored(b, m, u), NextEnv(b, lastEnv, u), u.name)
  {
    StoredAt(b, m, u, u.name);
    if u.name in m {
      assert EntryOk(b, m, lastEnv, u.name);
    }
    MergedDependencies(b, m, u);
  }

  lemma MergedDependencies(b: Build, m: Store, u: Update)
    requires u.name in m ==> DependenciesExact(b, m, u.name)
    ensures u.name in Stored(b, m, u) && DependenciesExact(b, Stored(b, m, u), u.name)
  {
    var m' := Stored(b, m, u);
    StoredAt(b, m, u, u.name);
    forall g | g != u.name ensures SpecsHash(b, m', g) == SpecsHash(b, m, g) {
      SpecsHashAfter(b, m, u, g);
    }
    if u.callees.None? && u.name in m {
      forall g ensures ContractMoved(b, m', u.name, g) <==> ContractMoved(b, m, u.name, g) {
      }
    }
  }

  lemma OtherEntryExact(b: Build, m: Store, u: Update, lastEnv: Option<string>, n: string)
    requires Inv(b, m, lastEnv) && n in m && n != u.name
    ensures n in Stored(b, m, u) && EntryOk(b, Stored(b, m, u), NextEnv(b, lastEnv, u), n)
  {
    assert EntryOk(b, m, lastEnv, n);
    OtherDependencies(b, m, u, n);
    StoredAt(b, m, u, n);
    RefreshedEnvironment(b, m[n], u, b.specsDigest(Merged(b, m, u).specs), lastEnv);
  }

  lemma RefreshedEnvironment(b: Build, e: Conclusion, u: Update, current: string, lastEnv: Option<string>)
    requires EnvironmentExact(b, e, lastEnv) && Validate(b, e).None?
    ensures EnvironmentExact(b, Refreshed(b, e, u, current), NextEnv(b, lastEnv, u))
    ensures Validate(b, Refreshed(b, e, u, current)).None?
  {
  }

  lemma OtherDependencies(b: Build, m: Store, u: Update, n: string)
    requires n in m && n != u.name && DependenciesExact(b, m, n)
    ensures n in Stored(b, m, u) && DependenciesExact(b, Stored(b, m, u), n)
  {
    var m' := Stored(b, m, u);
    var current := b.specsDigest(Merged(b, m, u).specs);
    StoredAt(b, m, u, n);
    RefreshedKeeps(b, m[n], u, current);
    SpecsHashAfter(b, m, u, u.name);
    forall g | g != u.name
      ensures SpecsHash(b, m', g) == SpecsHash(b, m, g)
      ensures ContractMoved(b, m', n, g) <==> ContractMoved(b, m, n, g)
    {
      SpecsHashAfter(b, m, u, g);
    }
    RefreshedDependencies(b, m[n], u, current);
  }

  ghost predicate IsNewlyStale(e: Conclusion, callee: string, current: string, dep: StaleDependency) {
    && callee in e.calleeSpecHashes && e.calleeSpecHashes[callee] != current
    && dep == StaleDependency(callee, e.calleeSpecHashes[callee], current)
  }

  /** The list of stale dependencies changes at the stored function alone. */
  lemma RefreshedDependencies(b: Build, e: Conclusion, u: Update, current: string)
    requires UniqueCallees(e.staleDependencies)
    requires forall dep :: dep in e.staleDependencies ==> dep.callee in e.calleeSpecHashes
    ensures var deps := Refreshed(b, e, u, current).staleDependencies;
      && UniqueCallees(deps)
      && (forall dep: StaleDependency | dep.callee != u.name :: dep in deps <==> dep in e.staleDependencies)
      && (forall dep: StaleDependency | dep.callee == u.name ::
            dep in deps <==> IsNewlyStale(e, u.name, current, dep))
  {
    if u.name in e.calleeSpecHashes {
      WithoutCalleeUnique(e.staleDependencies, u.name);
      RecordedMembers(e.staleDependencies, StaleDependency(u.name, e.calleeSpecHashes[u.name], current));
    }
  }

  lemma StoreKeepsInv(b: Build, m: Store, u: Update, lastEnv: Option<string>)
    requires Inv(b, m, lastEnv) && Validate(b, Merged(b, m, u)).None?
    ensures Inv(b, Stored(b, m, u), NextEnv(b, lastEnv, u))
  {
    StoredAt(b, m, u, u.name);
    forall n | n in Stored(b, m, u) ensures EntryOk(b, Stored(b, m, u), NextEnv(b, lastEnv, u), n) {
      if n == u.name {
        StoredEntryExact(b, m, u, lastEnv);
      } else {
        OtherEntryExact(b, m, u, lastEnv, n);
      }
    }
  }

  // ---- Every run -----------------------------------------------------------

  datatype Op =
    | StoreUpdate(update: Update)
    | CreateSandbox(name: string, astStmtCount: Option<u32>)
    | AddAnnotation(name: string)
    | DeleteSandbox(name: string)

  /** The store, and the environment of the last accepted update that carried a receipt. */
  datatype World = World(conclusions: Store, lastEnv: Option<string>)

  function Step(b: Build, w: World, op: Op): World {
    match op
    case StoreUpdate(u) =>
      if Validate(b, Merged(b, w.conclusions, u)).Some? then w
      else World(Stored(b, w.conclusions, u),
                 if u.proofReceipt.Some? then Some(b.environmentDigest(u.proofReceipt.value.environment))
                 else w.lastEnv)
    case CreateSandbox(name, count) => w.(conclusions := WithSandbox(w.conclusions, name, count))
    case AddAnnotation(name) => w.(conclusions := WithAnnotation(w.conclusions, name))
    case DeleteSandbox(name) => w.(conclusions := WithoutSandbox(w.conclusions, name))
  }

  function Run(b: Build, w: World, ops: seq<Op>): World {
    if ops == [] then w else Step(b, Run(b, w, ops[..|ops| - 1]), ops[|ops| - 1])
  }

  ghost predicate WorldOk(b: Build, w: World) {
    Inv(b, w.conclusions, w.lastEnv)
  }

  /** Changing one entry's sandbox fields, or demoting it, leaves the invariant alone. */
  lemma SandboxFieldsKeepInv(b: Build, m: Store, lastEnv: Option<string>, name: string, e: Conclusion)
    requires Inv(b, m, lastEnv)
    requires Validate(b, e).None?
    requires var stored := Previous(m, name);
      && e.name == stored.name && e.specs == stored.specs
      && e.callees == stored.callees && e.calleeSpecHashes == stored.calleeSpecHashes
      && e.staleDependencies == stored.staleDependencies && e.staleEnvironment == stored.staleEnvironment
      && e.proofReceipt == stored.proofReceipt && e.proofEnvHash == stored.proofEnvHash
    ensures Inv(b, m[name := e], lastEnv)
  {
    var m' := m[name := e];
    forall g ensures SpecsHash(b, m', g) == SpecsHash(b, m, g) {
    }
    forall n | n in m' ensures EntryOk(b, m', lastEnv, n) {
      if n in m {
        assert EntryOk(b, m, lastEnv, n);
        forall g ensures ContractMoved(b, m', n, g) <==> ContractMoved(b, m, n, g) {
        }
      }
    }
  }

  lemma StepKeepsInv(b: Build, w: World, op: Op)
    requires WorldOk(b, w)
    ensures WorldOk(b, Step(b, w, op))
  {
    match op
    case StoreUpdate(u) =>
      if Validate(b, Merged(b, w.conclusions, u)).None? {
        StoreKeepsInv(b, w.conclusions, u, w.lastEnv);
      }
    case CreateSandbox(name, count) =>
      SandboxFieldsKeepInv(b, w.conclusions, w.lastEnv, name, Step(b, w, op).conclusions[name]);
    case AddAnnotation(name) =>
      if name in w.conclusions {
        assert EntryOk(b, w.conclusions, w.lastEnv, name);
        SandboxFieldsKeepInv(b, w.conclusions, w.lastEnv, name, Step(b, w, op).conclusions[name]);
      }
    case DeleteSandbox(name) =>
      if name in w.conclusions {
        assert EntryOk(b, w.conclusions, w.lastEnv, name);
        SandboxFieldsKeepInv(b, w.conclusions, w.lastEnv, name, Step(b, w, op).conclusions[name]);
      }
  }

  lemma {:induction false} RunKeepsInv(b: Build, w: World, ops: seq<Op>)
    requires WorldOk(b, w)
    ensures WorldOk(b, Run(b, w, ops))
  {
    if ops != [] {
      RunKeepsInv(b, w, ops[..|ops| - 1]);
      StepKeepsInv(b, Run(b, w, ops[..|ops| - 1]), ops[|ops| - 1]);
    }
  }

  const EMPTY: World := World(map[], None)

  /** What a session that starts empty can come to. */
  ghost predicate Reachable(b: Build, w: World) {
    exists ops :: w == Run(b, EMPTY, ops)
  }

  lemma ReachableIsOk(b: Build, w: World)
    requires Reachable(b, w)
    ensures WorldOk(b, w)
  {
    var ops :| w == Run(b, EMPTY, ops);
    RunKeepsInv(b, EMPTY, ops);
  }

  /**
   * For another function g, f lists one stale dependency when the hash it
   * recorded for g is not the hash of g's specs now, and none when it is.
   */
  lemma StalenessIsExact(b: Build, w: World, f: string, g: string)
    requires Reachable(b, w) && f in w.conclusions && f != g
    ensures var m, e := w.conclusions, w.conclusions[f];
      && (g in e.calleeSpecHashes <==> g in e.callees)
      && (forall i, j :: 0 <= i < j < |e.staleDependencies| ==>
           e.staleDependencies[i].callee != e.staleDependencies[j].callee)
      && ((exists dep :: dep in e.staleDependencies && dep.callee == g) <==>
            g in e.calleeSpecHashes && e.calleeSpecHashes[g] != SpecsHash(b, m, g))
      && (forall dep :: dep in e.staleDependencies && dep.callee == g ==>
            dep.recorded == e.calleeSpecHashes[g] && dep.current == SpecsHash(b, m, g))
  {
    ReachableIsOk(b, w);
    assert EntryOk(b, w.conclusions, w.lastEnv, f);
    if ContractMoved(b, w.conclusions, f, g) {
      assert StaleEntry(b, w.conclusions, f, g).callee == g;
    }
  }

  /** Verified means: nothing stale, a fully valid non-empty summary, and evidence for this function. */
  lemma VerifiedIsSupported(b: Build, w: World, f: string)
    requires Reachable(b, w) && f in w.conclusions && w.conclusions[f].status == Verified
    ensures var e := w.conclusions[f];
      && e.staleDependencies == [] && e.staleEnvironment.None?
      && e.wpSummary.Some? && e.proofReceipt.Some?
      && e.wpSummary.value.total == e.wpSummary.value.valid > 0
      && e.wpSummary.value.unknown == e.wpSummary.value.timeout == e.wpSummary.value.failed == 0
      && IsEvidence(b, e.proofReceipt.value, e.wpSummary.value.total, f)
  {
    ReachableIsOk(b, w);
    assert EntryOk(b, w.conclusions, w.lastEnv, f);
  }

  /** An entry with a receipt is environment-stale exactly when the last stored receipt came from elsewhere. */
  lemma EnvironmentStaleIff(b: Build, w: World, f: string)
    requires Reachable(b, w) && f in w.conclusions && w.conclusions[f].proofReceipt.Some?
    ensures var e := w.conclusions[f];
      && e.proofEnvHash == Some(b.environmentDigest(e.proofReceipt.value.environment)) && w.lastEnv.Some?
      && (e.staleEnvironment.Some? <==> e.proofEnvHash != w.lastEnv)
      && (e.staleEnvironment.Some? ==>
           e.staleEnvironment.value == StaleEnvironment(e.proofEnvHash.value, w.lastEnv.value))
  {
    ReachableIsOk(b, w);
    assert EntryOk(b, w.conclusions, w.lastEnv, f);
  }

  // ---- A function among its own callees ----------------------------------------

  /** A function that names itself as a callee is never told that its own contract moved. */
  lemma OwnContractNeverStale(b: Build, w: World, f: string)
    requires Reachable(b, w) && f in w.conclusions
    ensures forall dep :: dep in w.conclusions[f].staleDependencies ==> dep.callee != f
  {
    ReachableIsOk(b, w);
    assert EntryOk(b, w.conclusions, w.lastEnv, f);
  }

  /** The hash f recorded for itself is the hash of its specs. */
  predicate OwnHashIsCurrent(b: Build, m: Store, f: string)
    requires f in m && f in m[f].calleeSpecHashes
  {
    m[f].calleeSpecHashes[f] == SpecsHash(b, m, f)
  }

  /**
   * Storing f itself: the hash it holds for itself is that of its specs as
   * they were before, when the update lists the callees, and the one recorded
   * earlier when it does not. It is right exactly when the new specs hash to that.
   */
  lemma OwnHashIsCurrentIff(b: Build, w: World, u: Update)
    requires Reachable(b, w) && Validate(b, Merged(b, w.conclusions, u)).None?
    requires u.name in Merged(b, w.conclusions, u).callees
    ensures u.callees.None? ==> u.name in w.conclusions && u.name in w.conclusions[u.name].calleeSpecHashes
    ensures var m' := Stored(b, w.conclusions, u);
      && u.name in m' && u.name in m'[u.name].calleeSpecHashes
      && (OwnHashIsCurrent(b, m', u.name) <==>
            b.specsDigest(Merged(b, w.conclusions, u).specs) ==
              if u.callees.Some? then SpecsHash(b, w.conclusions, u.name)
              else w.conclusions[u.name].calleeSpecHashes[u.name])
  {
    ReachableIsOk(b, w);
    if u.name in w.conclusions {
      assert EntryOk(b, w.conclusions, w.lastEnv, u.name);
    }
    StoredAt(b, w.conclusions, u, u.name);
    SpecsHashAfter(b, w.conclusions, u, u.name);
  }

  predicate StoresItself(b: Build, w: World, op: Op, f: string) {
    op.StoreUpdate? && op.update.name == f && Validate(b, Merged(b, w.conclusions, op.update)).None?
  }

  /** Whatever else happens changes neither the hash f holds for itself nor the hash of its specs. */
  lemma OwnHashOnlyChangesByItself(b: Build, w: World, op: Op, f: string)
    requires f in w.conclusions && !StoresItself(b, w, op, f)
    ensures var m, m' := w.conclusions, Step(b, w, op).conclusions;
      f in m' && m'[f].calleeSpecHashes == m[f].calleeSpecHashes && SpecsHash(b, m', f) == SpecsHash(b, m, f)
  {
    hide Merged, Stored, Validate, Refreshed;
    if op.StoreUpdate? && op.update.name != f {
      var u := op.update;
      StoredAt(b, w.conclusions, u, f);
      RefreshedKeeps(b, w.conclusions[f], u, b.specsDigest(Merged(b, w.conclusions, u).specs));
      SpecsHashAfter(b, w.conclusions, u, f);
    }
  }

  /** An update that sets specs, and callees if there are any, and nothing else. */
  function Setting(f: string, specs: seq<AnnotationEntry>, callees: Option<seq<string>>): Update {
    Update(f, None, Some(specs), None, None, callees, None, None, None)
  }

  /**
   * Two stores that leave the hash wrong with nothing reported, and a third
   * that makes it right again by changing the contract back.
   */
  lemma OwnHashGoesWrongUnreported(b: Build, f: string, s: AnnotationEntry)
    requires b.specsDigest([s]) != b.specsDigest([])
    ensures var w1 := Step(b, EMPTY, StoreUpdate(Setting(f, [], Some([f]))));
      var w2 := Step(b, w1, StoreUpdate(Setting(f, [s], None)));
      var w3 := Step(b, w2, StoreUpdate(Setting(f, [], None)));
      && f in w1.conclusions && f in w1.conclusions[f].calleeSpecHashes && OwnHashIsCurrent(b, w1.conclusions, f)
      && f in w2.conclusions && f in w2.conclusions[f].calleeSpecHashes && !OwnHashIsCurrent(b, w2.conclusions, f)
      && w2.conclusions[f].staleDependencies == []
      && f in w3.conclusions && f in w3.conclusions[f].calleeSpecHashes && OwnHashIsCurrent(b, w3.conclusions, f)
  {
    StoredAt(b, EMPTY.conclusions, Setting(f, [], Some([f])), f);
    var w1 := Step(b, EMPTY, StoreUpdate(Setting(f, [], Some([f]))));
    StoredAt(b, w1.conclusions, Setting(f, [s], None), f);
    var w2 := Step(b, w1, StoreUpdate(Setting(f, [s], None)));
    StoredAt(b, w2.conclusions, Setting(f, [], None), f);
  }

  // ---- The touched list -----------------------------------------------------

  /** Among the other entries, exactly the touched ones differ after a store. */
  lemma TouchedIsTheFrame(b: Build, m: Store, u: Update, lastEnv: Option<string>, n: string)
    requires Inv(b, m, lastEnv) && Validate(b, Merged(b, m, u)).None? && n != u.name
    ensures n in Stored(b, m, u) <==> n in m
    ensures n in m ==>
      (Stored(b, m, u)[n] != m[n] <==> n in EnvironmentTouched(b, m, u) + DependencyTouched(b, m, u))
  {
    StoredAt(b, m, u, n);
    if n in m {
      assert EntryOk(b, m, lastEnv, n);
      var m1 := AfterEnvironment(b, Inserted(b, m, u), u);
      assert SpecsHash(b, m1, u.name) == b.specsDigest(Merged(b, m, u).specs);
    }
  }

  /** The files on disk after writing the listed conclusions as they are in memory. */
  function Persisted(disk: Store, memory: Store, touched: seq<string>): Store
    requires forall n :: n in touched ==> n in memory
    decreases |touched|
  {
    if touched == [] then disk
    else Persisted(disk[touched[0] := memory[touched[0]]], memory, touched[1..])
  }

  lemma {:induction false} PersistedAt(disk: Store, memory: Store, touched: seq<string>)
    requires forall n :: n in touched ==> n in memory
    ensures Persisted(disk, memory, touched) ==
      map n | n in disk.Keys + (set t | t in touched) :: if n in touched then memory[n] else disk[n]
    decreases |touched|
  {
    if touched != [] {
      assert touched == [touched[0]] + touched[1..];
      PersistedAt(disk[touched[0] := memory[touched[0]]], memory, touched[1..]);
    }
  }

  lemma TouchedAreStored(b: Build, m: Store, u: Update)
    ensures Stored(b, m, u).Keys == m.Keys + {u.name}
    ensures EnvironmentTouched(b, m, u) <= m.Keys + {u.name} && DependencyTouched(b, m, u) <= m.Keys + {u.name}
  {
    hide Merged, EnvironmentStep, DependencyStep;
  }

  /** The touched list names the stored function once, and another once for every mark of its that moved. */
  lemma TouchedAreListedOnce(b: Build, m: Store, u: Update, touched: seq<string>, n: string)
    requires TouchedList(b, m, u, touched)
    ensures multiset(touched)[n] == (if n == u.name then 1 else 0)
      + (if n in EnvironmentTouched(b, m, u) then 1 else 0) + if n in DependencyTouched(b, m, u) then 1 else 0
    ensures touched[0] == u.name
  {
    hide EnvironmentTouched, DependencyTouched;
    var env, deps :| touched == [u.name] + env + deps
      && Enumerates(env, EnvironmentTouched(b, m, u)) && Enumerates(deps, DependencyTouched(b, m, u));
    OnceEach(env, EnvironmentTouched(b, m, u), n);
    OnceEach(deps, DependencyTouched(b, m, u), n);
  }

  lemma {:induction false} OnceEach(s: seq<string>, names: set<string>, n: string)
    requires Enumerates(s, names)
    ensures multiset(s)[n] == if n in names then 1 else 0
  {
    if s != [] {
      var front, last := s[..|s| - 1], s[|s| - 1];
      assert s == front + [last];
      assert last !in front;
      OnceEach(front, names - {last}, n);
    }
  }

  /** Writing out exactly the touched entries keeps the disk equal to memory. */
  lemma DiskFollowsMemory(b: Build, m: Store, u: Update, lastEnv: Option<string>, touched: seq<string>)
    requires Inv(b, m, lastEnv) && Validate(b, Merged(b, m, u)).None? && TouchedList(b, m, u, touched)
    ensures forall n :: n in touched ==> n in Stored(b, m, u)
    ensures Persisted(m, Stored(b, m, u), touched) == Stored(b, m, u)
  {
    hide Stored, Merged, Inv, Validate, EnvironmentTouched, DependencyTouched, Persisted;
    var m' := Stored(b, m, u);
    TouchedAreStored(b, m, u);
    var env, deps :| touched == [u.name] + env + deps
      && Enumerates(env, EnvironmentTouched(b, m, u)) && Enumerates(deps, DependencyTouched(b, m, u));
    forall n ensures n in touched <==> n == u.name || n in EnvironmentTouched(b, m, u) + DependencyTouched(b, m, u) {
    }
    PersistedAt(m, m', touched);
    var disk := Persisted(m, m', touched);
    assert disk.Keys == m'.Keys;
    forall n | n in m' ensures disk[n] == m'[n] {
      if n != u.name {
        TouchedIsTheFrame(b, m, u, lastEnv, n);
      }
    }
  }
}
