/**
 * The conclusion store: merging an update, refusing unsupported verdicts, and
 * telling every other conclusion what the update made stale.
 */
module Conclusions {
  import opened Outcomes
  import opened ProofReceipts

  datatype Status = InProgress | Verified | Failed | Unsound | BlockedOnCallee

  datatype WpSummary = WpSummary(total: u32, valid: u32, unknown: u32, timeout: u32, failed: u32)

  datatype StaleDependency = StaleDependency(callee: string, recorded: string, current: string)

  datatype StaleEnvironment = StaleEnvironment(recorded: string, current: string)

  datatype Conclusion = Conclusion(
    name: string,
    status: Status,
    specs: seq<AnnotationEntry>,
    wpSummary: Option<WpSummary>,
    notes: string,
    verifyProfile: Option<string>,
    reproduce: Option<string>,
    callees: seq<string>,
    calleeSpecHashes: map<string, string>,
    staleDependencies: seq<StaleDependency>,
    proofReceipt: Option<Receipt>,
    proofEnvHash: Option<string>,
    staleEnvironment: Option<StaleEnvironment>,
    astStmtCount: Option<u32>,
    sandboxClean: bool,
    annotationCount: u32,
    sandboxDeleted: bool)

  /** A field that is None keeps the stored value. */
  datatype Update = Update(
    name: string,
    status: Option<Status>,
    specs: Option<seq<AnnotationEntry>>,
    wpSummary: Option<WpSummary>,
    notes: Option<string>,
    callees: Option<seq<string>>,
    proofReceipt: Option<Receipt>,
    verifyProfile: Option<string>,
    reproduce: Option<string>)

  datatype StoreError =
    | StaleCalleeContracts
    | StaleProofEnvironment
    | MissingCalleeHash
    | MissingWpSummary
    | SummaryNotFullyValid
    | MissingReceipt
    | NotEvidence(reason: EvidenceError)

  type Store = map<string, Conclusion>

  function EmptyConclusion(name: string): Conclusion {
    Conclusion(name, InProgress, [], None, "", None, None, [], map[], [], None, None, None, None, true, 0, false)
  }

  function SpecsHash(b: Build, m: Store, name: string): string {
    b.specsDigest(if name in m then m[name].specs else [])
  }

  function Or<T>(field: Option<T>, stored: T): T {
    if field.Some? then field.value else stored
  }

  function Previous(m: Store, name: string): Conclusion {
    if name in m then m[name] else EmptyConclusion(name)
  }

  /** The entry an update asks for, hashed against the store as it was before. */
  function Merged(b: Build, m: Store, u: Update): Conclusion {
    var stored := Previous(m, u.name);
    var specs := Or(u.specs, stored.specs);
    var callees := Or(u.callees, stored.callees);
    stored.(
      status := Or(u.status, stored.status),
      specs := specs,
      annotationCount := AsU32(|specs|),
      wpSummary := if u.wpSummary.Some? then u.wpSummary else stored.wpSummary,
      notes := Or(u.notes, stored.notes),
      callees := callees,
      proofReceipt := if u.proofReceipt.Some? then u.proofReceipt else stored.proofReceipt,
      proofEnvHash :=
        if u.proofReceipt.Some? then Some(b.environmentDigest(u.proofReceipt.value.environment))
        else stored.proofEnvHash,
      staleEnvironment := if u.proofReceipt.Some? then None else stored.staleEnvironment,
      verifyProfile := if u.verifyProfile.Some? then u.verifyProfile else stored.verifyProfile,
      reproduce := if u.verifyProfile.Some? then u.reproduce else stored.reproduce,
      calleeSpecHashes :=
        if u.callees.Some? then map c | c in callees :: SpecsHash(b, m, c) else stored.calleeSpecHashes,
      staleDependencies := if u.callees.Some? then [] else stored.staleDependencies)
  }

  function Validate(b: Build, entry: Conclusion): (error: Option<StoreError>) {
    if entry.status != Verified then None
    else if entry.staleDependencies != [] then Some(StaleCalleeContracts)
    else if entry.staleEnvironment.Some? then Some(StaleProofEnvironment)
    else if exists c | c in entry.callees :: c !in entry.calleeSpecHashes then Some(MissingCalleeHash)
    else if entry.wpSummary.None? then Some(MissingWpSummary)
    else
      var summary := entry.wpSummary.value;
      if summary.total == 0 || summary.valid != summary.total || summary.unknown != 0 || summary.timeout != 0
         || summary.failed != 0 then
        Some(SummaryNotFullyValid)
      else if entry.proofReceipt.None? then Some(MissingReceipt)
      else
        var reason := ProofReceiptEvidenceError(b, entry.proofReceipt.value, summary.total, entry.name);
        if reason.Some? then Some(NotEvidence(reason.value)) else None
  }

  /** Verified evidence that went stale is work to do again. */
  function Demoted(status: Status): Status {
    if status == Verified then InProgress else status
  }

  function StaleUnder(recorded: string, current: string): Option<StaleEnvironment> {
    if recorded == current then None else Some(StaleEnvironment(recorded, current))
  }

  /** What storing a receipt under environment hash current does to another entry. */
  function EnvironmentStep(entry: Conclusion, current: string): Conclusion {
    if entry.proofEnvHash.None? then entry
    else
      var stale := StaleUnder(entry.proofEnvHash.value, current);
      entry.(staleEnvironment := stale, status := if stale.Some? then Demoted(entry.status) else entry.status)
  }

  function WithoutCallee(deps: seq<StaleDependency>, callee: string): (r: seq<StaleDependency>)
    ensures forall dep :: dep in r <==> dep in deps && dep.callee != callee
  {
    if deps == [] then []
    else (if deps[0].callee != callee then [deps[0]] else []) + WithoutCallee(deps[1..], callee)
  }

  /** The first entry for the callee is rewritten in place; without one, it is appended. */
  function Recorded(deps: seq<StaleDependency>, dep: StaleDependency): seq<StaleDependency> {
    if deps == [] then [dep]
    else if deps[0].callee == dep.callee then [dep] + deps[1..]
    else [deps[0]] + Recorded(deps[1..], dep)
  }

  function DependenciesStep(deps: seq<StaleDependency>, callee: string, recorded: string, current: string)
    : seq<StaleDependency>
  {
    if recorded == current then WithoutCallee(deps, callee)
    else Recorded(deps, StaleDependency(callee, recorded, current))
  }

  /** What storing specs with hash current for callee does to another entry. */
  function DependencyStep(entry: Conclusion, callee: string, current: string): Conclusion {
    if callee !in entry.calleeSpecHashes then entry
    else
      var deps := DependenciesStep(entry.staleDependencies, callee, entry.calleeSpecHashes[callee], current);
      entry.(staleDependencies := deps,
             status := if deps != entry.staleDependencies && deps != [] then Demoted(entry.status) else entry.status)
  }

  function Inserted(b: Build, m: Store, u: Update): Store {
    m[u.name := Merged(b, m, u)]
  }

  function AfterEnvironment(b: Build, m: Store, u: Update): (r: Store)
    ensures r.Keys == m.Keys
  {
    if u.proofReceipt.None? then m
    else EnvironmentStore(m, u.name, b.environmentDigest(u.proofReceipt.value.environment))
  }

  function EnvironmentStore(m: Store, name: string, current: string): (r: Store)
    ensures r.Keys == m.Keys
  {
    map n | n in m :: if n == name then m[n] else EnvironmentStep(m[n], current)
  }

  function AfterDependencies(m: Store, name: string, current: string): (r: Store)
    ensures r.Keys == m.Keys
  {
    map n | n in m :: if n == name then m[n] else DependencyStep(m[n], name, current)
  }

  /** The store after an accepted update. */
  function Stored(b: Build, m: Store, u: Update): Store {
    var m1 := AfterEnvironment(b, Inserted(b, m, u), u);
    AfterDependencies(m1, u.name, SpecsHash(b, m1, u.name))
  }

  // ---- The object --------------------------------------------------------

  ghost predicate Enumerates(s: seq<string>, names: set<string>) {
    (forall n :: n in s <==> n in names) && forall i, j :: 0 <= i < j < |s| ==> s[i] != s[j]
  }

  /** now agrees with after except on the names still pending, which are as before. */
  ghost predicate Partway(before: Store, now: Store, after: Store, pending: set<string>) {
    && before.Keys == now.Keys == after.Keys && pending <= before.Keys
    && forall n :: n in now ==> now[n] == if n in pending then before[n] else after[n]
  }

  lemma PartwayStart(before: Store, after: Store)
    requires before.Keys == after.Keys
    ensures Partway(before, before, after, before.Keys)
  {
  }

  lemma PartwayStep(before: Store, now: Store, after: Store, pending: set<string>, n: string)
    requires Partway(before, now, after, pending) && n in pending
    ensures n in before && n in now && now[n] == before[n] && n in after
    ensures Partway(before, now[n := after[n]], after, pending - {n})
    ensures before[n] == after[n] ==> now[n := after[n]] == now
  {
  }

  lemma PartwayEnd(before: Store, now: Store, after: Store)
    requires Partway(before, now, after, {})
    ensures now == after
  {
  }

  lemma NoneEnumerated(names: set<string>, pending: set<string>)
    requires names <= pending
    ensures Enumerates([], names - pending)
  {
  }

  lemma NoEnvironmentStep(entry: Conclusion, current: string)
    ensures entry.proofEnvHash.None? ==> EnvironmentStep(entry, current) == entry
  {
  }

  lemma NoDependencyStep(entry: Conclusion, callee: string, current: string)
    ensures callee !in entry.calleeSpecHashes ==> DependencyStep(entry, callee, current) == entry
  {
  }

  lemma EnumerateNext(touched: seq<string>, names: set<string>, pending: set<string>, n: string)
    requires Enumerates(touched, names - pending) && n in pending
    ensures Enumerates(if n in names then touched + [n] else touched, names - (pending - {n}))
  {
  }

  method RefreshEnvironment(entry: Conclusion, recorded: string, current: string) returns (r: Conclusion, moved: bool)
    requires entry.proofEnvHash == Some(recorded)
    ensures r == EnvironmentStep(entry, current)
    ensures moved <==> r.staleEnvironment != entry.staleEnvironment
  {
    r := entry;
    if recorded == current {
      r := r.(staleEnvironment := None);
    } else {
      r := r.(staleEnvironment := Some(StaleEnvironment(recorded, current)));
      if r.status == Verified {
        r := r.(status := InProgress);
      }
    }
    moved := r.staleEnvironment != entry.staleEnvironment;
  }

  method RefreshDependency(entry: Conclusion, callee: string, recorded: string, current: string)
    returns (r: Conclusion, moved: bool)
    requires callee in entry.calleeSpecHashes && entry.calleeSpecHashes[callee] == recorded
    ensures r == DependencyStep(entry, callee, current)
    ensures moved <==> r.staleDependencies != entry.staleDependencies
  {
    r := entry;
    if recorded == current {
      r := r.(staleDependencies := WithoutCallee(entry.staleDependencies, callee));
    } else {
      r := r.(staleDependencies := Recorded(entry.staleDependencies, StaleDependency(callee, recorded, current)));
    }
    moved := r.staleDependencies != entry.staleDependencies;
    if moved && r.staleDependencies != [] && r.status == Verified {
      r := r.(status := InProgress);
    }
  }

  class SessionState {
    const build: Build
    var conclusions: Store

    constructor (build: Build)
      ensures this.build == build && conclusions == map[]
    {
      this.build := build;
      conclusions := map[];
    }

    /**
     * Refused, and nothing changed; or stored, with the names of what changed:
     * the function itself, then the entries whose environment moved, then the
     * entries whose view of its contract moved. Map order decides nothing else.
     */
    method StoreConclusion(u: Update) returns (r: Result<seq<string>, StoreError>)
      modifies this`conclusions
      ensures r.Failure? <==> Validate(build, Merged(build, old(conclusions), u)).Some?
      ensures r.Failure? ==>
        conclusions == old(conclusions) && Some(r.error) == Validate(build, Merged(build, conclusions, u))
      ensures r.Success? ==> conclusions == Stored(build, old(conclusions), u)
      ensures r.Success? ==> TouchedList(build, old(conclusions), u, r.value)
    {
      var entry := Merged(build, conclusions, u);
      var refused := Validate(build, entry);
      if refused.Some? {
        return Failure(refused.value);
      }
      conclusions := conclusions[u.name := entry];
      var env: seq<string> := [];
      if u.proofReceipt.Some? {
        env := PropagateEnvironment(u.name, build.environmentDigest(u.proofReceipt.value.environment));
      }
      ghost var m1 := AfterEnvironment(build, Inserted(build, old(conclusions), u), u);
      assert conclusions == m1;
      var current := SpecsHash(build, conclusions, u.name);
      var deps := PropagateDependencies(u.name, current);
      r := Success([u.name] + env + deps);
      assert Enumerates(env, EnvironmentTouched(build, old(conclusions), u));
      assert Enumerates(deps, DependencyTouched(build, old(conclusions), u));
    }

    method PropagateEnvironment(name: string, current: string) returns (touched: seq<string>)
      modifies this`conclusions
      ensures conclusions == EnvironmentStore(old(conclusions), name, current)
      ensures Enumerates(touched, EnvironmentMoved(old(conclusions), name, current))
    {
      hide Partway, Enumerates, EnvironmentStep;
      touched := [];
      var pending := conclusions.Keys;
      ghost var before, after := conclusions, EnvironmentStore(conclusions, name, current);
      PartwayStart(before, after);
      NoneEnumerated(EnvironmentMoved(before, name, current), pending);
      while pending != {}
        invariant Partway(before, conclusions, after, pending)
        invariant Enumerates(touched, EnvironmentMoved(before, name, current) - pending)
        decreases pending
      {
        var n :| n in pending;
        PartwayStep(before, conclusions, after, pending, n);
        EnumerateNext(touched, EnvironmentMoved(before, name, current), pending, n);
        pending := pending - {n};
        if n == name || conclusions[n].proofEnvHash.None? {
          assert after[n] == before[n] by { NoEnvironmentStep(before[n], current); }
          continue;
        }
        var entry, moved := RefreshEnvironment(conclusions[n], conclusions[n].proofEnvHash.value, current);
        conclusions := conclusions[n := entry];
        if moved {
          touched := touched + [n];
        }
      }
      PartwayEnd(before, conclusions, after);
      assert EnvironmentMoved(before, name, current) - {} == EnvironmentMoved(before, name, current);
    }

    method PropagateDependencies(name: string, current: string) returns (touched: seq<string>)
      modifies this`conclusions
      ensures conclusions == AfterDependencies(old(conclusions), name, current)
      ensures Enumerates(touched, DependencyMoved(old(conclusions), name, current))
    {
      hide Partway, Enumerates, DependencyStep;
      touched := [];
      var pending := conclusions.Keys;
      ghost var before, after := conclusions, AfterDependencies(conclusions, name, current);
      PartwayStart(before, after);
      NoneEnumerated(DependencyMoved(before, name, current), pending);
      while pending != {}
        invariant Partway(before, conclusions, after, pending)
        invariant Enumerates(touched, DependencyMoved(before, name, current) - pending)
        decreases pending
      {
        var n :| n in pending;
        PartwayStep(before, conclusions, after, pending, n);
        EnumerateNext(touched, DependencyMoved(before, name, current), pending, n);
        pending := pending - {n};
        if n == name || name !in conclusions[n].calleeSpecHashes {
          assert after[n] == before[n] by { NoDependencyStep(before[n], name, current); }
          continue;
        }
        var entry, moved := RefreshDependency(conclusions[n], name, conclusions[n].calleeSpecHashes[name], current);
        conclusions := conclusions[n := entry];
        if moved {
          touched := touched + [n];
        }
      }
      PartwayEnd(before, conclusions, after);
      assert DependencyMoved(before, name, current) - {} == DependencyMoved(before, name, current);
    }

    method OnSandboxCreated(name: string, astStmtCount: Option<u32>)
      modifies this`conclusions
      ensures conclusions == WithSandbox(old(conclusions), name, astStmtCount)
    {
      var entry := if name in conclusions then conclusions[name] else EmptyConclusion(name);
      entry := entry.(astStmtCount := astStmtCount, sandboxClean := true,
                      annotationCount := 0, sandboxDeleted := false);
      match entry.status {
        case Verified | Failed | Unsound | BlockedOnCallee => entry := entry.(status := InProgress);
        case InProgress =>
      }
      conclusions := conclusions[name := entry];
    }

    method OnAnnotationAdded(name: string)
      modifies this`conclusions
      ensures conclusions == WithAnnotation(old(conclusions), name)
    {
      if name in conclusions {
        var entry := conclusions[name];
        var count := if entry.annotationCount == 0xFFFF_FFFF then 0xFFFF_FFFF else entry.annotationCount + 1;
        conclusions := conclusions[name := entry.(sandboxClean := false, annotationCount := count)];
      }
    }

    method OnSandboxDeleted(name: string)
      modifies this`conclusions
      ensures conclusions == WithoutSandbox(old(conclusions), name)
    {
      if name in conclusions {
        conclusions := conclusions[name := conclusions[name].(sandboxDeleted := true)];
      }
    }
  }

  /** The list handed to the caller to persist. */
  ghost predicate TouchedList(b: Build, m: Store, u: Update, touched: seq<string>) {
    exists env, deps ::
      (&& touched == [u.name] + env + deps
       && Enumerates(env, EnvironmentTouched(b, m, u))
       && Enumerates(deps, DependencyTouched(b, m, u)))
  }

  ghost function EnvironmentMoved(m: Store, name: string, current: string): set<string> {
    set n | n in m && n != name && EnvironmentStep(m[n], current).staleEnvironment != m[n].staleEnvironment
  }

  ghost function DependencyMoved(m: Store, name: string, current: string): set<string> {
    set n | n in m && n != name && DependencyStep(m[n], name, current).staleDependencies != m[n].staleDependencies
  }

  ghost function EnvironmentTouched(b: Build, m: Store, u: Update): set<string> {
    if u.proofReceipt.None? then {}
    else EnvironmentMoved(Inserted(b, m, u), u.name, b.environmentDigest(u.proofReceipt.value.environment))
  }

  ghost function DependencyTouched(b: Build, m: Store, u: Update): set<string> {
    var m1 := AfterEnvironment(b, Inserted(b, m, u), u);
    DependencyMoved(m1, u.name, SpecsHash(b, m1, u.name))
  }

  function WithSandbox(m: Store, name: string, astStmtCount: Option<u32>): Store {
    var stored := if name in m then m[name] else EmptyConclusion(name);
    m[name := stored.(status := InProgress, astStmtCount := astStmtCount, sandboxClean := true,
                      annotationCount := 0, sandboxDeleted := false)]
  }

  function WithAnnotation(m: Store, name: string): Store {
    if name !in m then m
    else
      var count := m[name].annotationCount;
      m[name := m[name].(sandboxClean := false, annotationCount := if count == 0xFFFF_FFFF then count else count + 1)]
  }

  function WithoutSandbox(m: Store, name: string): Store {
    if name in m then m[name := m[name].(sandboxDeleted := true)] else m
  }
}
