/**
 * What one operation does to the entries of the store, field by field, and
 * which verdicts can be recorded at all.
 */
module StoreMeaning {
  import opened Outcomes
  import opened ProofReceipts
  import opened Conclusions
  import opened ConclusionRuns

  // ---- The entry that is stored ------------------------------------------------------

  /** A field is the update's where it has one, and stays otherwise. */
  predicate Takes<T(==)>(now: T, wanted: Option<T>, was: T) {
    now == match wanted case Some(v) => v case None => was
  }

  /** The earlier entry; a function nobody has stored is in progress, with nothing recorded. */
  predicate IsEarlier(m: Store, name: string, was: Conclusion) {
    was == if name in m then m[name]
      else Conclusion(name, InProgress, [], None, "", None, None, [], map[], [], None, None, None, None, true, 0, false)
  }

  predicate IsSpecsHash(b: Build, m: Store, name: string, hash: string) {
    hash == b.specsDigest(if name in m then m[name].specs else [])
  }

  /** What the caller reports is what is recorded. */
  predicate RecordsReport(u: Update, was: Conclusion, now: Conclusion) {
    && now.name == was.name
    && Takes(now.status, u.status, was.status)
    && Takes(now.specs, u.specs, was.specs)
    && (u.wpSummary.Some? ==> now.wpSummary == u.wpSummary) && (u.wpSummary.None? ==> now.wpSummary == was.wpSummary)
    && Takes(now.notes, u.notes, was.notes)
    && Takes(now.callees, u.callees, was.callees)
    && (u.verifyProfile.Some? ==> now.verifyProfile == u.verifyProfile && now.reproduce == u.reproduce)
    && (u.verifyProfile.None? ==> now.verifyProfile == was.verifyProfile && now.reproduce == was.reproduce)
    && |now.specs| % 0x1_0000_0000 == now.annotationCount
    && now.astStmtCount == was.astStmtCount && now.sandboxClean == was.sandboxClean
    && now.sandboxDeleted == was.sandboxDeleted
  }

  /** A receipt comes with its environment's hash and clears the environment mark. */
  predicate RecordsReceipt(b: Build, u: Update, was: Conclusion, now: Conclusion) {
    match u.proofReceipt
    case Some(receipt) =>
      && now.proofReceipt == Some(receipt) && now.staleEnvironment.None?
      && now.proofEnvHash == Some(b.environmentDigest(receipt.environment))
    case None =>
      && now.proofReceipt == was.proofReceipt && now.staleEnvironment == was.staleEnvironment
      && now.proofEnvHash == was.proofEnvHash
  }

  /** Listed callees are hashed as they were before the update, and clear the stale ones. */
  ghost predicate RecordsCallees(b: Build, m: Store, u: Update, was: Conclusion, now: Conclusion) {
    match u.callees
    case Some(callees) =>
      && now.staleDependencies == []
      && (forall c :: c in now.calleeSpecHashes <==> c in callees)
      && forall c :: c in callees ==> c in now.calleeSpecHashes && IsSpecsHash(b, m, c, now.calleeSpecHashes[c])
    case None => now.staleDependencies == was.staleDependencies && now.calleeSpecHashes == was.calleeSpecHashes
  }

  ghost predicate IsRecorded(b: Build, m: Store, u: Update, was: Conclusion, now: Conclusion) {
    RecordsReport(u, was, now) && RecordsReceipt(b, u, was, now) && RecordsCallees(b, m, u, was, now)
  }

  /** A verdict that may stand: not "verified", or verified with everything that takes. */
  ghost predicate MayStand(b: Build, e: Conclusion) {
    e.status == Verified ==>
      && e.staleDependencies == [] && e.staleEnvironment.None?
      && (forall c :: c in e.callees ==> c in e.calleeSpecHashes)
      && e.wpSummary.Some? && e.proofReceipt.Some?
      && e.wpSummary.value.total > 0 && e.wpSummary.value.valid == e.wpSummary.value.total
      && e.wpSummary.value.unknown == 0 && e.wpSummary.value.timeout == 0 && e.wpSummary.value.failed == 0
      && ProofReceiptEvidenceError(b, e.proofReceipt.value, e.wpSummary.value.total, e.name).None?
  }

  lemma MergedIsRecorded(b: Build, m: Store, u: Update, was: Conclusion)
    requires IsEarlier(m, u.name, was)
    ensures IsRecorded(b, m, u, was, Merged(b, m, u))
  {
  }

  lemma MayStandIff(b: Build, e: Conclusion)
    ensures Validate(b, e).None? <==> MayStand(b, e)
  {
    hide ProofReceiptEvidenceError, IsEvidence;
  }

  /** The fields say everything: no two entries record the same update. */
  lemma OneRecord(b: Build, m: Store, u: Update, was: Conclusion, a: Conclusion, c: Conclusion)
    requires IsRecorded(b, m, u, was, a) && IsRecorded(b, m, u, was, c)
    ensures a == c
  {
    assert a.calleeSpecHashes == c.calleeSpecHashes;
  }

  /**
   * An update is accepted exactly when what it asks for may stand, and then
   * that is the function's entry; refused, nothing changes.
   */
  lemma StoreRecordsTheUpdate(b: Build, w: World, u: Update, was: Conclusion, asked: Conclusion)
    requires IsEarlier(w.conclusions, u.name, was) && IsRecorded(b, w.conclusions, u, was, asked)
    ensures var w' := Step(b, w, StoreUpdate(u));
      if MayStand(b, asked)
      then u.name in w'.conclusions && w'.conclusions[u.name] == asked
        && w'.conclusions.Keys == w.conclusions.Keys + {u.name}
      else w' == w
  {
    hide Merged, Stored, Validate, MayStand, IsRecorded;
    MergedIsRecorded(b, w.conclusions, u, was);
    OneRecord(b, w.conclusions, u, was, asked, Merged(b, w.conclusions, u));
    MayStandIff(b, asked);
    StoredAt(b, w.conclusions, u, u.name);
  }

  // ---- Why an update is refused -----------------------------------------------------------

  /** The reason given is true of what was asked for. */
  ghost predicate IsTrueOf(b: Build, error: StoreError, e: Conclusion) {
    match error
    case StaleCalleeContracts => e.staleDependencies != []
    case StaleProofEnvironment => e.staleEnvironment.Some?
    case MissingCalleeHash => exists c :: c in e.callees && c !in e.calleeSpecHashes
    case MissingWpSummary => e.wpSummary.None?
    case SummaryNotFullyValid =>
      e.wpSummary.Some? &&
        var s := e.wpSummary.value;
        s.total == 0 || s.valid != s.total || s.unknown != 0 || s.timeout != 0 || s.failed != 0
    case MissingReceipt => e.proofReceipt.None?
    case NotEvidence(reason) =>
      && e.proofReceipt.Some? && e.wpSummary.Some?
      && ProofReceiptEvidenceError(b, e.proofReceipt.value, e.wpSummary.value.total, e.name) == Some(reason)
  }

  lemma RefusalIsTrue(b: Build, m: Store, u: Update, was: Conclusion, asked: Conclusion)
    requires IsEarlier(m, u.name, was) && IsRecorded(b, m, u, was, asked) && Validate(b, Merged(b, m, u)).Some?
    ensures asked.status == Verified && IsTrueOf(b, Validate(b, Merged(b, m, u)).value, asked)
  {
    hide ProofReceiptEvidenceError, IsEvidence, Merged, IsRecorded;
    MergedIsRecorded(b, m, u, was);
    OneRecord(b, m, u, was, asked, Merged(b, m, u));
    var e := asked;
    if c :| c in e.callees && c !in e.calleeSpecHashes {
      assert exists c :: c in e.callees && c !in e.calleeSpecHashes;
    }
  }

  // ---- The other entries -------------------------------------------------------------------

  /** Nothing but the two staleness marks and the status. */
  predicate SameReport(e: Conclusion, e': Conclusion) {
    && e'.name == e.name && e'.specs == e.specs && e'.wpSummary == e.wpSummary && e'.notes == e.notes
    && e'.verifyProfile == e.verifyProfile && e'.reproduce == e.reproduce && e'.callees == e.callees
    && e'.calleeSpecHashes == e.calleeSpecHashes && e'.proofReceipt == e.proofReceipt
    && e'.proofEnvHash == e.proofEnvHash && e'.astStmtCount == e.astStmtCount && e'.sandboxClean == e.sandboxClean
    && e'.annotationCount == e.annotationCount && e'.sandboxDeleted == e.sandboxDeleted
  }

  /**
   * A stored update demotes exactly the verified conclusions of others that it
   * makes stale, to in progress; every other status stays, and so does all
   * that was reported.
   */
  lemma OthersAreDemotedIff(b: Build, w: World, u: Update, n: string)
    requires Reachable(b, w) && n in w.conclusions && n != u.name
    ensures n in Step(b, w, StoreUpdate(u)).conclusions
    ensures var e, e' := w.conclusions[n], Step(b, w, StoreUpdate(u)).conclusions[n];
      && SameReport(e, e')
      && (e.status != Verified ==> e'.status == e.status)
      && (e.status == Verified ==>
           e'.status == if e'.staleDependencies != [] || e'.staleEnvironment.Some? then InProgress else Verified)
  {
    hide Merged, Stored, IsEvidence, ProofReceiptEvidenceError;
    ReachableIsOk(b, w);
    assert EntryOk(b, w.conclusions, w.lastEnv, n);
    StoredAt(b, w.conclusions, u, n);
    RefreshedStatus(b, w.conclusions[n], u, b.specsDigest(Merged(b, w.conclusions, u).specs));
  }

  lemma RefreshedStatus(b: Build, e: Conclusion, u: Update, current: string)
    ensures var e' := Refreshed(b, e, u, current);
      && SameReport(e, e')
      && (e.status != Verified ==> e'.status == e.status)
      && (e.status == Verified && e.staleDependencies == [] && e.staleEnvironment.None? ==>
           e'.status == if e'.staleDependencies != [] || e'.staleEnvironment.Some? then InProgress else Verified)
  {
  }

  // ---- Verified can be reached ---------------------------------------------------------------

  /** A report of a whole, fully valid run with its receipt. */
  ghost predicate Supports(b: Build, u: Update) {
    && u.status == Some(Verified) && u.callees.Some? && u.wpSummary.Some? && u.proofReceipt.Some?
    && u.wpSummary.value.total > 0 && u.wpSummary.value == AllValid(u.wpSummary.value.total)
    && ProofReceiptEvidenceError(b, u.proofReceipt.value, u.wpSummary.value.total, u.name).None?
  }

  function AllValid(total: u32): (s: WpSummary) {
    WpSummary(total, total, 0, 0, 0)
  }

  /** From any store at all, a supported report of "verified" is recorded as that. */
  lemma SupportedIsVerified(b: Build, w: World, u: Update)
    requires Supports(b, u) && (u.name in w.conclusions ==> w.conclusions[u.name].name == u.name)
    ensures u.name in Step(b, w, StoreUpdate(u)).conclusions
    ensures Step(b, w, StoreUpdate(u)).conclusions[u.name].status == Verified
  {
    hide ProofReceiptEvidenceError, IsEvidence, Stored;
    var was := Previous(w.conclusions, u.name);
    MergedIsRecorded(b, w.conclusions, u, was);
    var asked := Merged(b, w.conclusions, u);
    StoreRecordsTheUpdate(b, w, u, was, asked);
  }

  /** Such a report exists for every function, from the empty store on. */
  lemma AnyFunctionCanBeVerified(b: Build, f: string) returns (u: Update)
    ensures u.name == f && Supports(b, u)
    ensures f in Step(b, EMPTY, StoreUpdate(u)).conclusions
    ensures Step(b, EMPTY, StoreUpdate(u)).conclusions[f].status == Verified
  {
    var body := Receipt(
      Some(b.receiptSchema), b.receiptShape, None, Some([SourceFile(Some("f.c"), Some("0"))]), Some([true]),
      Some("check"), Some("proved"), false, None, Some([Some(f)]), None);
    var receipt := body.(sha256 := Some(b.bodyDigest(body)));
    assert receipt.(sha256 := None) == body;
    u := Update(f, Some(Verified), None, Some(AllValid(1)), None, Some([]), Some(receipt), None, None);
    SupportedIsVerified(b, EMPTY, u);
  }

  /** A verdict other than "verified" is recorded as it is reported, whatever else is missing. */
  lemma OtherVerdictsAreRecorded(b: Build, w: World, u: Update)
    requires u.status.Some? && u.status.value != Verified
    ensures u.name in Step(b, w, StoreUpdate(u)).conclusions
    ensures Step(b, w, StoreUpdate(u)).conclusions[u.name].status == u.status.value
  {
    hide Stored;
    var was := Previous(w.conclusions, u.name);
    MergedIsRecorded(b, w.conclusions, u, was);
    StoreRecordsTheUpdate(b, w, u, was, Merged(b, w.conclusions, u));
  }

  // ---- Sandbox events ----------------------------------------------------------------------------

  /** The four sandbox fields and the status are all a sandbox event touches. */
  predicate SameEvidence(e: Conclusion, e': Conclusion) {
    && e'.name == e.name && e'.specs == e.specs && e'.wpSummary == e.wpSummary && e'.notes == e.notes
    && e'.verifyProfile == e.verifyProfile && e'.reproduce == e.reproduce && e'.callees == e.callees
    && e'.calleeSpecHashes == e.calleeSpecHashes && e'.staleDependencies == e.staleDependencies
    && e'.proofReceipt == e.proofReceipt && e'.proofEnvHash == e.proofEnvHash
    && e'.staleEnvironment == e.staleEnvironment
  }

  /** A new sandbox is clean, not deleted and without annotations, and the function is worked on again. */
  lemma SandboxStartsOver(b: Build, w: World, name: string, count: Option<u32>, was: Conclusion)
    requires IsEarlier(w.conclusions, name, was)
    ensures var m' := Step(b, w, CreateSandbox(name, count)).conclusions;
      && m'.Keys == w.conclusions.Keys + {name} && SameEvidence(was, m'[name])
      && m'[name].status == InProgress && m'[name].astStmtCount == count
      && m'[name].sandboxClean && m'[name].annotationCount == 0 && !m'[name].sandboxDeleted
      && (forall n :: n in w.conclusions && n != name ==> m'[n] == w.conclusions[n])
  {
  }

  /** So many annotations added to a new sandbox are counted, up to the largest 32-bit number. */
  lemma {:induction false} AnnotationsAreCounted(b: Build, w: World, name: string, count: Option<u32>, added: nat)
    ensures var w' := Run(b, Step(b, w, CreateSandbox(name, count)), Adding(name, added));
      && name in w'.conclusions && w'.conclusions[name].status == InProgress
      && w'.conclusions[name].annotationCount == (if added <= 0xFFFF_FFFF then added else 0xFFFF_FFFF)
      && (w'.conclusions[name].sandboxClean <==> added == 0) && !w'.conclusions[name].sandboxDeleted
  {
    if added > 0 {
      hide WithSandbox;
      AnnotationsAreCounted(b, w, name, count, added - 1);
      var all := Adding(name, added);
      assert all[..|all| - 1] == Adding(name, added - 1);
    }
  }

  function Adding(name: string, n: nat): (ops: seq<Op>) {
    if n == 0 then [] else Adding(name, n - 1) + [AddAnnotation(name)]
  }

  /** Deleting the sandbox marks it deleted and leaves everything else, and every other function. */
  lemma DeletionIsMarked(b: Build, w: World, name: string)
    ensures var m, m' := w.conclusions, Step(b, w, DeleteSandbox(name)).conclusions;
      && m'.Keys == m.Keys
      && (forall n :: n in m && n != name ==> m'[n] == m[n])
      && (name in m ==> m'[name].sandboxDeleted && m'[name].(sandboxDeleted := m[name].sandboxDeleted) == m[name])
  {
  }
}
