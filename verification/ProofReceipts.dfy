/** When a proof receipt is evidence for a verified conclusion. */
module ProofReceipts {
  import opened Outcomes

  datatype SourceFile = SourceFile(path: Option<string>, sha256: Option<string>)

  /** The fields a receipt is judged by; goals holds, per goal, whether it counts as progress. */
  datatype Receipt = Receipt(
    schema: Option<string>,
    shape: string,
    sha256: Option<string>,
    files: Option<seq<SourceFile>>,
    goals: Option<seq<bool>>,
    tool: Option<string>,
    verdict: Option<string>,
    narrowedByProp: bool,
    scope: Option<string>,
    functions: Option<seq<Option<string>>>,
    environment: Option<string>)

  datatype AnnotationEntry = AnnotationEntry(hashLabel: string, acsl: string, derivedFrom: string)

  /** SHA-256 over the three things this build hashes, left uninterpreted, and the shape it writes. */
  datatype Build = Build(
    receiptSchema: string,
    receiptShape: string,
    bodyDigest: Receipt -> string,
    specsDigest: seq<AnnotationEntry> -> string,
    environmentDigest: Option<string> -> string)

  datatype EvidenceError =
    | NotThisBuild
    | MissingSha256
    | Sha256Mismatch
    | NoFileList
    | UnreadableFiles
    | MissingGoals
    | NoGoals
    | GoalCountMismatch
    | GoalsNotDischarged
    | NotFromCheck
    | NotProved(verdict: string)
    | NoVerdict
    | NarrowedByProp
    | FromSandbox
    | NoFunctionList
    | ProvesOtherFunctions

  predicate Named(field: Option<string>) {
    field.Some? && field.value != ""
  }

  function ProofReceiptEvidenceError(b: Build, receipt: Receipt, goalTotal: u32, name: string)
    : (error: Option<EvidenceError>)
    ensures error.None? <==> IsEvidence(b, receipt, goalTotal, name)
  {
    if receipt.schema != Some(b.receiptSchema) || receipt.shape != b.receiptShape then Some(NotThisBuild)
    else if receipt.sha256.None? then Some(MissingSha256)
    else if b.bodyDigest(receipt.(sha256 := None)) != receipt.sha256.value then Some(Sha256Mismatch)
    else if receipt.files.None? then Some(NoFileList)
    else if |receipt.files.value| == 0
      || exists i :: 0 <= i < |receipt.files.value|
                  && (!Named(receipt.files.value[i].path) || !Named(receipt.files.value[i].sha256))
      then Some(UnreadableFiles)
    else if receipt.goals.None? then Some(MissingGoals)
    else if |receipt.goals.value| == 0 then Some(NoGoals)
    else if AsU32(|receipt.goals.value|) != goalTotal then Some(GoalCountMismatch)
    else if false in receipt.goals.value then Some(GoalsNotDischarged)
    else if receipt.tool != Some("check") then Some(NotFromCheck)
    else if receipt.verdict.None? then Some(NoVerdict)
    else if receipt.verdict.value != "proved" then Some(NotProved(receipt.verdict.value))
    else if receipt.narrowedByProp then Some(NarrowedByProp)
    else if receipt.scope == Some("sandbox") then Some(FromSandbox)
    else if receipt.functions.None? then Some(NoFunctionList)
    else if Some(name) !in receipt.functions.value then Some(ProvesOtherFunctions)
    else None
  }

  /**
   * A whole, unedited check of the main program that names the function,
   * hashes every source file and discharges every goal it counts.
   */
  ghost predicate IsEvidence(b: Build, receipt: Receipt, goalTotal: u32, name: string) {
    && receipt.schema == Some(b.receiptSchema) && receipt.shape == b.receiptShape
    && receipt.sha256 == Some(b.bodyDigest(receipt.(sha256 := None)))
    && receipt.files.Some? && receipt.files.value != []
    && (forall file :: file in receipt.files.value ==> Named(file.path) && Named(file.sha256))
    && receipt.goals.Some? && receipt.goals.value != []
    && |receipt.goals.value| % 0x1_0000_0000 == goalTotal
    && (forall progress :: progress in receipt.goals.value ==> progress)
    && receipt.tool == Some("check") && receipt.verdict == Some("proved") && !receipt.narrowedByProp
    && receipt.scope != Some("sandbox")
    && receipt.functions.Some? && Some(name) in receipt.functions.value
  }

  /** The count test compares 32 bits, so it settles the real count only below 2^32 goals. */
  lemma GoalCountIsTotalIff(b: Build, receipt: Receipt, goalTotal: u32, name: string)
    requires ProofReceiptEvidenceError(b, receipt, goalTotal, name).None?
    ensures |receipt.goals.value| == goalTotal <==> |receipt.goals.value| < 0x1_0000_0000
  {
    assert |receipt.goals.value| % 0x1_0000_0000 == goalTotal;
  }

  /** And from there on it is off: 2^32 goals more than the summary counts pass for as many. */
  lemma CountWrapsAround(b: Build, goalTotal: u32, name: string) returns (receipt: Receipt)
    ensures ProofReceiptEvidenceError(b, receipt, goalTotal, name).None?
    ensures |receipt.goals.value| == goalTotal + 0x1_0000_0000
  {
    var goals := seq(goalTotal + 0x1_0000_0000, _ => true);
    var body := Receipt(
      Some(b.receiptSchema), b.receiptShape, None, Some([SourceFile(Some("f.c"), Some("0"))]), Some(goals),
      Some("check"), Some("proved"), false, None, Some([Some(name)]), None);
    receipt := body.(sha256 := Some(b.bodyDigest(body)));
    assert receipt.(sha256 := None) == body;
    assert |goals| % 0x1_0000_0000 == goalTotal;
  }

  // ---- One defect is enough -------------------------------------------------------

  function Sealed(b: Build, receipt: Receipt): (r: Receipt) {
    var body := receipt.(sha256 := None);
    body.(sha256 := Some(b.bodyDigest(body)))
  }

  /** An accepted receipt changed in any way without its seal is refused, unless the digests collide. */
  lemma EditedReceiptIsRefused(b: Build, receipt: Receipt, edited: Receipt, goalTotal: u32, name: string)
    requires ProofReceiptEvidenceError(b, receipt, goalTotal, name).None?
    requires edited.sha256 == receipt.sha256 && edited != receipt
    requires b.bodyDigest(edited.(sha256 := None)) != b.bodyDigest(receipt.(sha256 := None))
    ensures ProofReceiptEvidenceError(b, edited, goalTotal, name).Some?
  {
    assert receipt.sha256.value == b.bodyDigest(receipt.(sha256 := None));
    assert edited.sha256.value != b.bodyDigest(edited.(sha256 := None));
  }

  /**
   * Sealing a receipt again does not help it: one of these things wrong, with
   * all else as in an accepted receipt, and it is refused for that reason.
   */
  lemma OneDefectIsEnough(b: Build, receipt: Receipt, goalTotal: u32, name: string, other: string)
    requires ProofReceiptEvidenceError(b, receipt, goalTotal, name).None?
    ensures var r := receipt;
      && Refuses(b, r.(schema := None), goalTotal, name, NotThisBuild)
      && (other != r.shape ==> Refuses(b, r.(shape := other), goalTotal, name, NotThisBuild))
      && Refuses(b, r.(files := None), goalTotal, name, NoFileList)
      && Refuses(b, r.(files := Some([])), goalTotal, name, UnreadableFiles)
      && Refuses(b, r.(goals := None), goalTotal, name, MissingGoals)
      && Refuses(b, r.(goals := Some([])), goalTotal, name, NoGoals)
      && Refuses(b, r.(goals := Some(r.goals.value + [true])), goalTotal, name, GoalCountMismatch)
      && Refuses(b, r.(goals := Some([false] + r.goals.value[1..])), goalTotal, name, GoalsNotDischarged)
      && (other != "check" ==> Refuses(b, r.(tool := Some(other)), goalTotal, name, NotFromCheck))
      && Refuses(b, r.(tool := None), goalTotal, name, NotFromCheck)
      && (other != "proved" ==> Refuses(b, r.(verdict := Some(other)), goalTotal, name, NotProved(other)))
      && Refuses(b, r.(verdict := None), goalTotal, name, NoVerdict)
      && Refuses(b, r.(narrowedByProp := true), goalTotal, name, NarrowedByProp)
      && Refuses(b, r.(scope := Some("sandbox")), goalTotal, name, FromSandbox)
      && Refuses(b, r.(functions := None), goalTotal, name, NoFunctionList)
      && (other != name ==> Refuses(b, r.(functions := Some([Some(other)])), goalTotal, name, ProvesOtherFunctions))
  {
    OneMoreGoal(|receipt.goals.value|);
    assert false !in receipt.goals.value;
    var goals := [false] + receipt.goals.value[1..];
    assert |goals| == |receipt.goals.value| && goals[0] == false;
    assert forall i :: 0 <= i < |receipt.files.value| ==> receipt.files.value[i] in receipt.files.value;
  }

  predicate Refuses(b: Build, receipt: Receipt, goalTotal: u32, name: string, error: EvidenceError) {
    ProofReceiptEvidenceError(b, Sealed(b, receipt), goalTotal, name) == Some(error)
  }

  lemma OneMoreGoal(n: nat)
    ensures AsU32(n + 1) != AsU32(n)
  {
  }

  /** A file without a path or without a digest spoils the list, wherever it stands. */
  lemma OneUnreadableFileIsEnough(b: Build, receipt: Receipt, goalTotal: u32, name: string, before: seq<SourceFile>,
                                  file: SourceFile, after: seq<SourceFile>)
    requires ProofReceiptEvidenceError(b, receipt, goalTotal, name).None?
    requires file.path.None? || file.path.value == "" || file.sha256.None? || file.sha256.value == ""
    ensures Refuses(b, receipt.(files := Some(before + [file] + after)), goalTotal, name, UnreadableFiles)
  {
    var files := before + [file] + after;
    assert files[|before|] == file;
  }
}
