/** The verdict over several configurations, told on what each check was asked and answered. */
module VariantAnswers {
  import opened Outcomes
  import opened Numerals
  import opened Variants

  // ---- What a variant was checked with -------------------------------------------------

  /** What the load reports it used; without a report, the variant's own setting, else the base's. */
  function DefinesUsed(base: Config, v: Variant, answer: Payload): (defines: seq<string>) {
    match answer.reload
    case Some(reload) => reload.defines
    case None =>
      match v.config.defines
      case Some(defines) => defines
      case None => match base.defines case Some(defines) => defines case None => []
  }

  function MachdepUsed(base: Config, v: Variant, answer: Payload): (machdep: Option<string>) {
    match answer.reload
    case Some(reload) => reload.machdep
    case None => match v.config.machdep case Some(m) => Some(m) case None => base.machdep
  }

  /** The machine is known by the digest of its description if there is one, by its name otherwise. */
  function MachineUsed(base: Config, v: Variant, answer: Payload): (machine: string) {
    match answer.reload
    case Some(Reload(_, _, Some(digest))) => digest
    case _ => match MachdepUsed(base, v, answer) case Some(name) => name case None => ""
  }

  ghost predicate SameInputs(base: Config, v: Variant, a: Payload, w: Variant, b: Payload) {
    DefinesUsed(base, v, a) == DefinesUsed(base, w, b) && MachdepUsed(base, v, a) == MachdepUsed(base, w, b)
  }

  /** The same printed program on the same machine. */
  ghost predicate SameCode(base: Config, v: Variant, a: Payload, w: Variant, b: Payload) {
    a.digest.Some? && a.digest == b.digest && MachineUsed(base, v, a) == MachineUsed(base, w, b)
  }

  ghost predicate IsReport(base: Config, variants: seq<Variant>, answers: seq<Result<Payload, string>>,
                           es: seq<Variants.Entry>)
  {
    && |es| == |variants| == |answers| && AllReport(es, base, variants, answers) && AllMarked(es) && LabelsDistinct(es)
    && forall i :: 0 <= i < |answers| && answers[i].Success? && answers[i].value.digest.Some? ==>
         '\0' !in answers[i].value.digest.value
  }

  lemma EntryIsOfTheAnswer(base: Config, variants: seq<Variant>, answers: seq<Result<Payload, string>>,
                           es: seq<Variants.Entry>, i: nat)
    requires IsReport(base, variants, answers, es) && i < |es|
    ensures answers[i].Success?
    ensures var a := answers[i].value;
      && es[i].inputs == Inputs(DefinesUsed(base, variants[i], a), MachdepUsed(base, variants[i], a))
      && es[i].digest == a.digest && es[i].verdict == a.verdict && Machine(es[i]) == MachineUsed(base, variants[i], a)
  {
    hide AllMarked, LabelsDistinct, Claimed;
    assert Variants.Reports(es, i, base, variants[i], answers[i].value);
  }

  lemma KeysAreOfTheAnswers(base: Config, variants: seq<Variant>, answers: seq<Result<Payload, string>>,
                            es: seq<Variants.Entry>, i: nat, j: nat)
    requires IsReport(base, variants, answers, es) && i < |es| && j < |es|
    ensures answers[i].Success? && answers[j].Success?
    ensures SameProgram(es[i], es[j])
      <==> SameCode(base, variants[i], answers[i].value, variants[j], answers[j].value)
  {
    hide AllReport, AllMarked, LabelsDistinct, Machine, MachineUsed;
    EntryIsOfTheAnswer(base, variants, answers, es, i);
    EntryIsOfTheAnswer(base, variants, answers, es, j);
    if es[i].digest.Some? && es[j].digest.Some? {
      KeyDeterminesProgram(es[i], es[j]);
    }
  }

  /**
   * "proved" over all variants means that every check proved, that each says
   * which program it proved, and that no program came of two configurations.
   */
  lemma ProvedIsOfTheAnswers(base: Config, variants: seq<Variant>, answers: seq<Result<Payload, string>>,
                             es: seq<Variants.Entry>)
    requires IsReport(base, variants, answers, es)
    ensures forall i :: 0 <= i < |answers| ==> answers[i].Success?
    ensures Summarize(es).proved <==>
      && (forall i :: 0 <= i < |answers| ==> answers[i].value.verdict == Some("proved"))
      && (forall i :: 0 <= i < |answers| ==> answers[i].value.digest.Some?)
      && (forall i, j :: 0 <= i < j < |answers| ==> OneConfiguration(base, variants, answers, i, j))
  {
    hide IsReport, Summarize, DefinesUsed, MachdepUsed, MachineUsed, SameCode, ProgramKey;
    AllMarkedIn(base, variants, answers, es);
    ProvedIff(es);
    forall i: nat | i < |es|
      ensures answers[i].Success? && es[i].digest == answers[i].value.digest
      ensures es[i].verdict == answers[i].value.verdict
    {
      EntryIsOfTheAnswer(base, variants, answers, es, i);
    }
    if forall i :: 0 <= i < |es| ==> es[i].digest.Some? {
      forall i: nat, j: nat | i < j < |es|
        ensures OneConfiguration(base, variants, answers, i, j)
          <==> (ProgramKey(es[i]) == ProgramKey(es[j]) ==> es[i].inputs == es[j].inputs)
      {
        EntryIsOfTheAnswer(base, variants, answers, es, i);
        EntryIsOfTheAnswer(base, variants, answers, es, j);
        KeysAreOfTheAnswers(base, variants, answers, es, i, j);
        HasKey(es[i]);
      }
    }
  }

  lemma HasKey(e: Variants.Entry)
    ensures ProgramKey(e).Some? <==> e.digest.Some?
  {
  }

  lemma AllMarkedIn(base: Config, variants: seq<Variant>, answers: seq<Result<Payload, string>>,
                    es: seq<Variants.Entry>)
    requires IsReport(base, variants, answers, es)
    ensures AllMarked(es) && |es| == |variants| == |answers|
  {
  }

  /** Where the programs are the same, so were the inputs. */
  ghost predicate OneConfiguration(base: Config, variants: seq<Variant>, answers: seq<Result<Payload, string>>, i: nat,
                                   j: nat)
    requires |variants| == |answers| && i < |answers| && j < |answers| && answers[i].Success? && answers[j].Success?
  {
    SameCode(base, variants[i], answers[i].value, variants[j], answers[j].value) ==>
      SameInputs(base, variants[i], answers[i].value, variants[j], answers[j].value)
  }

  // ---- Counting on the answers ----------------------------------------------------------

  function Undigested(answers: seq<Result<Payload, string>>): (n: nat) {
    if answers == [] then 0
    else
      Undigested(answers[..|answers| - 1])
      + match answers[|answers| - 1] case Success(a) => (if a.digest == None then 1 else 0) case Failure(_) => 0
  }

  lemma {:induction false} UndigestedAre(es: seq<Variants.Entry>, answers: seq<Result<Payload, string>>)
    requires |es| == |answers|
    requires forall i :: 0 <= i < |es| ==> answers[i].Success? && es[i].digest == answers[i].value.digest
    ensures UnestablishedCount(es) == Undigested(answers)
  {
    if es != [] {
      UndigestedAre(es[..|es| - 1], answers[..|answers| - 1]);
    }
  }

  /** The summary counts the checks without a digest, and says why several variants are not several programs. */
  lemma SummaryIsOfTheAnswers(base: Config, variants: seq<Variant>, answers: seq<Result<Payload, string>>,
                              es: seq<Variants.Entry>)
    requires IsReport(base, variants, answers, es)
    ensures var s := Summarize(es);
      && s.unestablished == Undigested(answers)
      && s.duplicates + s.distinctAsts == |Runs(es)|
      && (s.reason == SameProgramTwice <==> exists i :: 0 <= i < |es| && es[i].duplicateOf.Some?)
      && (s.reason == NotCompared <==> Undigested(answers) > 0 && forall i :: 0 <= i < |es| ==> es[i].duplicateOf.None?)
  {
    hide IsReport, AllMarked, DefinesUsed, MachdepUsed, MachineUsed, Runs, Programs;
    AllMarkedIn(base, variants, answers, es);
    forall i: nat | i < |es| ensures answers[i].Success? && es[i].digest == answers[i].value.digest {
      EntryIsOfTheAnswer(base, variants, answers, es, i);
    }
    UndigestedAre(es, answers);
    DuplicatesAreTheExcess(es);
    NoneCounted(es);
  }

  // ---- Labels ---------------------------------------------------------------------------

  /** The label a variant asks for: its name, or its place. */
  function LabelAsked(v: Variant, i: nat): (s: string) {
    match v.name
    case Some(name) => name
    case None => "variant" + Decimal(i)
  }

  /** A label an earlier variant has is numbered, from the variant's place up, with the first number that is free. */
  lemma TakenLabelIsNumbered(base: Config, variants: seq<Variant>, answers: seq<Result<Payload, string>>,
                             es: seq<Variants.Entry>, i: nat) returns (n: nat)
    requires IsReport(base, variants, answers, es) && i < |es|
    requires exists j :: 0 <= j < i && es[j].name == LabelAsked(variants[i], i)
    ensures n >= i && es[i].name == LabelAsked(variants[i], i) + "#" + Decimal(n)
    ensures forall k: nat :: i <= k < n ==>
      exists j :: 0 <= j < i && es[j].name == LabelAsked(variants[i], i) + "#" + Decimal(k)
  {
    hide EffectiveInputs, AllMarked, LabelsDistinct;
    assert Variants.Reports(es, i, base, variants[i], answers[i].value);
    var asked := LabelAsked(variants[i], i);
    var j :| 0 <= j < i && es[j].name == asked;
    assert es[..i][j] in es[..i];
    n :| n >= i && FirstFree(Labels(es[..i]), asked, i, n) && es[i].name == Suffixed(asked, n);
    forall k: nat | i <= k < n ensures exists j :: 0 <= j < i && es[j].name == asked + "#" + Decimal(k) {
      assert Suffixed(asked, k) in Labels(es[..i]);
      var e :| e in es[..i] && e.name == Suffixed(asked, k);
      var m :| 0 <= m < i && es[..i][m] == e;
      assert es[m].name == asked + "#" + Decimal(k);
    }
  }

  /** As long as nobody asks for the same label twice, everybody gets the one asked for. */
  lemma {:induction false} DistinctLabelsAreKept(base: Config, variants: seq<Variant>,
                                                 answers: seq<Result<Payload, string>>, es: seq<Variants.Entry>, i: nat)
    requires IsReport(base, variants, answers, es) && i < |es|
    requires forall j: nat, k: nat :: j < k < |es| ==> LabelAsked(variants[j], j) != LabelAsked(variants[k], k)
    ensures es[i].name == LabelAsked(variants[i], i)
  {
    hide EffectiveInputs, AllMarked, FirstFree;
    assert Variants.Reports(es, i, base, variants[i], answers[i].value);
    forall j: nat | j < i ensures es[j].name == LabelAsked(variants[j], j) {
      DistinctLabelsAreKept(base, variants, answers, es, j);
    }
    forall e | e in es[..i] ensures e.name != LabelAsked(variants[i], i) {
      var j :| 0 <= j < i && es[..i][j] == e;
      assert es[j].name == LabelAsked(variants[j], j);
    }
  }
}
