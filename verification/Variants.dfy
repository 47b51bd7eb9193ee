/** Checking one program under several configurations, and telling when two of them were the same program. */
module Variants {
  import opened FiniteSets
  import opened Outcomes
  import opened Numerals

  /** What a caller varies that can change the code. The WP model is not in it. */
  datatype Inputs = Inputs(defines: seq<string>, machdep: Option<string>)

  datatype Config = Config(defines: Option<seq<string>>, machdep: Option<string>, model: Option<string>)

  datatype Variant = Variant(name: Option<string>, config: Config)

  datatype Reload = Reload(defines: seq<string>, machdep: Option<string>, machdepDigest: Option<string>)

  /** What one check answered: the verdict, the digest of the printed AST, and what the load used. */
  datatype Payload = Payload(verdict: Option<string>, digest: Option<string>, reload: Option<Reload>)

  datatype Entry = Entry(
    name: string,
    inputs: Inputs,
    machdepDigest: Option<string>,
    verdict: Option<string>,
    digest: Option<string>,
    duplicateOf: Option<string>)

  function Or<T>(a: Option<T>, b: Option<T>): Option<T> {
    if a.Some? then a else b
  }

  // ---- Labels ---------------------------------------------------------------------

  function Suffixed(name: string, n: nat): (s: string) {
    name + "#" + Decimal(n)
  }

  lemma SuffixedInjective(name: string, m: nat, n: nat)
    ensures Suffixed(name, m) == Suffixed(name, n) <==> m == n
  {
    DecimalInjective(m, n);
    var cut := |name + "#"|;
    assert Suffixed(name, m)[cut..] == Decimal(m) && Suffixed(name, n)[cut..] == Decimal(n);
  }

  /** The label itself, or the first numbered one nobody has taken. */
  ghost predicate Claimed(taken: set<string>, name: string, from: nat, got: string) {
    if name !in taken then got == name
    else exists n :: n >= from && FirstFree(taken, name, from, n) && got == Suffixed(name, n)
  }

  ghost predicate FirstFree(taken: set<string>, name: string, from: nat, n: nat) {
    Suffixed(name, n) !in taken && forall k: nat :: from <= k < n ==> Suffixed(name, k) in taken
  }

  method ClaimLabel(taken: set<string>, name: string, from: nat) returns (got: string, taken': set<string>)
    ensures Claimed(taken, name, from, got)
    ensures got !in taken && taken' == taken + {got}
  {
    if name !in taken {
      return name, taken + {name};
    }
    var n := from;
    ghost var tried: set<string> := {};
    while Suffixed(name, n) in taken
      invariant from <= n
      invariant forall k: nat :: from <= k < n ==> Suffixed(name, k) in taken
      invariant tried <= taken && |tried| == n - from
      invariant forall s :: s in tried ==> exists k: nat :: from <= k < n && s == Suffixed(name, k)
      decreases |taken| - |tried|
    {
      var candidate := Suffixed(name, n);
      if candidate in tried {
        var k: nat :| from <= k < n && candidate == Suffixed(name, k);
        SuffixedInjective(name, n, k);
      }
      tried := tried + {candidate};
      SubsetSize(tried, taken);
      n := n + 1;
    }
    got := Suffixed(name, n);
    taken' := taken + {got};
    assert FirstFree(taken, name, from, n);
  }

  // ---- Programs ---------------------------------------------------------------------

  function Machine(e: Entry): (s: string) {
    var m := Or(e.machdepDigest, e.inputs.machdep);
    if m.Some? then m.value else ""
  }

  /** What two variants must share to have analysed the same program. */
  function ProgramKey(e: Entry): (key: Option<string>) {
    if e.digest.None? then None else Some(e.digest.value + "\0" + Machine(e))
  }

  lemma FirstNul(digest: string, rest: string)
    requires '\0' !in digest
    ensures var key := digest + "\0" + rest;
      && (forall i :: 0 <= i < |digest| ==> key[i] != '\0') && key[|digest|] == '\0'
      && key[..|digest|] == digest && key[|digest| + 1..] == rest
  {
  }

  /** Digests hold no NUL, so a key determines the printed AST and the machine. */
  lemma KeyDeterminesProgram(a: Entry, b: Entry)
    requires a.digest.Some? && b.digest.Some? && '\0' !in a.digest.value && '\0' !in b.digest.value
    ensures ProgramKey(a) == ProgramKey(b) <==> a.digest == b.digest && Machine(a) == Machine(b)
  {
    FirstNul(a.digest.value, Machine(a));
    FirstNul(b.digest.value, Machine(b));
  }

  predicate SameProgram(a: Entry, b: Entry) {
    ProgramKey(a).Some? && ProgramKey(a) == ProgramKey(b)
  }

  /** Asked for something new and analysed a program an earlier variant had analysed already. */
  ghost predicate IsDuplicate(es: seq<Entry>, i: nat)
    requires i < |es|
  {
    && (exists j :: 0 <= j < i && SameProgram(es[j], es[i]))
    && (forall j :: 0 <= j < i && SameProgram(es[j], es[i]) ==> es[j].inputs != es[i].inputs)
  }

  ghost predicate IsFirstOfProgram(es: seq<Entry>, j: nat, i: nat)
    requires i < |es|
  {
    j < i && SameProgram(es[j], es[i]) && forall k :: 0 <= k < j ==> !SameProgram(es[k], es[i])
  }

  /** Exactly the duplicates are marked, each with the first variant of its program. */
  ghost predicate Marked(es: seq<Entry>, i: nat)
    requires i < |es|
  {
    && (es[i].duplicateOf.Some? <==> IsDuplicate(es, i))
    && (es[i].duplicateOf.Some? ==>
         exists j: nat :: IsFirstOfProgram(es, j, i) && es[i].duplicateOf.value == es[j].name)
  }

  ghost predicate AllMarked(es: seq<Entry>) {
    forall i: nat :: i < |es| ==> Marked(es, i)
  }

  ghost predicate LabelsDistinct(es: seq<Entry>) {
    forall i, j :: 0 <= i < j < |es| ==> es[i].name != es[j].name
  }

  // ---- The groups the comparison keeps ---------------------------------------------

  type Group = seq<(string, Inputs)>

  predicate Seen(group: Group, inputs: Inputs) {
    exists k :: 0 <= k < |group| && group[k].1 == inputs
  }

  /** The input groups seen with a key so far, each under the name of the variant that brought it. */
  ghost function GroupOf(es: seq<Entry>, key: string): (g: Group) {
    if es == [] then []
    else
      var g, e := GroupOf(es[..|es| - 1], key), es[|es| - 1];
      if ProgramKey(e) == Some(key) && !Seen(g, e.inputs) then g + [(e.name, e.inputs)] else g
  }

  ghost predicate Analysed(es: seq<Entry>, key: string, inputs: Inputs) {
    exists j :: 0 <= j < |es| && ProgramKey(es[j]) == Some(key) && es[j].inputs == inputs
  }

  ghost predicate FirstWithKey(es: seq<Entry>, key: string, j: nat) {
    j < |es| && ProgramKey(es[j]) == Some(key) && forall k :: 0 <= k < j ==> ProgramKey(es[k]) != Some(key)
  }

  lemma {:induction false} GroupMeaning(es: seq<Entry>, key: string)
    ensures forall inputs :: Seen(GroupOf(es, key), inputs) <==> Analysed(es, key, inputs)
    ensures GroupOf(es, key) != [] ==> exists j: nat :: FirstWithKey(es, key, j) && GroupOf(es, key)[0].0 == es[j].name
  {
    if es != [] {
      var before, e := es[..|es| - 1], es[|es| - 1];
      GroupMeaning(before, key);
      var g, g' := GroupOf(before, key), GroupOf(es, key);
      forall inputs ensures Seen(g', inputs) <==> Analysed(es, key, inputs) {
        GroupGrows(es, key, inputs);
      }
      if g != [] {
        var j: nat :| FirstWithKey(before, key, j) && g[0].0 == before[j].name;
        assert FirstWithKey(es, key, j);
      } else if g' != [] {
        assert forall k :: 0 <= k < |before| ==>
          ProgramKey(before[k]) == Some(key) ==> Analysed(before, key, before[k].inputs);
        assert FirstWithKey(es, key, |es| - 1);
      }
    }
  }

  lemma SeenOneMore(g: Group, last: (string, Inputs), inputs: Inputs)
    ensures Seen(g + [last], inputs) <==> Seen(g, inputs) || last.1 == inputs
  {
    if Seen(g, inputs) {
      var k :| 0 <= k < |g| && g[k].1 == inputs;
      assert (g + [last])[k].1 == inputs;
    }
    assert (g + [last])[|g|] == last;
  }

  lemma AnalysedOneMore(es: seq<Entry>, key: string, inputs: Inputs)
    requires es != []
    ensures var before, e := es[..|es| - 1], es[|es| - 1];
      Analysed(es, key, inputs) <==> Analysed(before, key, inputs) || (ProgramKey(e) == Some(key) && e.inputs == inputs)
  {
    hide ProgramKey;
    var before := es[..|es| - 1];
    if Analysed(before, key, inputs) {
      var j :| 0 <= j < |before| && ProgramKey(before[j]) == Some(key) && before[j].inputs == inputs;
      assert es[j] == before[j];
    }
    if Analysed(es, key, inputs) {
      var j :| 0 <= j < |es| && ProgramKey(es[j]) == Some(key) && es[j].inputs == inputs;
      assert j < |es| - 1 ==> before[j] == es[j];
    }
  }

  lemma GroupGrows(es: seq<Entry>, key: string, inputs: Inputs)
    requires es != [] && (Seen(GroupOf(es[..|es| - 1], key), inputs) <==> Analysed(es[..|es| - 1], key, inputs))
    ensures Seen(GroupOf(es, key), inputs) <==> Analysed(es, key, inputs)
  {
    hide Seen, Analysed, ProgramKey;
    var e := es[|es| - 1];
    SeenOneMore(GroupOf(es[..|es| - 1], key), (e.name, e.inputs), inputs);
    AnalysedOneMore(es, key, inputs);
  }

  /** What is read off the groups is what a duplicate is. */
  ghost function MarkFrom(group: Group, inputs: Inputs): (mark: Option<string>) {
    if group != [] && !Seen(group, inputs) then Some(group[0].0) else None
  }

  lemma {:induction false} MarkIsExact(es: seq<Entry>, e: Entry)
    requires e.duplicateOf == if ProgramKey(e).None? then None else MarkFrom(GroupOf(es, ProgramKey(e).value), e.inputs)
    ensures Marked(es + [e], |es|)
  {
    hide GroupOf;
    var all := es + [e];
    if ProgramKey(e).Some? {
      var key := ProgramKey(e).value;
      var g := GroupOf(es, key);
      GroupMeaning(es, key);
      forall j | 0 <= j < |es| && SameProgram(all[j], all[|es|]) ensures Seen(g, all[j].inputs) {
        assert ProgramKey(es[j]) == Some(key);
        assert Analysed(es, key, es[j].inputs);
      }
      if g != [] {
        var j: nat :| FirstWithKey(es, key, j) && g[0].0 == es[j].name;
        assert all[j] == es[j];
        assert SameProgram(all[j], all[|es|]);
        assert IsFirstOfProgram(all, j, |es|) by {
          forall k | 0 <= k < j ensures !SameProgram(all[k], all[|es|]) {
            assert all[k] == es[k];
          }
        }
        if Seen(g, e.inputs) {
          assert Analysed(es, key, e.inputs);
          var k :| 0 <= k < |es| && ProgramKey(es[k]) == Some(key) && es[k].inputs == e.inputs;
          assert SameProgram(all[k], all[|es|]);
        }
      }
    }
  }

  lemma EarlierUnaffected(es: seq<Entry>, e: Entry, i: nat)
    requires i < |es|
    ensures IsDuplicate(es + [e], i) <==> IsDuplicate(es, i)
  {
    hide SameProgram;
    var all := es + [e];
    assert forall j :: 0 <= j < |es| ==> all[j] == es[j];
  }

  lemma MarksStay(es: seq<Entry>, e: Entry)
    requires AllMarked(es) && Marked(es + [e], |es|)
    ensures AllMarked(es + [e])
  {
    forall i: nat | i < |es| ensures Marked(es + [e], i) {
      assert Marked(es, i);
      EarlierUnaffected(es, e, i);
      if es[i].duplicateOf.Some? {
        var j: nat :| IsFirstOfProgram(es, j, i) && es[i].duplicateOf.value == es[j].name;
        assert IsFirstOfProgram(es + [e], j, i);
      }
    }
  }

  // ---- The comparison ------------------------------------------------------------------

  /** What the load used; what was asked for when the load failed. */
  function EffectiveInputs(base: Config, variant: Config, reload: Option<Reload>): (inputs: Inputs) {
    if reload.Some? then Inputs(reload.value.defines, reload.value.machdep)
    else
      var defines := Or(variant.defines, base.defines);
      Inputs(if defines.Some? then defines.value else [], Or(variant.machdep, base.machdep))
  }

  function WantedLabel(variant: Variant, index: nat): (s: string) {
    if variant.name.Some? then variant.name.value else "variant" + Decimal(index)
  }

  function Labels(es: seq<Entry>): (names: set<string>) {
    set e | e in es :: e.name
  }

  /** The entry tells what its check answered, under a label of its own. */
  ghost predicate Reports(es: seq<Entry>, i: nat, base: Config, variant: Variant, answer: Payload)
    requires i < |es|
  {
    && Claimed(Labels(es[..i]), WantedLabel(variant, i), i, es[i].name)
    && es[i].inputs == EffectiveInputs(base, variant.config, answer.reload)
    && es[i].machdepDigest == (if answer.reload.Some? then answer.reload.value.machdepDigest else None)
    && es[i].verdict == answer.verdict && es[i].digest == answer.digest
  }

  ghost predicate AllReport(es: seq<Entry>, base: Config, variants: seq<Variant>, answers: seq<Result<Payload, string>>)
    requires |es| <= |variants| == |answers|
  {
    forall i: nat :: i < |es| ==> answers[i].Success? && Reports(es, i, base, variants[i], answers[i].value)
  }

  lemma ReportsStay(es: seq<Entry>, e: Entry, i: nat, base: Config, variant: Variant, answer: Payload)
    requires i < |es| && Reports(es, i, base, variant, answer)
    ensures Reports(es + [e], i, base, variant, answer)
  {
    assert (es + [e])[..i] == es[..i];
  }

  ghost predicate GroupsOf(es: seq<Entry>, groups: map<string, Group>) {
    forall key :: GroupOf(es, key) == if key in groups then groups[key] else []
  }

  /**
   * Every variant is checked in turn. One check that fails fails the call;
   * otherwise each variant gets an entry, and the entries that repeat an
   * earlier program for new inputs are marked.
   */
  method CheckVariants(base: Config, variants: seq<Variant>, answers: seq<Result<Payload, string>>)
    returns (r: Result<seq<Entry>, string>)
    requires |answers| == |variants|
    ensures r.Failure? <==> exists i :: 0 <= i < |answers| && answers[i].Failure?
    ensures r.Failure? ==>
      exists i :: 0 <= i < |answers| &&
        answers[i] == Failure(r.error) && forall j :: 0 <= j < i ==> answers[j].Success?
    ensures r.Success? ==> |r.value| == |variants| && AllReport(r.value, base, variants, answers)
    ensures r.Success? ==> LabelsDistinct(r.value) && AllMarked(r.value)
  {
    hide Reports, GroupOf, Marked, EffectiveInputs;
    var entries: seq<Entry> := [];
    var groups: map<string, Group> := map[];
    var taken: set<string> := {};
    var i := 0;
    NoGroupsYet();
    while i < |variants|
      invariant i == |entries| <= |variants|
      invariant taken == Labels(entries)
      invariant AllReport(entries, base, variants, answers)
      invariant LabelsDistinct(entries) && AllMarked(entries) && GroupsOf(entries, groups)
    {
      var got;
      got, taken := ClaimLabel(taken, WantedLabel(variants[i], i), i);
      if answers[i].Failure? {
        return Failure(answers[i].error);
      }
      var answer := answers[i].value;
      var inputs := EffectiveInputs(base, variants[i].config, answer.reload);
      var machdepDigest := if answer.reload.Some? then answer.reload.value.machdepDigest else None;
      var entry := Entry(got, inputs, machdepDigest, answer.verdict, answer.digest, None);
      var key := ProgramKey(entry);
      ghost var before := groups;
      if key.Some? {
        var group := if key.value in groups then groups[key.value] else [];
        if !Seen(group, inputs) {
          if group != [] {
            entry := entry.(duplicateOf := Some(group[0].0));
          }
          groups := groups[key.value := group + [(got, inputs)]];
        }
      }
      assert ProgramKey(entry) == key;
      MarkIsExact(entries, entry);
      MarksStay(entries, entry);
      EntryReports(entries, entry, i, base, variants[i], answer);
      forall k: nat | k < i ensures Reports(entries + [entry], k, base, variants[k], answers[k].value) {
        ReportsStay(entries, entry, k, base, variants[k], answers[k].value);
      }
      GroupsGrow(entries, entry, before, groups);
      entries := entries + [entry];
      i := i + 1;
    }
    r := Success(entries);
  }

  lemma NoGroupsYet()
    ensures GroupsOf([], map[])
  {
  }

  lemma EntryReports(es: seq<Entry>, e: Entry, i: nat, base: Config, variant: Variant, answer: Payload)
    requires i == |es| && Claimed(Labels(es), WantedLabel(variant, i), i, e.name)
    requires e.inputs == EffectiveInputs(base, variant.config, answer.reload)
    requires e.machdepDigest == if answer.reload.Some? then answer.reload.value.machdepDigest else None
    requires e.verdict == answer.verdict && e.digest == answer.digest
    ensures Reports(es + [e], i, base, variant, answer)
  {
    hide Claimed;
    assert (es + [e])[..i] == es;
  }

  lemma GroupsGrow(es: seq<Entry>, e: Entry, groups: map<string, Group>, groups': map<string, Group>)
    requires GroupsOf(es, groups)
    requires var key := ProgramKey(e);
      if key.None? then groups' == groups
      else
        var group := if key.value in groups then groups[key.value] else [];
        groups' == if Seen(group, e.inputs) then groups else groups[key.value := group + [(e.name, e.inputs)]]
    ensures GroupsOf(es + [e], groups')
  {
    assert (es + [e])[..|es|] == es;
  }

  // ---- The verdict over all variants ---------------------------------------------------

  function Programs(es: seq<Entry>): (keys: set<string>) {
    set e | e in es && ProgramKey(e).Some? :: ProgramKey(e).value
  }

  /** Each program with each of the inputs that led to it. */
  function Runs(es: seq<Entry>): (runs: set<(string, Inputs)>) {
    set e | e in es && ProgramKey(e).Some? :: (ProgramKey(e).value, e.inputs)
  }

  function DuplicateCount(es: seq<Entry>): (n: nat) {
    if es == [] then 0 else DuplicateCount(es[..|es| - 1]) + if es[|es| - 1].duplicateOf.Some? then 1 else 0
  }

  function UnestablishedCount(es: seq<Entry>): (n: nat) {
    if es == [] then 0 else UnestablishedCount(es[..|es| - 1]) + if es[|es| - 1].digest.None? then 1 else 0
  }

  datatype Reason = SameProgramTwice | NotCompared | NoReason

  datatype Summary = Summary(proved: bool, distinctAsts: nat, duplicates: nat, unestablished: nat, reason: Reason)

  function Summarize(es: seq<Entry>): (r: Summary) {
    var duplicates, unestablished := DuplicateCount(es), UnestablishedCount(es);
    var allProved := forall e :: e in es ==> e.verdict == Some("proved");
    Summary(
      duplicates == 0 && unestablished == 0 && allProved, |Programs(es)|, duplicates, unestablished,
      if duplicates > 0 then SameProgramTwice else if unestablished > 0 then NotCompared else NoReason)
  }

  lemma {:induction false} NoneCounted(es: seq<Entry>)
    ensures DuplicateCount(es) == 0 <==> forall i :: 0 <= i < |es| ==> es[i].duplicateOf.None?
    ensures UnestablishedCount(es) == 0 <==> forall i :: 0 <= i < |es| ==> es[i].digest.Some?
  {
    if es != [] {
      var before := es[..|es| - 1];
      NoneCounted(before);
      assert forall i :: 0 <= i < |before| ==> before[i] == es[i];
    }
  }

  /**
   * The duplicates number the distinct inputs beyond the first of each
   * program: all (program, inputs) pairs less one for every program.
   */
  lemma {:induction false} DuplicatesAreTheExcess(es: seq<Entry>)
    requires AllMarked(es)
    ensures DuplicateCount(es) + |Programs(es)| == |Runs(es)|
  {
    hide Marked, ProgramKey;
    if es != [] {
      var before, e := es[..|es| - 1], es[|es| - 1];
      assert es == before + [e];
      forall i: nat | i < |before| ensures Marked(before, i) {
        assert Marked(es, i);
        MarkOfPrefix(before, e, i);
      }
      DuplicatesAreTheExcess(before);
      assert Marked(es, |es| - 1);
      LastRun(before, e);
      hide Programs, Runs, AllMarked;
      WithOneMore(before, e);
      if ProgramKey(e).Some? {
        OneMore(Programs(before), ProgramKey(e).value);
        OneMore(Runs(before), (ProgramKey(e).value, e.inputs));
      }
    }
  }

  lemma WithOneMore(es: seq<Entry>, e: Entry)
    ensures ProgramKey(e).None? ==> Programs(es + [e]) == Programs(es) && Runs(es + [e]) == Runs(es)
    ensures ProgramKey(e).Some? ==> Programs(es + [e]) == Programs(es) + {ProgramKey(e).value}
    ensures ProgramKey(e).Some? ==> Runs(es + [e]) == Runs(es) + {(ProgramKey(e).value, e.inputs)}
  {
    hide ProgramKey;
  }

  lemma OneMore<T>(s: set<T>, x: T)
    ensures |s + {x}| == |s| + if x in s then 0 else 1
  {
    if x in s {
      assert s + {x} == s;
    }
  }

  lemma MarkOfPrefix(es: seq<Entry>, e: Entry, i: nat)
    requires i < |es| && Marked(es + [e], i)
    ensures Marked(es, i)
  {
    EarlierUnaffected(es, e, i);
    if es[i].duplicateOf.Some? {
      var j: nat :| IsFirstOfProgram(es + [e], j, i) && es[i].duplicateOf.value == (es + [e])[j].name;
      assert IsFirstOfProgram(es, j, i) by {
        forall k | 0 <= k < j ensures !SameProgram(es[k], es[i]) {
          assert (es + [e])[k] == es[k];
        }
      }
    }
  }

  /** The last variant is a duplicate when its program is known and its inputs for it are new. */
  lemma LastRun(es: seq<Entry>, e: Entry)
    requires Marked(es + [e], |es|)
    ensures ProgramKey(e).Some? ==>
      (e.duplicateOf.Some? <==> ProgramKey(e).value in Programs(es) && (ProgramKey(e).value, e.inputs) !in Runs(es))
    ensures ProgramKey(e).Some? && (ProgramKey(e).value, e.inputs) in Runs(es) ==> ProgramKey(e).value in Programs(es)
    ensures ProgramKey(e).None? ==> e.duplicateOf.None?
  {
    hide ProgramKey;
    var all := es + [e];
    assert IsDuplicate(all, |es|) <==> e.duplicateOf.Some?;
    if ProgramKey(e).Some? {
      var key := ProgramKey(e).value;
      if key in Programs(es) {
        var x :| x in es && ProgramKey(x) == Some(key);
        var j :| 0 <= j < |es| && es[j] == x;
        assert SameProgram(all[j], all[|es|]);
      }
      if (key, e.inputs) in Runs(es) {
        var x :| x in es && ProgramKey(x) == Some(key) && x.inputs == e.inputs;
        var j :| 0 <= j < |es| && es[j] == x;
        assert SameProgram(all[j], all[|es|]);
      }
      forall j | 0 <= j < |es| && SameProgram(all[j], all[|es|])
        ensures key in Programs(es) && (all[j].inputs == e.inputs ==> (key, e.inputs) in Runs(es))
      {
        assert es[j] in es;
      }
    }
  }

  /**
   * "proved" says that every variant proved, that each could be compared, and
   * that no two variants reached one program from different inputs.
   */
  lemma ProvedIff(es: seq<Entry>)
    requires AllMarked(es)
    ensures Summarize(es).proved <==>
      && (forall i :: 0 <= i < |es| ==> es[i].verdict == Some("proved"))
      && (forall i :: 0 <= i < |es| ==> es[i].digest.Some?)
      && (forall i, j :: 0 <= i < j < |es| && ProgramKey(es[i]) == ProgramKey(es[j]) ==> es[i].inputs == es[j].inputs)
  {
    NoneCounted(es);
    NoDuplicateIff(es);
  }

  lemma NoDuplicateIff(es: seq<Entry>)
    requires AllMarked(es)
    ensures (forall i :: 0 <= i < |es| ==> es[i].duplicateOf.None?) <==>
      forall i, j :: 0 <= i < j < |es| && SameProgram(es[i], es[j]) ==> es[i].inputs == es[j].inputs
  {
    hide SameProgram;
    if forall i :: 0 <= i < |es| ==> es[i].duplicateOf.None? {
      forall i, j | 0 <= i < j < |es| && SameProgram(es[i], es[j]) ensures es[i].inputs == es[j].inputs {
        SameInputs(es, i, j);
      }
    } else {
      var i: nat :| i < |es| && es[i].duplicateOf.Some?;
      assert Marked(es, i);
      var j :| 0 <= j < i && SameProgram(es[j], es[i]);
    }
  }

  /** Without duplicates, the inputs of a program's variants agree, by descent to the first. */
  lemma {:induction false} SameInputs(es: seq<Entry>, i: nat, j: nat)
    requires AllMarked(es) && i < j < |es| && SameProgram(es[i], es[j])
    requires forall k :: 0 <= k < |es| ==> es[k].duplicateOf.None?
    ensures es[i].inputs == es[j].inputs
    decreases i + j
  {
    assert Marked(es, j);
    var k :| 0 <= k < j && SameProgram(es[k], es[j]) && es[k].inputs == es[j].inputs;
    assert SameProgram(es[k], es[i]) && SameProgram(es[i], es[k]);
    if k < i {
      SameInputs(es, k, i);
    } else if i < k {
      SameInputs(es, i, k);
    }
  }

  ghost predicate NamesOnly(es: seq<Entry>, name: string, j: nat) {
    forall k :: 0 <= k < |es| ==> (es[k].name == name <==> k == j)
  }

  /** The label a duplicate points at names one variant and no other. */
  lemma PointerIsExact(es: seq<Entry>, i: nat)
    requires AllMarked(es) && LabelsDistinct(es) && i < |es| && es[i].duplicateOf.Some?
    ensures exists j: nat :: IsFirstOfProgram(es, j, i) && NamesOnly(es, es[i].duplicateOf.value, j)
  {
    hide SameProgram;
    assert Marked(es, i);
    var j: nat :| IsFirstOfProgram(es, j, i) && es[i].duplicateOf.value == es[j].name;
    assert NamesOnly(es, es[j].name, j);
  }
}
