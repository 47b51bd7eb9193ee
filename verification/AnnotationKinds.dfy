/** What becomes of an entry of the tagged array, by the kind it is tagged with. */
module AnnotationKinds {
  import opened Outcomes
  import opened Numerals
  import opened Annotations
  import opened AnnotationOrigins
  import opened InjectionPlan

  // ---- Kinds and fields --------------------------------------------------------------

  predicate IsListKind(kind: string) {
    || kind == "global" || kind == "behavior" || kind == "requires" || kind == "ensures" || kind == "assigns"
    || kind == "assert" || kind == "loop"
  }

  predicate IsSingleKind(kind: string) {
    kind == "terminates" || kind == "exits" || kind == "decreases"
  }

  predicate IsGroupKind(kind: string) {
    kind == "complete_behaviors" || kind == "disjoint_behaviors"
  }

  predicate IsClauseKind(kind: string) {
    IsListKind(kind) || IsSingleKind(kind) || IsGroupKind(kind)
  }

  predicate IsGhostKind(kind: string) {
    || kind == "ghost_global" || kind == "ghost_formal" || kind == "ghost_lemma_function" || kind == "ghost_loop"
    || kind == "ghost_stmt"
  }

  /** A kind either has a field, a single clause or a list, or is a ghost's, or is unknown. */
  lemma KindsHaveFields(kind: string)
    ensures FieldOf(kind).Some? <==> IsClauseKind(kind)
    ensures FieldOf(kind).Some? ==> (IsSingle(FieldOf(kind).value) <==> IsSingleKind(kind))
    ensures FieldOf(kind).Some? ==>
      (IsGroupKind(kind) <==> FieldOf(kind).value.Complete? || FieldOf(kind).value.Disjoint?)
    ensures IsGhost(kind) <==> IsGhostKind(kind)
    ensures IsClauseKind(kind) ==> !IsGhostKind(kind)
  {
    assert IsGhostKind(kind) ==> |kind| > 6 && kind[1] == 'h';
  }

  lemma Named(name: string, kind: string, rest: string)
    requires name == "proposed_" + kind + rest
    ensures "proposed_" + kind <= name
  {
  }

  lemma ListNamedAfterKind(kind: string)
    requires IsListKind(kind) && FieldOf(kind).Some?
    ensures "proposed_" + kind <= Name(FieldOf(kind).value)
  {
    var name := Name(FieldOf(kind).value);
    if kind == "requires" || kind == "ensures" || kind == "assigns" {
      Named(name, kind, "");
    } else if kind == "loop" {
      Named(name, kind, "_annots");
    } else {
      Named(name, kind, "s");
    }
  }

  lemma SingleNamedAfterKind(kind: string)
    requires IsSingleKind(kind) && FieldOf(kind).Some?
    ensures "proposed_" + kind <= Name(FieldOf(kind).value)
  {
    if kind == "terminates" {
      assert "proposed_terminates" == "proposed_" + "terminates";
    } else if kind == "exits" {
      assert "proposed_exits" == "proposed_" + "exits";
    } else {
      assert "proposed_decreases" == "proposed_" + "decreases";
    }
  }

  lemma GroupNamedAfterKind(kind: string)
    requires IsGroupKind(kind) && FieldOf(kind).Some?
    ensures "proposed_" + kind <= Name(FieldOf(kind).value)
  {
    if kind == "complete_behaviors" {
      assert "proposed_complete_behaviors" == "proposed_" + "complete_behaviors";
    } else {
      assert "proposed_disjoint_behaviors" == "proposed_" + "disjoint_behaviors";
    }
  }

  /** The field of a kind is named after it. */
  lemma FieldIsNamedAfterKind(kind: string)
    requires FieldOf(kind).Some?
    ensures "proposed_" + kind <= Name(FieldOf(kind).value)
  {
    hide FieldOf, Name, IsListKind, IsSingleKind, IsGroupKind, IsGhostKind;
    KindsHaveFields(kind);
    if IsListKind(kind) {
      ListNamedAfterKind(kind);
    } else if IsSingleKind(kind) {
      SingleNamedAfterKind(kind);
    } else {
      GroupNamedAfterKind(kind);
    }
  }

  lemma KindsDiffer(a: string, b: string)
    requires FieldOf(a).Some? && FieldOf(a) == FieldOf(b)
    ensures a == b
  {
  }

  // ---- Reading an entry -----------------------------------------------------------------

  /** A ghost is set aside, a group keeps its names, any other clause its body. */
  lemma EntryReads(i: nat, e: Entry)
    requires e.Object? && e.kind.Some?
    ensures var kind := e.kind.value;
      && (IsGhostKind(kind) ==> Read(i, e) == IsGhostOf(kind))
      && (IsClauseKind(kind) && !IsGroupKind(kind) ==>
           FieldOf(kind).Some? && Read(i, e) == IsFor(FieldOf(kind).value, Body(e.clause), kind))
      && (IsGroupKind(kind) && e.names.Some? && e.names.value.Names? && e.names.value.names != [] ==>
           FieldOf(kind).Some? && Read(i, e) == IsFor(FieldOf(kind).value, Group(e.names.value.names), kind))
  {
    hide FieldOf, IsGhost, IsListKind, IsGhostKind, IsGroupKind, IsSingleKind;
    KindsHaveFields(e.kind.value);
  }

  /** The reason for refusing an entry is true of it. */
  ghost predicate IsTrueOf(error: ExpandError, x0: Fanned, entries: seq<Entry>, i: nat)
    requires i < |entries|
  {
    var e := entries[i];
    match error
    case MustBeObject(_) => e.NotAnObject?
    case MissingKind(_) => e.Object? && e.kind.None?
    case NeedsBehaviors(_) => e.Object? && e.kind.Some? && IsGroupKind(e.kind.value) && e.names.None?
    case MalformedBehaviors(_) =>
      && e.Object? && e.kind.Some? && IsGroupKind(e.kind.value) && e.names.Some?
      && (e.names.value.Malformed? || e.names.value.names == [])
    case UnknownKind(_, kind) => e.Object? && e.kind == Some(kind) && !IsClauseKind(kind) && !IsGhostKind(kind)
    case AtMostOnce(_, kind) =>
      && e.Object? && e.kind == Some(kind) && IsSingleKind(kind) && FieldOf(kind).Some?
      && (FieldOf(kind).value in x0.singles
          || exists j: nat :: j < i && entries[j].Object? && entries[j].kind == Some(kind))
  }

  lemma BadIsTrue(x0: Fanned, entries: seq<Entry>, i: nat)
    requires i < |entries| && Read(i, entries[i]).IsBad?
    ensures IsTrueOf(Read(i, entries[i]).error, x0, entries, i)
  {
    hide FieldOf, IsGhost, IsListKind, IsGhostKind, IsGroupKind, IsSingleKind;
    if entries[i].Object? && entries[i].kind.Some? {
      KindsHaveFields(entries[i].kind.value);
    }
  }

  lemma ForFieldHasKind(entries: seq<Entry>, j: nat, f: Field)
    requires ForField(entries, j, f)
    ensures entries[j].Object? && entries[j].kind.Some? && FieldOf(entries[j].kind.value) == Some(f)
    ensures Read(j, entries[j]).kind == entries[j].kind.value
  {
    hide FieldOf, IsGhost, IsListKind, IsGhostKind, IsGroupKind, IsSingleKind;
  }

  lemma RepeatIsTrue(x0: Fanned, entries: seq<Entry>, i: nat, f: Field, kind: string)
    requires i < |entries| && ForField(entries, i, f) && Read(i, entries[i]).kind == kind && Repeats(x0, entries, i, f)
    ensures IsTrueOf(AtMostOnce(i, kind), x0, entries, i)
  {
    hide FieldOf, Read;
    ForFieldHasKind(entries, i, f);
    KindsHaveFields(kind);
    if f !in x0.singles {
      var j: nat :| j < i && ForField(entries, j, f);
      ForFieldHasKind(entries, j, f);
      KindsDiffer(entries[j].kind.value, kind);
    }
  }

  /** A refused array is refused for something that is true of the first entry that is refused. */
  lemma {:induction false} RefusalIsTrue(x0: Fanned, entries: seq<Entry>)
    requires Expand(x0, entries).Failure?
    ensures var error := Expand(x0, entries).error;
      error.index < |entries| && FirstRefused(x0, entries, error.index) && IsTrueOf(error, x0, entries, error.index)
  {
    hide Read, IsTrueOf, Refused, Repeats, ForField, SinglesExact;
    RefusedIff(x0, entries);
    RefusedInRange(x0, entries);
    var n := |entries| - 1;
    if Expand(x0, entries[..n]).Failure? {
      RefusalIsTrue(x0, entries[..n]);
      TrueOfMore(x0, entries, n, Expand(x0, entries).error);
    } else {
      LastRefusalIsTrue(x0, entries);
    }
  }

  lemma TrueOfMore(x0: Fanned, entries: seq<Entry>, n: nat, error: ExpandError)
    requires n <= |entries| && error.index < n && IsTrueOf(error, x0, entries[..n], error.index)
    ensures IsTrueOf(error, x0, entries, error.index)
  {
    assert forall j :: 0 <= j < n ==> entries[..n][j] == entries[j];
  }

  lemma LastRefusalIsTrue(x0: Fanned, entries: seq<Entry>)
    requires entries != [] && Expand(x0, entries).Failure? && Expand(x0, entries[..|entries| - 1]).Success?
    ensures Expand(x0, entries).error.index == |entries| - 1
    ensures IsTrueOf(Expand(x0, entries).error, x0, entries, |entries| - 1)
  {
    hide Expand, IsTrueOf, Repeats, FieldOf;
    var n := |entries| - 1;
    var x := Expand(x0, entries[..n]).value;
    RefusedIff(x0, entries[..n]);
    LastPlaced(x0, entries);
    ErrorNamesEntry(n, entries[n]);
    match Read(n, entries[n])
    case IsBad(error) => BadIsTrue(x0, entries, n);
    case IsGhostOf(_) =>
    case IsFor(f, v, kind) =>
      SinglesHere(x0, entries, x, f);
      RepeatIsTrue(x0, entries, n, f, kind);
  }

  lemma LastPlaced(x0: Fanned, entries: seq<Entry>)
    requires entries != [] && Expand(x0, entries[..|entries| - 1]).Success?
    ensures var n := |entries| - 1;
      Expand(x0, entries) == Place(Expand(x0, entries[..n]).value, n, entries[n])
  {
    hide Place;
  }

  lemma SinglesHere(x0: Fanned, entries: seq<Entry>, x: Fanned, f: Field)
    requires entries != [] && IsSingle(f) && f in x.singles && SinglesExact(x0, entries[..|entries| - 1], x)
    ensures Repeats(x0, entries, |entries| - 1, f)
  {
    hide Read;
    PrefixAgrees(x0, entries, |entries| - 1);
  }

  // ---- What a kind plans --------------------------------------------------------------------

  /** Attached to the behavior it names if there is one and it is declared; a failure if it is not. */
  ghost predicate IsAttached(item: Item, path: string, kind: AstKind, text: string, told: string,
                             behavior: Option<string>, declared: set<string>, stmtId: Option<int>)
  {
    match behavior
    case None => item == Planned(path, kind, text, [], stmtId)
    case Some(b) =>
      item == if b in declared then Planned(path, kind, text, [b], stmtId)
        else Failed(path, told, UndeclaredBehavior(b))
  }

  function Acsl(c: Clause): (s: string) {
    match c.acsl
    case Some(s) => s
    case None => ""
  }

  /** Every part of a loop in its place: the invariants, the assigns clauses that say something, the variant. */
  ghost predicate PlansLoop(path: string, c: Clause, declared: set<string>, items: seq<Item>) {
    && (forall item :: item in items <==>
         || (exists k: nat :: k < |c.invariants|
               && IsPart(item, path + ".invariants[" + Decimal(k) + "]", c.invariants[k], declared, c.stmtId))
         || (exists k: nat :: k < |c.frames| && !Blank(PartText(c.frames[k]))
               && IsPart(item, path + ".assigns[" + Decimal(k) + "]", c.frames[k], declared, c.stmtId))
         || (c.variant.Some? && !Blank(PartText(c.variant.value))
               && IsPart(item, path + ".variant", c.variant.value, declared, c.stmtId)))
  }

  function PartText(part: Part): (s: string) {
    match part.acsl
    case Some(s) => s
    case None => ""
  }

  ghost predicate IsPart(item: Item, path: string, part: Part, declared: set<string>, stmtId: Option<int>) {
    IsAttached(item, path, Annot, PartText(part), "", part.behavior, declared, stmtId)
  }

  /** The first of the names that is not declared, if any. */
  predicate IsFirstUndeclared(names: seq<string>, declared: set<string>, missing: Option<string>) {
    match missing
    case None => forall i :: 0 <= i < |names| ==> names[i] in declared
    case Some(n) =>
      exists i :: 0 <= i < |names| && names[i] == n && n !in declared && forall j :: 0 <= j < i ==> names[j] in declared
  }

  /** What an entry of this kind is to plan under its path. */
  ghost predicate PlansFor(kind: string, path: string, c: Clause, names: seq<string>, declared: set<string>,
                           items: seq<Item>)
  {
    var text := Acsl(c);
    if kind == "requires" || kind == "ensures" then
      |items| == 1 && IsAttached(items[0], path, Spec, text, text, c.behavior, declared, None)
    else if kind == "assigns" then
      if Blank(text) then items == []
      else |items| == 1 && IsAttached(items[0], path, Spec, text, text, c.behavior, declared, None)
    else if kind == "global" then items == if Blank(text) then [] else [Planned(path, GlobalAnnot, text, [], None)]
    else if IsSingleKind(kind) then items == if Blank(text) then [] else [Planned(path, Spec, text, [], None)]
    else if kind == "assert" then
      items == if Blank(text) then []
        else if c.stmtId.None? then [Failed(path, text, NoStatement)]
        else [Planned(path, Annot, text, [], c.stmtId)]
    else if kind == "loop" then PlansLoop(path, c, declared, items)
    else if IsGroupKind(kind) then
      exists missing :: IsFirstUndeclared(names, declared, missing)
        && items == match missing
                    case Some(n) => [Failed(path, "", UndeclaredBehavior(n))]
                    case None => [Planned(path, Spec, "", names, None)]
    else kind == "behavior" && items == []
  }

  lemma {:induction false} FirstMissingIs(names: seq<string>, declared: set<string>)
    ensures IsFirstUndeclared(names, declared, FirstMissing(names, declared))
  {
    if names != [] && names[0] in declared {
      FirstMissingIs(names[1..], declared);
      match FirstMissing(names, declared)
      case None =>
        forall i | 0 <= i < |names| ensures names[i] in declared {
          assert i > 0 ==> names[1..][i - 1] == names[i];
        }
      case Some(n) =>
        var i :| 0 <= i < |names[1..]| && names[1..][i] == n && forall j :: 0 <= j < i ==> names[1..][j] in declared;
        forall j | 0 <= j < i + 1 ensures names[j] in declared {
          assert j > 0 ==> names[1..][j - 1] == names[j];
        }
        assert names[i + 1] == n;
    }
  }

  lemma ScopedIsAttached(path: string, kind: AstKind, text: string, told: string, behavior: Option<string>,
                         declared: set<string>, stmtId: Option<int>, item: Item)
    ensures item == Scoped(path, kind, text, told, behavior, declared, stmtId)
      <==> IsAttached(item, path, kind, text, told, behavior, declared, stmtId)
  {
  }

  lemma PartItemIsPart(path: string, part: Part, declared: set<string>, stmtId: Option<int>, item: Item)
    ensures item == PartItem(path, part, declared, stmtId) <==> IsPart(item, path, part, declared, stmtId)
    ensures OrEmpty(part.acsl) == PartText(part)
  {
    ScopedIsAttached(path, Annot, PartText(part), "", part.behavior, declared, stmtId, item);
  }

  lemma {:induction false} PartsPlanned(path: string, part: string, parts: seq<Part>, j: nat, skipBlank: bool,
                                        declared: set<string>, stmtId: Option<int>, item: Item)
    ensures item in PartItems(path, part, parts, j, skipBlank, declared, stmtId) <==>
      exists k: nat :: j <= k < |parts| && !(skipBlank && Blank(PartText(parts[k])))
        && item == PartItem(PartPath(path, part, k), parts[k], declared, stmtId)
    decreases |parts| - j
  {
    if j < |parts| {
      hide PartItem, PartPath, Blank;
      PartsPlanned(path, part, parts, j + 1, skipBlank, declared, stmtId, item);
      PartItemIsPart(PartPath(path, part, j), parts[j], declared, stmtId, item);
    }
  }

  lemma LoopIsPlanned(path: string, c: Clause, declared: set<string>)
    ensures PlansLoop(path, c, declared, LoopItems(path, c, declared))
  {
    hide PartItem, Blank, PartItems, IsPart, PartText;
    forall item ensures item in LoopItems(path, c, declared) <==>
         || (exists k: nat :: k < |c.invariants|
               && IsPart(item, path + ".invariants[" + Decimal(k) + "]", c.invariants[k], declared, c.stmtId))
         || (exists k: nat :: k < |c.frames| && !Blank(PartText(c.frames[k]))
               && IsPart(item, path + ".assigns[" + Decimal(k) + "]", c.frames[k], declared, c.stmtId))
         || (c.variant.Some? && !Blank(PartText(c.variant.value))
               && IsPart(item, path + ".variant", c.variant.value, declared, c.stmtId))
    {
      PartsPlanned(path, "invariants", c.invariants, 0, false, declared, c.stmtId, item);
      PartsPlanned(path, "assigns", c.frames, 0, true, declared, c.stmtId, item);
      forall k: nat | k < |c.invariants|
        ensures item == PartItem(PartPath(path, "invariants", k), c.invariants[k], declared, c.stmtId)
          <==> IsPart(item, path + ".invariants[" + Decimal(k) + "]", c.invariants[k], declared, c.stmtId)
      {
        SubPathIs(path, "invariants", ".invariants[", k);
        PartItemIsPart(PartPath(path, "invariants", k), c.invariants[k], declared, c.stmtId, item);
      }
      forall k: nat | k < |c.frames|
        ensures item == PartItem(PartPath(path, "assigns", k), c.frames[k], declared, c.stmtId)
          <==> IsPart(item, path + ".assigns[" + Decimal(k) + "]", c.frames[k], declared, c.stmtId)
      {
        SubPathIs(path, "assigns", ".assigns[", k);
        PartItemIsPart(PartPath(path, "assigns", k), c.frames[k], declared, c.stmtId, item);
      }
      if c.variant.Some? {
        PartItemIsPart(path + ".variant", c.variant.value, declared, c.stmtId, item);
      }
    }
  }

  lemma SubPathIs(path: string, part: string, middle: string, k: nat)
    requires middle == "." + part + "["
    ensures PartPath(path, part, k) == path + middle + Decimal(k) + "]"
  {
    assert path + middle == path + "." + part + "[";
  }

  /** What a kind plans is what its field plans. */
  lemma KindIsPlanned(kind: string, path: string, c: Clause, names: seq<string>, declared: set<string>)
    requires FieldOf(kind).Some?
    ensures var v := if IsGroupKind(kind) then Group(names) else Body(c);
      PlansFor(kind, path, c, names, declared, ItemsOf(FieldOf(kind).value, path, v, declared))
  {
    hide Blank, PlansLoop, LoopItems, FirstMissing, IsFirstUndeclared;
    ScopedIsAttached(path, Spec, Acsl(c), Acsl(c), c.behavior, declared, None,
                     Scoped(path, Spec, Acsl(c), Acsl(c), c.behavior, declared, None));
    LoopIsPlanned(path, c, declared);
    FirstMissingIs(names, declared);
  }

  function NamesOf(e: Entry): (names: seq<string>) {
    match e
    case Object(_, Some(Names(names)), _) => names
    case _ => []
  }

  /**
   * Every clause entry of an accepted array stands under one path, named after
   * its kind, that maps back to it, and what is planned there is what its kind
   * calls for.
   */
  lemma EntryIsPlanned(x0: Fanned, entries: seq<Entry>, i: nat, declared: set<string>) returns (s: Slot)
    requires x0.origin == map[] && x0.ghosts == [] && Expand(x0, entries).Success?
    requires i < |entries| && entries[i].Object? && entries[i].kind.Some? && IsClauseKind(entries[i].kind.value)
    ensures var x, kind := Expand(x0, entries).value, entries[i].kind.value;
      && "proposed_" + kind <= PathOf(s) && PathOf(s) in x.origin && x.origin[PathOf(s)] == i
      && ValueAt(x, s).Some?
      && var items := ItemsOf(s.field, PathOf(s), ValueAt(x, s).value, declared);
         && PlansFor(kind, PathOf(s), entries[i].clause, NamesOf(entries[i]), declared, items)
         && forall item :: item in items ==> item in AllItems(x.lists, x.singles, ORDER, declared)
  {
    hide FieldOf, Name, ItemsOf, PlansFor, Inv, Expand, AllItems, Read, PathOf, IsGhost;
    var x, kind := Expand(x0, entries).value, entries[i].kind.value;
    KindsHaveFields(kind);
    FieldIsNamedAfterKind(kind);
    ExpandKeepsInv(x0, entries);
    ReadIsFor(x0, entries, i);
    s := OwnPlace(x0, entries, x, i);
    PathStartsWithName(s);
    KindIsPlanned(kind, PathOf(s), entries[i].clause, NamesOf(entries[i]), declared);
    forall item | item in ItemsOf(s.field, PathOf(s), ValueAt(x, s).value, declared)
      ensures item in AllItems(x.lists, x.singles, ORDER, declared)
    {
      EveryPositionIsPlanned(x, s, declared, item);
    }
  }

  lemma PathStartsWithName(s: Slot)
    ensures Name(s.field) <= PathOf(s)
  {
    hide Name;
  }

  lemma OwnPlace(x0: Fanned, entries: seq<Entry>, x: Fanned, i: nat) returns (s: Slot)
    requires Inv(x0, entries, x) && i < |entries| && Read(i, entries[i]).IsFor?
    ensures IsSlot(s) && Owns(x, s, i) && ValueAt(x, s).Some?
    ensures Read(i, entries[i]) == IsFor(s.field, ValueAt(x, s).value, Read(i, entries[i]).kind)
  {
    hide PathOf, Read;
    assert OwnsOne(x, i);
    s :| IsSlot(s) && Owns(x, s, i);
  }

  /** An entry of an accepted array was read as its kind says. */
  lemma ReadIsFor(x0: Fanned, entries: seq<Entry>, i: nat)
    requires Expand(x0, entries).Success? && i < |entries| && entries[i].Object? && entries[i].kind.Some?
    requires IsClauseKind(entries[i].kind.value)
    ensures var kind := entries[i].kind.value;
      var v := if IsGroupKind(kind) then Group(NamesOf(entries[i])) else Body(entries[i].clause);
      FieldOf(kind).Some? && Read(i, entries[i]) == IsFor(FieldOf(kind).value, v, kind)
  {
    hide FieldOf, IsGhost, Expand, Repeats;
    RefusedIff(x0, entries);
    assert !Refused(x0, entries, i);
    KindsHaveFields(entries[i].kind.value);
    EntryReads(i, entries[i]);
  }
}
