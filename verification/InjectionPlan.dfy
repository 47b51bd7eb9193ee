/** The plan built from the per-kind fields, and its paths mapped back to the caller's entries. */
module InjectionPlan {
  import opened Outcomes
  import opened Numerals
  import opened Annotations
  import opened AnnotationOrigins
  import opened Selection
  import opened Sorting

  datatype AstKind = GlobalAnnot | Spec | Annot

  datatype Reason = UndeclaredBehavior(name: string) | NoStatement

  /**
   * One outcome of planning: a clause to inject, with the behaviors it is
   * attached to, or a failure. Both carry the internal path they came from.
   */
  datatype Item =
    | Planned(path: string, kind: AstKind, text: string, scope: seq<string>, stmtId: Option<int>)
    | Failed(path: string, text: string, reason: Reason)

  // ---- Reading the fields -----------------------------------------------------------

  predicate IsWhitespace(c: char) {
    var u := c as int;
    0x09 <= u <= 0x0D || u == 0x20 || u == 0x85 || u == 0xA0 || u == 0x1680 || 0x2000 <= u <= 0x200A
    || u == 0x2028 || u == 0x2029 || u == 0x202F || u == 0x205F || u == 0x3000
  }

  predicate Blank(s: string) {
    forall i :: 0 <= i < |s| ==> IsWhitespace(s[i])
  }

  function OrEmpty(s: Option<string>): string {
    if s.Some? then s.value else ""
  }

  function AcslOf(v: Value): (s: string) {
    if v.Body? then OrEmpty(v.clause.acsl) else ""
  }

  /** Where a bare string stands for the clause. */
  function TextOf(v: Value): (s: string) {
    if v.Text? then v.text else AcslOf(v)
  }

  function NamesIn(v: Value): (names: seq<string>) {
    if v.Group? then v.names else []
  }

  /** The behaviors the entries declare; an entry without a name declares none. */
  function Declared(behaviors: seq<Value>): (names: set<string>) {
    set v | v in behaviors && v.Body? && OrEmpty(v.clause.name) != "" :: v.clause.name.value
  }

  // ---- What one value plans ------------------------------------------------------------

  /** A clause, under the behavior it names if that is declared. */
  function Scoped(path: string, kind: AstKind, text: string, reported: string, behavior: Option<string>,
                  declared: set<string>, stmtId: Option<int>): (item: Item)
    ensures item.path == path
  {
    if behavior.None? then Planned(path, kind, text, [], stmtId)
    else if behavior.value in declared then Planned(path, kind, text, [behavior.value], stmtId)
    else Failed(path, reported, UndeclaredBehavior(behavior.value))
  }

  function FirstMissing(names: seq<string>, declared: set<string>): (missing: Option<string>) {
    if names == [] then None
    else if names[0] !in declared then Some(names[0])
    else FirstMissing(names[1..], declared)
  }

  function PartPath(path: string, part: string, j: nat): (s: string) {
    path + "." + part + "[" + Decimal(j) + "]"
  }

  /** A clause of a loop; a failure of it reports no text. */
  function PartItem(path: string, part: Part, declared: set<string>, stmtId: Option<int>): (item: Item)
    ensures item.path == path
  {
    Scoped(path, Annot, OrEmpty(part.acsl), "", part.behavior, declared, stmtId)
  }

  /** The clauses of one part of a loop entry, from a position on. */
  function PartItems(path: string, part: string, parts: seq<Part>, j: nat, skipBlank: bool, declared: set<string>,
                     stmtId: Option<int>): (items: seq<Item>)
    decreases |parts| - j
  {
    if j >= |parts| then []
    else
      var text := OrEmpty(parts[j].acsl);
      var rest := PartItems(path, part, parts, j + 1, skipBlank, declared, stmtId);
      if skipBlank && Blank(text) then rest
      else [PartItem(PartPath(path, part, j), parts[j], declared, stmtId)] + rest
  }

  function VariantItems(path: string, variant: Option<Part>, declared: set<string>, stmtId: Option<int>)
    : (items: seq<Item>)
  {
    if variant.None? || Blank(OrEmpty(variant.value.acsl)) then []
    else [PartItem(path + ".variant", variant.value, declared, stmtId)]
  }

  function LoopItems(path: string, c: Clause, declared: set<string>): (items: seq<Item>) {
    PartItems(path, "invariants", c.invariants, 0, false, declared, c.stmtId)
    + PartItems(path, "assigns", c.frames, 0, true, declared, c.stmtId)
    + VariantItems(path, c.variant, declared, c.stmtId)
  }

  function BehaviorOf(v: Value): Option<string> {
    if v.Body? then v.clause.behavior else None
  }

  /** What a value plans under its path, field by field. */
  function ItemsOf(f: Field, path: string, v: Value, declared: set<string>): (items: seq<Item>) {
    match f
    case Globals => if Blank(TextOf(v)) then [] else [Planned(path, GlobalAnnot, TextOf(v), [], None)]
    case Behaviors => []
    case Preconditions => [Scoped(path, Spec, AcslOf(v), AcslOf(v), BehaviorOf(v), declared, None)]
    case Postconditions => [Scoped(path, Spec, AcslOf(v), AcslOf(v), BehaviorOf(v), declared, None)]
    case Frames =>
      if Blank(AcslOf(v)) then [] else [Scoped(path, Spec, AcslOf(v), AcslOf(v), BehaviorOf(v), declared, None)]
    case Asserts =>
      if Blank(AcslOf(v)) then []
      else if v.clause.stmtId.None? then [Failed(path, AcslOf(v), NoStatement)]
      else [Planned(path, Annot, AcslOf(v), [], v.clause.stmtId)]
    case Loops => if v.Body? then LoopItems(path, v.clause, declared) else []
    case Complete => GroupItems(path, NamesIn(v), declared)
    case Disjoint => GroupItems(path, NamesIn(v), declared)
    case _ => if Blank(TextOf(v)) then [] else [Planned(path, Spec, TextOf(v), [], None)]
  }

  function GroupItems(path: string, names: seq<string>, declared: set<string>): (items: seq<Item>) {
    var missing := FirstMissing(names, declared);
    if missing.Some? then [Failed(path, "", UndeclaredBehavior(missing.value))]
    else [Planned(path, Spec, "", names, None)]
  }

  // ---- The whole plan -------------------------------------------------------------------

  /** Fields in the order the injector takes them. Behaviors are declarations and plan nothing. */
  const ORDER: seq<Field> := [
    Globals, Preconditions, Termination, Measure, Exits, Postconditions, Frames, Complete, Disjoint, Asserts, Loops
  ]

  function ListItems(f: Field, vs: seq<Value>, j: nat, declared: set<string>): (items: seq<Item>)
    decreases |vs| - j
  {
    if j >= |vs| then [] else ItemsOf(f, PathOf(At(f, j)), vs[j], declared) + ListItems(f, vs, j + 1, declared)
  }

  function FieldItems(lists: Lists, singles: Singles, f: Field, declared: set<string>): (items: seq<Item>) {
    if !IsSingle(f) then ListItems(f, ListIn(lists, f), 0, declared)
    else if f in singles then ItemsOf(f, PathOf(Whole(f)), singles[f], declared)
    else []
  }

  function AllItems(lists: Lists, singles: Singles, fields: seq<Field>, declared: set<string>): (items: seq<Item>) {
    if fields == [] then []
    else FieldItems(lists, singles, fields[0], declared) + AllItems(lists, singles, fields[1..], declared)
  }

  predicate IsPlanned(item: Item) {
    item.Planned?
  }

  predicate IsFailed(item: Item) {
    item.Failed?
  }

  function PlanOf(items: seq<Item>): (plan: seq<Item>) {
    Select(items, IsPlanned)
  }

  function FailuresOf(items: seq<Item>): (failures: seq<Item>) {
    Select(items, IsFailed)
  }

  lemma JoinItems(a: seq<Item>, b: seq<Item>)
    ensures PlanOf(a + b) == PlanOf(a) + PlanOf(b) && FailuresOf(a + b) == FailuresOf(a) + FailuresOf(b)
  {
    SelectJoin(a, b, IsPlanned);
    SelectJoin(a, b, IsFailed);
  }

  /** Each item goes to the plan or, without stopping the pass, to the failures. */
  lemma NothingIsDropped(items: seq<Item>, item: Item)
    ensures item in PlanOf(items) <==> item in items && item.Planned?
    ensures item in FailuresOf(items) <==> item in items && item.Failed?
  {
    SelectMembers(items, IsPlanned, item);
    SelectMembers(items, IsFailed, item);
  }

  /** The clauses of one loop entry, one part after the other. */
  method LoopAnnotsToAcsl(path: string, c: Clause, declared: set<string>) returns (items: seq<Item>)
    ensures items == LoopItems(path, c, declared)
  {
    hide PartItem, PartPath, Blank, VariantItems, OrEmpty;
    items := [];
    var j := 0;
    while j < |c.invariants|
      invariant j <= |c.invariants|
      invariant items + PartItems(path, "invariants", c.invariants, j, false, declared, c.stmtId)
        == PartItems(path, "invariants", c.invariants, 0, false, declared, c.stmtId)
    {
      items := items + [PartItem(PartPath(path, "invariants", j), c.invariants[j], declared, c.stmtId)];
      j := j + 1;
    }
    ghost var invariants := items;
    assert items == PartItems(path, "invariants", c.invariants, 0, false, declared, c.stmtId);
    j := 0;
    while j < |c.frames|
      invariant j <= |c.frames|
      invariant items + PartItems(path, "assigns", c.frames, j, true, declared, c.stmtId)
        == invariants + PartItems(path, "assigns", c.frames, 0, true, declared, c.stmtId)
    {
      var frame := c.frames[j];
      if !Blank(OrEmpty(frame.acsl)) {
        items := items + [PartItem(PartPath(path, "assigns", j), frame, declared, c.stmtId)];
      }
      j := j + 1;
    }
    assert items == invariants + PartItems(path, "assigns", c.frames, 0, true, declared, c.stmtId);
    items := items + VariantItems(path, c.variant, declared, c.stmtId);
  }

  method PushAll(plan: seq<Item>, failures: seq<Item>, items: seq<Item>)
    returns (plan': seq<Item>, failures': seq<Item>)
    ensures plan' == plan + PlanOf(items) && failures' == failures + FailuresOf(items)
  {
    plan', failures' := plan, failures;
    var k := 0;
    while k < |items|
      invariant k <= |items|
      invariant plan' + PlanOf(items[k..]) == plan + PlanOf(items)
      invariant failures' + FailuresOf(items[k..]) == failures + FailuresOf(items)
    {
      assert items[k..][1..] == items[k + 1..];
      if items[k].Planned? {
        plan' := plan' + [items[k]];
      } else {
        failures' := failures' + [items[k]];
      }
      k := k + 1;
    }
  }

  /** The list fields are planned entry by entry; one bad entry does not hide the others. */
  method PlanList(f: Field, vs: seq<Value>, declared: set<string>, plan: seq<Item>, failures: seq<Item>)
    returns (plan': seq<Item>, failures': seq<Item>)
    ensures plan' == plan + PlanOf(ListItems(f, vs, 0, declared))
    ensures failures' == failures + FailuresOf(ListItems(f, vs, 0, declared))
  {
    hide ItemsOf, PathOf, LoopItems, PlanOf, FailuresOf;
    plan', failures' := plan, failures;
    NoItems();
    ghost var planned: seq<Item> := [];
    var j := 0;
    while j < |vs|
      invariant j <= |vs|
      invariant planned + ListItems(f, vs, j, declared) == ListItems(f, vs, 0, declared)
      invariant plan' == plan + PlanOf(planned) && failures' == failures + FailuresOf(planned)
    {
      var path := PathOf(At(f, j));
      var items;
      if f.Loops? && vs[j].Body? {
        items := LoopAnnotsToAcsl(path, vs[j].clause, declared);
        LoopsAre(f, path, vs[j], declared);
      } else {
        items := ItemsOf(f, path, vs[j], declared);
      }
      JoinItems(planned, items);
      plan', failures' := PushAll(plan', failures', items);
      planned := planned + items;
      j := j + 1;
    }
    assert planned == ListItems(f, vs, 0, declared);
  }

  lemma NoItems()
    ensures PlanOf([]) == [] && FailuresOf([]) == []
  {
  }

  lemma LoopsAre(f: Field, path: string, v: Value, declared: set<string>)
    ensures f.Loops? && v.Body? ==> ItemsOf(f, path, v, declared) == LoopItems(path, v.clause, declared)
  {
  }

  method PlanFields(lists: Lists, singles: Singles, fields: seq<Field>, declared: set<string>)
    returns (plan: seq<Item>, failures: seq<Item>)
    ensures plan == PlanOf(AllItems(lists, singles, fields, declared))
    ensures failures == FailuresOf(AllItems(lists, singles, fields, declared))
  {
    hide ItemsOf, PathOf, ListItems, PlanOf, FailuresOf;
    plan, failures := [], [];
    NoItems();
    ghost var planned: seq<Item> := [];
    var k := 0;
    while k < |fields|
      invariant k <= |fields|
      invariant planned + AllItems(lists, singles, fields[k..], declared) == AllItems(lists, singles, fields, declared)
      invariant plan == PlanOf(planned) && failures == FailuresOf(planned)
    {
      var f := fields[k];
      assert fields[k..][1..] == fields[k + 1..];
      JoinItems(planned, FieldItems(lists, singles, f, declared));
      if !IsSingle(f) {
        plan, failures := PlanList(f, ListIn(lists, f), declared, plan, failures);
      } else if f in singles {
        plan, failures := PushAll(plan, failures, ItemsOf(f, PathOf(Whole(f)), singles[f], declared));
      }
      planned := planned + FieldItems(lists, singles, f, declared);
      k := k + 1;
    }
    assert planned == AllItems(lists, singles, fields, declared);
  }

  method BuildInjectionPlan(lists: Lists, singles: Singles) returns (plan: seq<Item>, failures: seq<Item>)
    ensures var items := AllItems(lists, singles, ORDER, Declared(ListIn(lists, Behaviors)));
      plan == PlanOf(items) && failures == FailuresOf(items)
  {
    plan, failures := PlanFields(lists, singles, ORDER, Declared(ListIn(lists, Behaviors)));
  }

  // ---- Back to the caller's entries -----------------------------------------------------

  function Label(i: nat): (s: string) {
    "annotations[" + Decimal(i) + "]"
  }

  function FirstDot(path: string): (d: nat)
    ensures d <= |path| && (forall k :: 0 <= k < d ==> path[k] != '.') && (d < |path| ==> path[d] == '.')
  {
    if path == [] || path[0] == '.' then 0 else 1 + FirstDot(path[1..])
  }

  /** The caller's name for an internal path, with the entry it belongs to. */
  function Relabel(path: string, origin: map<string, nat>): (r: Option<(string, nat)>) {
    if path in origin then Some((Label(origin[path]), origin[path]))
    else
      var d := FirstDot(path);
      if d == |path| || path[..d] !in origin then None
      else Some((Label(origin[path[..d]]) + path[d..], origin[path[..d]]))
  }

  /** A path under a position: the position's own, or a part of it. */
  predicate Under(s: Slot, path: string) {
    PathOf(s) <= path && (|path| == |PathOf(s)| || path[|PathOf(s)|] == '.')
  }

  lemma RelabelUnder(s: Slot, path: string, origin: map<string, nat>)
    requires Under(s, path) && (forall key :: key in origin ==> IsPath(key))
    ensures Relabel(path, origin) ==
      if PathOf(s) !in origin then None
      else
        var i := origin[PathOf(s)];
        Some(("annotations[" + Decimal(i) + "]" + path[|PathOf(s)|..], i))
  {
    hide PathOf;
    var head := PathOf(s);
    NoDot(s);
    if |path| == |head| {
      assert path == head && path[|head|..] == [];
      assert Label(if head in origin then origin[head] else 0) + []
        == Label(if head in origin then origin[head] else 0);
    } else {
      assert path[..|head|] == head;
      assert FirstDot(path) == |head|;
      assert path[|head|] == '.' && '.' in path;
      KeysHaveNoDot(path, origin);
    }
  }

  lemma KeysHaveNoDot(path: string, origin: map<string, nat>)
    requires '.' in path && (forall key :: key in origin ==> IsPath(key))
    ensures path !in origin
  {
    hide PathOf;
    if path in origin {
      var s :| IsSlot(s) && PathOf(s) == path;
      NoDot(s);
      assert false;
    }
  }

  /** No path lies under two positions. */
  lemma OnlyOnePosition(s: Slot, t: Slot, path: string)
    requires Under(s, path) && Under(t, path)
    ensures s == t
  {
    hide PathOf;
    NoDot(s);
    NoDot(t);
    HeadIsFirst(PathOf(s), path);
    HeadIsFirst(PathOf(t), path);
    PathsDiffer(s, t);
  }

  lemma HeadIsFirst(head: string, path: string)
    requires '.' !in head && head <= path && (|path| == |head| || path[|head|] == '.')
    ensures head == path[..FirstDot(path)]
  {
  }

  // ---- Items and the positions they come from ------------------------------------------------

  predicate StartsAt(item: Item, path: string) {
    path <= item.path && (|item.path| == |path| || item.path[|path|] == '.')
  }

  lemma {:induction false} PartsStart(path: string, part: string, parts: seq<Part>, j: nat, skipBlank: bool,
                                      declared: set<string>, stmtId: Option<int>, item: Item)
    requires item in PartItems(path, part, parts, j, skipBlank, declared, stmtId)
    ensures StartsAt(item, path)
    decreases |parts| - j
  {
    hide Scoped, Blank;
    var rest := PartItems(path, part, parts, j + 1, skipBlank, declared, stmtId);
    if item in rest {
      PartsStart(path, part, parts, j + 1, skipBlank, declared, stmtId, item);
    } else {
      assert item.path == path + ("." + part + "[" + Decimal(j) + "]");
    }
  }

  lemma ItemsStart(f: Field, path: string, v: Value, declared: set<string>, item: Item)
    requires item in ItemsOf(f, path, v, declared)
    ensures StartsAt(item, path)
  {
    hide PartItems, Blank, Scoped, FirstMissing;
    if f.Loops? && v.Body? {
      var c := v.clause;
      if item in PartItems(path, "invariants", c.invariants, 0, false, declared, c.stmtId) {
        PartsStart(path, "invariants", c.invariants, 0, false, declared, c.stmtId, item);
      } else if item in PartItems(path, "assigns", c.frames, 0, true, declared, c.stmtId) {
        PartsStart(path, "assigns", c.frames, 0, true, declared, c.stmtId, item);
      }
    }
  }

  /** The item is what the value in this position plans. */
  ghost predicate ComesFrom(x: Fanned, s: Slot, item: Item, declared: set<string>) {
    && IsSlot(s) && ValueAt(x, s).Some?
    && item in ItemsOf(s.field, PathOf(s), ValueAt(x, s).value, declared)
  }

  ghost predicate HasSource(x: Fanned, item: Item, declared: set<string>) {
    exists s :: ComesFrom(x, s, item, declared)
  }

  lemma {:induction false} ListItemsComeFrom(x: Fanned, f: Field, j: nat, declared: set<string>, item: Item)
    requires !IsSingle(f) && item in ListItems(f, ListIn(x.lists, f), j, declared)
    ensures HasSource(x, item, declared)
    decreases |ListIn(x.lists, f)| - j
  {
    hide ItemsOf, PathOf;
    var vs := ListIn(x.lists, f);
    if item in ItemsOf(f, PathOf(At(f, j)), vs[j], declared) {
      assert ComesFrom(x, At(f, j), item, declared);
    } else {
      ListItemsComeFrom(x, f, j + 1, declared, item);
    }
  }

  lemma {:induction false} EveryItemHasASource(x: Fanned, fields: seq<Field>, declared: set<string>, item: Item)
    requires item in AllItems(x.lists, x.singles, fields, declared)
    ensures HasSource(x, item, declared)
  {
    hide ItemsOf, PathOf, ListItems;
    var f := fields[0];
    if item in FieldItems(x.lists, x.singles, f, declared) {
      if IsSingle(f) {
        assert ComesFrom(x, Whole(f), item, declared);
      } else {
        ListItemsComeFrom(x, f, 0, declared, item);
      }
    } else {
      EveryItemHasASource(x, fields[1..], declared, item);
    }
  }

  lemma {:induction false} ListItemsAreThere(f: Field, vs: seq<Value>, j: nat, k: nat, declared: set<string>,
                                             item: Item)
    requires j <= k < |vs| && item in ItemsOf(f, PathOf(At(f, k)), vs[k], declared)
    ensures item in ListItems(f, vs, j, declared)
    decreases k - j
  {
    hide ItemsOf, PathOf;
    if j < k {
      ListItemsAreThere(f, vs, j + 1, k, declared, item);
    }
  }

  lemma {:induction false} FieldItemsAreThere(x: Fanned, fields: seq<Field>, f: Field, declared: set<string>,
                                              item: Item)
    requires f in fields && item in FieldItems(x.lists, x.singles, f, declared)
    ensures item in AllItems(x.lists, x.singles, fields, declared)
  {
    hide FieldItems;
    if fields[0] != f {
      FieldItemsAreThere(x, fields[1..], f, declared, item);
    }
  }

  /** And every position is planned: the pass looks at each field but the declarations. */
  lemma EveryPositionIsPlanned(x: Fanned, s: Slot, declared: set<string>, item: Item)
    requires ComesFrom(x, s, item, declared)
    ensures item in AllItems(x.lists, x.singles, ORDER, declared)
  {
    hide PathOf, AllItems;
    OrderIsWhole(s.field);
    if s.At? {
      hide ItemsOf;
      ListItemsAreThere(s.field, ListIn(x.lists, s.field), 0, s.at, declared, item);
    }
    FieldItemsAreThere(x, ORDER, s.field, declared, item);
  }

  lemma OrderIsWhole(f: Field)
    ensures f in ORDER <==> !f.Behaviors?
  {
    assert ORDER[0] == Globals && ORDER[1] == Preconditions && ORDER[2] == Termination && ORDER[3] == Measure;
    assert ORDER[4] == Exits && ORDER[5] == Postconditions && ORDER[6] == Frames && ORDER[7] == Complete;
    assert ORDER[8] == Disjoint && ORDER[9] == Asserts && ORDER[10] == Loops;
  }

  // ---- Relabelling inverts the fan-out ----------------------------------------------------------

  /**
   * A position the fan-out filled gives its paths back under the very entry
   * that said what stands there; one the caller had filled keeps its own.
   */
  ghost predicate MapsBack(x0: Fanned, x: Fanned, entries: seq<Entry>, s: Slot, path: string) {
    if Filled(x0, x, s) then
      exists i: nat :: Owns(x, s, i) && Says(entries, i, s.field, ValueAt(x, s).value)
        && NamedAfter(path, s, i, x.origin)
    else Relabel(path, x.origin) == None
  }

  predicate NamedAfter(path: string, s: Slot, i: nat, origin: map<string, nat>) {
    |PathOf(s)| <= |path| && Relabel(path, origin) == Some(("annotations[" + Decimal(i) + "]" + path[|PathOf(s)|..], i))
  }

  lemma PositionsMapBack(x0: Fanned, entries: seq<Entry>, x: Fanned, s: Slot, path: string)
    requires Inv(x0, entries, x) && IsSlot(s) && ValueAt(x, s).Some? && Under(s, path)
    ensures MapsBack(x0, x, entries, s, path)
  {
    hide PathOf, Relabel, Label, ValueAt, Says;
    RelabelUnder(s, path, x.origin);
    if Filled(x0, x, s) {
      var i := x.origin[PathOf(s)];
      assert Owns(x, s, i);
      assert NamedAfter(path, s, i, x.origin);
    }
  }

  /**
   * Whatever the plan or its failures report comes from one position and no
   * other, and its path maps back to the entry that filled it, loop parts
   * included. No entry's report is lost and none is made up.
   */
  lemma RelabelInvertsFanOut(x0: Fanned, entries: seq<Entry>, item: Item, declared: set<string>)
    requires x0.origin == map[] && x0.ghosts == [] && Expand(x0, entries).Success?
    ensures var x := Expand(x0, entries).value;
      && (item in AllItems(x.lists, x.singles, ORDER, declared) <==> HasSource(x, item, declared))
      && (forall s :: ComesFrom(x, s, item, declared) ==> MapsBack(x0, x, entries, s, item.path))
      && (forall s, t :: ComesFrom(x, s, item, declared) && ComesFrom(x, t, item, declared) ==> s == t)
  {
    hide PathOf, MapsBack, AllItems, Inv, Expand, ItemsOf;
    var x := Expand(x0, entries).value;
    ExpandKeepsInv(x0, entries);
    if item in AllItems(x.lists, x.singles, ORDER, declared) {
      EveryItemHasASource(x, ORDER, declared, item);
    }
    forall s | ComesFrom(x, s, item, declared)
      ensures Under(s, item.path) && MapsBack(x0, x, entries, s, item.path)
      ensures item in AllItems(x.lists, x.singles, ORDER, declared)
    {
      ItemsStart(s.field, PathOf(s), ValueAt(x, s).value, declared, item);
      PositionsMapBack(x0, entries, x, s, item.path);
      EveryPositionIsPlanned(x, s, declared, item);
    }
    forall s, t | ComesFrom(x, s, item, declared) && ComesFrom(x, t, item, declared) ensures s == t {
      OnlyOnePosition(s, t, item.path);
    }
  }

  // ---- One path, one item --------------------------------------------------------------------

  lemma {:induction false} PartIs(path: string, part: string, parts: seq<Part>, j: nat, skipBlank: bool,
                                  declared: set<string>, stmtId: Option<int>, item: Item) returns (k: nat)
    requires item in PartItems(path, part, parts, j, skipBlank, declared, stmtId)
    ensures j <= k < |parts|
    ensures item == PartItem(PartPath(path, part, k), parts[k], declared, stmtId)
    decreases |parts| - j
  {
    hide PartItem, Blank, PartPath;
    if item in PartItems(path, part, parts, j + 1, skipBlank, declared, stmtId) {
      k := PartIs(path, part, parts, j + 1, skipBlank, declared, stmtId, item);
    } else {
      k := j;
    }
  }

  /** The invariants, the assigns clauses and the variant of a loop have sub-paths of their own. */
  lemma PartPathsDiffer(path: string, i: nat, j: nat)
    ensures PartPath(path, "invariants", i) == PartPath(path, "invariants", j) <==> i == j
    ensures PartPath(path, "assigns", i) == PartPath(path, "assigns", j) <==> i == j
    ensures PartPath(path, "invariants", i) != PartPath(path, "assigns", j)
    ensures PartPath(path, "invariants", i) != path + ".variant" && PartPath(path, "assigns", j) != path + ".variant"
  {
    SamePart(path, "invariants", i, j);
    SamePart(path, "assigns", i, j);
    var n := |path|;
    assert PartPath(path, "invariants", i)[n + 1] == 'i' && PartPath(path, "assigns", j)[n + 1] == 'a';
    assert (path + ".variant")[n + 1] == 'v';
  }

  lemma SamePart(path: string, part: string, i: nat, j: nat)
    ensures PartPath(path, part, i) == PartPath(path, part, j) <==> i == j
  {
    var head := path + "." + part + "[";
    var a, b := PartPath(path, part, i), PartPath(path, part, j);
    assert a == head + (Decimal(i) + "]") && b == head + (Decimal(j) + "]");
    assert a[|head|..|a| - 1] == Decimal(i) && b[|head|..|b| - 1] == Decimal(j);
    DecimalInjective(i, j);
  }

  lemma LoopPathsIdentify(path: string, c: Clause, declared: set<string>, a: Item, b: Item)
    requires a in LoopItems(path, c, declared) && b in LoopItems(path, c, declared) && a.path == b.path
    ensures a == b
  {
    hide PartItem, Blank, PartItems, PartPath;
    var k, inA := LoopPartOf(path, c, declared, a);
    var l, inB := LoopPartOf(path, c, declared, b);
    PartPathsDiffer(path, k, l);
    PartPathsDiffer(path, l, k);
  }

  datatype LoopPart = Invariants | Assigns | VariantClause

  /** Which clause of the loop an item is. */
  lemma LoopPartOf(path: string, c: Clause, declared: set<string>, item: Item) returns (k: nat, part: LoopPart)
    requires item in LoopItems(path, c, declared)
    ensures match part
      case Invariants =>
        k < |c.invariants| && item == PartItem(PartPath(path, "invariants", k), c.invariants[k], declared, c.stmtId)
      case Assigns => k < |c.frames| && item == PartItem(PartPath(path, "assigns", k), c.frames[k], declared, c.stmtId)
      case VariantClause => c.variant.Some? && item == PartItem(path + ".variant", c.variant.value, declared, c.stmtId)
  {
    hide PartItem, Blank, PartItems, PartPath;
    k, part := 0, VariantClause;
    if item in PartItems(path, "invariants", c.invariants, 0, false, declared, c.stmtId) {
      k := PartIs(path, "invariants", c.invariants, 0, false, declared, c.stmtId, item);
      part := Invariants;
    } else if item in PartItems(path, "assigns", c.frames, 0, true, declared, c.stmtId) {
      k := PartIs(path, "assigns", c.frames, 0, true, declared, c.stmtId, item);
      part := Assigns;
    }
  }

  /** Two outcomes of planning with one path are the same outcome. */
  lemma PathsIdentifyItems(x: Fanned, declared: set<string>, a: Item, b: Item)
    requires HasSource(x, a, declared) && HasSource(x, b, declared) && a.path == b.path
    ensures a == b
  {
    hide PathOf, ItemsOf;
    var s :| ComesFrom(x, s, a, declared);
    var t :| ComesFrom(x, t, b, declared);
    ItemsStart(s.field, PathOf(s), ValueAt(x, s).value, declared, a);
    ItemsStart(t.field, PathOf(t), ValueAt(x, t).value, declared, b);
    OnlyOnePosition(s, t, a.path);
    OneValuePathsIdentify(s.field, PathOf(s), ValueAt(x, s).value, declared, a, b);
  }

  lemma OneValuePathsIdentify(f: Field, path: string, v: Value, declared: set<string>, a: Item, b: Item)
    requires a in ItemsOf(f, path, v, declared) && b in ItemsOf(f, path, v, declared) && a.path == b.path
    ensures a == b
  {
    hide LoopItems, Blank, Scoped, FirstMissing;
    if f.Loops? && v.Body? {
      LoopPathsIdentify(path, v.clause, declared, a, b);
    }
  }

  // ---- Nothing is listed twice ---------------------------------------------------------------

  lemma {:induction false} PartsDistinct(path: string, part: string, parts: seq<Part>, j: nat, skipBlank: bool,
                                         declared: set<string>, stmtId: Option<int>)
    ensures Distinct(PartItems(path, part, parts, j, skipBlank, declared, stmtId))
    decreases |parts| - j
  {
    if j < |parts| {
      hide PartItem, PartPath, Blank, OrEmpty;
      PartsDistinct(path, part, parts, j + 1, skipBlank, declared, stmtId);
      var first := PartItem(PartPath(path, part, j), parts[j], declared, stmtId);
      var rest := PartItems(path, part, parts, j + 1, skipBlank, declared, stmtId);
      forall item | item in rest ensures item != first {
        var k := PartIs(path, part, parts, j + 1, skipBlank, declared, stmtId, item);
        SamePart(path, part, j, k);
      }
      DistinctAppend([first], rest);
    }
  }

  lemma LoopDistinct(path: string, c: Clause, declared: set<string>)
    ensures Distinct(LoopItems(path, c, declared))
  {
    hide PartItem, PartPath, Blank, PartItems, OrEmpty;
    var a := PartItems(path, "invariants", c.invariants, 0, false, declared, c.stmtId);
    var b := PartItems(path, "assigns", c.frames, 0, true, declared, c.stmtId);
    var v := VariantItems(path, c.variant, declared, c.stmtId);
    PartsDistinct(path, "invariants", c.invariants, 0, false, declared, c.stmtId);
    PartsDistinct(path, "assigns", c.frames, 0, true, declared, c.stmtId);
    forall x | x in a ensures x !in b && x !in v {
      var i := PartIs(path, "invariants", c.invariants, 0, false, declared, c.stmtId, x);
      forall y | y in b ensures y != x {
        var j := PartIs(path, "assigns", c.frames, 0, true, declared, c.stmtId, y);
        PartPathsDiffer(path, i, j);
      }
      PartPathsDiffer(path, i, i);
    }
    forall y | y in b ensures y !in v {
      var j := PartIs(path, "assigns", c.frames, 0, true, declared, c.stmtId, y);
      PartPathsDiffer(path, j, j);
    }
    DistinctAppend(a, b);
    DistinctAppend(a + b, v);
  }

  lemma ValueDistinct(f: Field, path: string, v: Value, declared: set<string>)
    ensures Distinct(ItemsOf(f, path, v, declared))
  {
    hide LoopItems, Blank, Scoped, FirstMissing;
    if f.Loops? && v.Body? {
      LoopDistinct(path, v.clause, declared);
    }
  }

  /** The position a listed item comes from, at j or after it. */
  lemma {:induction false} ListPosition(f: Field, vs: seq<Value>, j: nat, declared: set<string>, item: Item)
      returns (k: nat)
    requires item in ListItems(f, vs, j, declared)
    ensures j <= k < |vs| && Under(At(f, k), item.path)
    decreases |vs| - j
  {
    hide ItemsOf, PathOf;
    if item in ItemsOf(f, PathOf(At(f, j)), vs[j], declared) {
      ItemsStart(f, PathOf(At(f, j)), vs[j], declared, item);
      k := j;
    } else {
      k := ListPosition(f, vs, j + 1, declared, item);
    }
  }

  lemma {:induction false} ListDistinct(f: Field, vs: seq<Value>, j: nat, declared: set<string>)
    ensures Distinct(ListItems(f, vs, j, declared))
    decreases |vs| - j
  {
    if j < |vs| {
      hide ItemsOf, PathOf, Under;
      var here, rest := ItemsOf(f, PathOf(At(f, j)), vs[j], declared), ListItems(f, vs, j + 1, declared);
      ValueDistinct(f, PathOf(At(f, j)), vs[j], declared);
      ListDistinct(f, vs, j + 1, declared);
      forall item | item in here ensures item !in rest {
        StartIsUnder(At(f, j), vs[j], declared, item);
        if item in rest {
          var k := ListPosition(f, vs, j + 1, declared, item);
          OnlyOnePosition(At(f, j), At(f, k), item.path);
        }
      }
      DistinctAppend(here, rest);
    }
  }

  lemma StartIsUnder(s: Slot, v: Value, declared: set<string>, item: Item)
    requires item in ItemsOf(s.field, PathOf(s), v, declared)
    ensures Under(s, item.path)
  {
    hide PathOf, ItemsOf;
    ItemsStart(s.field, PathOf(s), v, declared, item);
  }

  lemma FieldDistinct(lists: Lists, singles: Singles, f: Field, declared: set<string>)
    ensures Distinct(FieldItems(lists, singles, f, declared))
  {
    hide ItemsOf, PathOf, ListItems;
    if !IsSingle(f) {
      ListDistinct(f, ListIn(lists, f), 0, declared);
    } else if f in singles {
      ValueDistinct(f, PathOf(Whole(f)), singles[f], declared);
    }
  }

  lemma FieldPosition(lists: Lists, singles: Singles, f: Field, declared: set<string>, item: Item) returns (s: Slot)
    requires item in FieldItems(lists, singles, f, declared)
    ensures s.field == f && Under(s, item.path)
  {
    hide ItemsOf, PathOf, ListItems, Under;
    if !IsSingle(f) {
      var k := ListPosition(f, ListIn(lists, f), 0, declared, item);
      s := At(f, k);
    } else {
      s := Whole(f);
      StartIsUnder(s, singles[f], declared, item);
    }
  }

  lemma {:induction false} AllPosition(lists: Lists, singles: Singles, fields: seq<Field>, declared: set<string>,
                                       item: Item) returns (s: Slot)
    requires item in AllItems(lists, singles, fields, declared)
    ensures s.field in fields && Under(s, item.path)
  {
    hide FieldItems, Under;
    if item in FieldItems(lists, singles, fields[0], declared) {
      s := FieldPosition(lists, singles, fields[0], declared, item);
    } else {
      s := AllPosition(lists, singles, fields[1..], declared, item);
    }
  }

  lemma {:induction false} AllDistinct(lists: Lists, singles: Singles, fields: seq<Field>, declared: set<string>)
    requires Distinct(fields)
    ensures Distinct(AllItems(lists, singles, fields, declared))
  {
    if fields != [] {
      hide FieldItems, Under;
      var f, more := fields[0], fields[1..];
      var here, rest := FieldItems(lists, singles, f, declared), AllItems(lists, singles, more, declared);
      FieldDistinct(lists, singles, f, declared);
      AllDistinct(lists, singles, more, declared);
      forall item | item in here ensures item !in rest {
        var s := FieldPosition(lists, singles, f, declared, item);
        if item in rest {
          var t := AllPosition(lists, singles, more, declared, item);
          OnlyOnePosition(s, t, item.path);
        }
      }
      DistinctAppend(here, rest);
    }
  }

  lemma OrderDistinct()
    ensures Distinct(ORDER)
  {
  }

  /** The plan and the failures list each outcome once. */
  lemma NothingIsListedTwice(lists: Lists, singles: Singles, declared: set<string>)
    ensures var items := AllItems(lists, singles, ORDER, declared);
      Distinct(items) && Distinct(PlanOf(items)) && Distinct(FailuresOf(items))
  {
    hide AllItems, Distinct;
    var items := AllItems(lists, singles, ORDER, declared);
    OrderDistinct();
    AllDistinct(lists, singles, ORDER, declared);
    SelectDistinct(items, IsPlanned);
    SelectDistinct(items, IsFailed);
  }

  // ---- The account of both outputs -----------------------------------------------------------

  /** The same of what the plan builder returns for the fields the fan-out left: one account, no repeats. */
  lemma PlanAndFailuresMapBack(x0: Fanned, entries: seq<Entry>, plan: seq<Item>, failures: seq<Item>, item: Item)
    requires x0.origin == map[] && x0.ghosts == [] && Expand(x0, entries).Success?
    requires var x := Expand(x0, entries).value;
      var items := AllItems(x.lists, x.singles, ORDER, Declared(ListIn(x.lists, Behaviors)));
      plan == PlanOf(items) && failures == FailuresOf(items)
    ensures var x := Expand(x0, entries).value;
      var declared := Declared(ListIn(x.lists, Behaviors));
      && (item in plan <==> item.Planned? && HasSource(x, item, declared))
      && (item in failures <==> item.Failed? && HasSource(x, item, declared))
      && (forall s :: ComesFrom(x, s, item, declared) ==> MapsBack(x0, x, entries, s, item.path))
    ensures Distinct(plan) && Distinct(failures)
  {
    hide AllItems, Expand, Declared, HasSource, ComesFrom, MapsBack, PlanOf, FailuresOf, Distinct;
    var x := Expand(x0, entries).value;
    var declared := Declared(ListIn(x.lists, Behaviors));
    RelabelInvertsFanOut(x0, entries, item, declared);
    NothingIsListedTwice(x.lists, x.singles, declared);
    NothingIsDropped(AllItems(x.lists, x.singles, ORDER, declared), item);
  }
}
