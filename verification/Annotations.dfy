/**
 * One tagged array of annotations, fanned out into a list per kind, and a
 * record of which entry each list position came from.
 */
module Annotations {
  import opened Outcomes
  import opened Numerals

  /** The internal fields: nine lists, and three that hold at most one clause. */
  datatype Field =
    | Globals | Behaviors | Preconditions | Postconditions | Frames | Asserts | Loops | Complete | Disjoint
    | Termination | Exits | Measure

  predicate IsSingle(f: Field) {
    f.Termination? || f.Exits? || f.Measure?
  }

  function Name(f: Field): (s: string) {
    match f
    case Globals => "proposed_globals"
    case Behaviors => "proposed_behaviors"
    case Preconditions => "proposed_requires"
    case Postconditions => "proposed_ensures"
    case Frames => "proposed_assigns"
    case Asserts => "proposed_asserts"
    case Loops => "proposed_loop_annots"
    case Complete => "proposed_complete_behaviors"
    case Disjoint => "proposed_disjoint_behaviors"
    case Termination => "proposed_terminates"
    case Exits => "proposed_exits"
    case Measure => "proposed_decreases"
  }

  function FieldOf(kind: string): (f: Option<Field>) {
    if kind == "global" then Some(Globals)
    else if kind == "behavior" then Some(Behaviors)
    else if kind == "requires" then Some(Preconditions)
    else if kind == "ensures" then Some(Postconditions)
    else if kind == "assigns" then Some(Frames)
    else if kind == "assert" then Some(Asserts)
    else if kind == "loop" then Some(Loops)
    else if kind == "terminates" then Some(Termination)
    else if kind == "exits" then Some(Exits)
    else if kind == "decreases" then Some(Measure)
    else if kind == "complete_behaviors" then Some(Complete)
    else if kind == "disjoint_behaviors" then Some(Disjoint)
    else None
  }

  predicate IsGhost(kind: string) {
    kind == "ghost_global" || kind == "ghost_formal" || kind == "ghost_lemma_function"
    || kind == "ghost_loop" || kind == "ghost_stmt"
  }

  /** One invariant, assigns or variant clause of a loop entry. */
  datatype Part = Part(acsl: Option<string>, behavior: Option<string>)

  datatype Clause = Clause(
    acsl: Option<string>,
    name: Option<string>,
    behavior: Option<string>,
    stmtId: Option<int>,
    invariants: seq<Part>,
    frames: seq<Part>,
    variant: Option<Part>)

  /** What a field holds: an object, a group of behavior names, or, from a caller of the fields, bare text. */
  datatype Value = Body(clause: Clause) | Group(names: seq<string>) | Text(text: string)

  /** The group of an entry; something else than an array of strings is malformed. */
  datatype Names = Malformed | Names(names: seq<string>)

  datatype Entry = NotAnObject | Object(kind: Option<string>, names: Option<Names>, clause: Clause)

  datatype ExpandError =
    | MustBeObject(index: nat)
    | MissingKind(index: nat)
    | NeedsBehaviors(index: nat)
    | MalformedBehaviors(index: nat)
    | UnknownKind(index: nat, kind: string)
    | AtMostOnce(index: nat, kind: string)

  type Lists = map<Field, seq<Value>>

  type Singles = map<Field, Value>

  datatype Ghost = Ghost(index: nat, kind: string, clause: Clause)

  // ---- Paths ----------------------------------------------------------------------

  /** A position in the per-kind fields. */
  datatype Slot = At(field: Field, at: nat) | Whole(field: Field)

  function PathOf(s: Slot): (path: string) {
    match s
    case At(f, j) => Name(f) + "[" + Decimal(j) + "]"
    case Whole(f) => Name(f)
  }

  predicate Plain(s: string) {
    '[' !in s && '.' !in s
  }

  lemma NamesArePlain(f: Field)
    ensures Plain(Name(f)) && |Name(f)| >= 14
  {
  }

  lemma NamesDiffer(f: Field, g: Field)
    ensures Name(f) == Name(g) <==> f == g
  {
    NameDecides(f);
    NameDecides(g);
  }

  /** Length and two letters tell the names apart. */
  lemma NameDecides(f: Field)
    ensures f == Decided(|Name(f)|, Name(f)[9], Name(f)[12])
  {
  }

  function Decided(length: nat, a: char, b: char): (f: Field) {
    if a == 'g' then Globals
    else if a == 'b' then Behaviors
    else if a == 'r' then Preconditions
    else if a == 'e' then (if length == 14 then Exits else Postconditions)
    else if a == 'a' then (if b == 'i' then Frames else Asserts)
    else if a == 'l' then Loops
    else if a == 'c' then Complete
    else if a == 'd' then (if length == 27 then Disjoint else Measure)
    else Termination
  }

  lemma PathShape(f: Field, j: nat)
    ensures var path, n := PathOf(At(f, j)), |Name(f)|;
      && |path| > n && path[..n] == Name(f) && path[n] == '[' && path[n + 1..] == Decimal(j) + "]"
      && forall i :: 0 <= i < n ==> path[i] != '['
  {
    hide Name;
    NamesArePlain(f);
    assert PathOf(At(f, j)) == Name(f) + ("[" + Decimal(j) + "]");
    assert ("[" + Decimal(j) + "]")[1..] == Decimal(j) + "]";
  }

  /** No two positions share a path. */
  lemma PathsDiffer(s: Slot, t: Slot)
    ensures PathOf(s) == PathOf(t) <==> s == t
  {
    hide Name;
    NamesArePlain(s.field);
    NamesArePlain(t.field);
    NamesDiffer(s.field, t.field);
    if s.At? { PathShape(s.field, s.at); }
    if t.At? { PathShape(t.field, t.at); }
    if PathOf(s) == PathOf(t) {
      if s.At? && t.At? {
        SameListPath(s.field, s.at, t.field, t.at);
      } else if s.At? || t.At? {
        ListPathHasBracket(s);
        ListPathHasBracket(t);
      }
    }
  }

  lemma ListPathHasBracket(s: Slot)
    ensures '[' in PathOf(s) <==> s.At?
  {
    hide Name;
    NamesArePlain(s.field);
    if s.At? {
      PathShape(s.field, s.at);
      assert PathOf(s)[|Name(s.field)|] == '[';
    }
  }

  lemma SameListPath(f: Field, i: nat, g: Field, j: nat)
    requires PathOf(At(f, i)) == PathOf(At(g, j))
    ensures f == g && i == j
  {
    hide Name;
    var path := PathOf(At(f, i));
    var m, n := |Name(f)|, |Name(g)|;
    PathShape(f, i);
    PathShape(g, j);
    NamesDiffer(f, g);
    var rest := path[m + 1..];
    assert rest[..|rest| - 1] == Decimal(i) && rest[..|rest| - 1] == Decimal(j);
    DecimalInjective(i, j);
  }

  lemma NoDot(s: Slot)
    ensures '.' !in PathOf(s)
  {
    hide Name;
    NamesArePlain(s.field);
    if s.At? {
      DecimalHasNoDot(s.at);
    }
  }

  lemma DecimalHasNoDot(n: nat)
    ensures '.' !in Decimal(n)
  {
    assert AllDigits(Decimal(n));
  }

  // ---- Fanning out one entry -------------------------------------------------------------

  /** The lists and single clauses, where each new one came from, and the ghost entries set aside. */
  datatype Fanned = Fanned(lists: Lists, singles: Singles, origin: map<string, nat>, ghosts: seq<Ghost>)

  function ListIn(lists: Lists, f: Field): (vs: seq<Value>) {
    if f in lists then lists[f] else []
  }

  function GroupNames(index: nat, names: Option<Names>): (r: Result<Value, ExpandError>) {
    if names.None? then Failure(NeedsBehaviors(index))
    else if names.value.Malformed? || names.value.names == [] then Failure(MalformedBehaviors(index))
    else Success(Group(names.value.names))
  }

  /** What an entry says: a ghost, or a value for one field. */
  datatype Reading
    = IsGhostOf(kind: string)
    | IsFor(field: Field, value: Value, kind: string)
    | IsBad(error: ExpandError)

  function Read(index: nat, e: Entry): (r: Reading) {
    if e.NotAnObject? then IsBad(MustBeObject(index))
    else if e.kind.None? then IsBad(MissingKind(index))
    else
      var kind := e.kind.value;
      if IsGhost(kind) then IsGhostOf(kind)
      else
        match FieldOf(kind)
        case None => IsBad(UnknownKind(index, kind))
        case Some(f) =>
          if f.Complete? || f.Disjoint? then
            var group := GroupNames(index, e.names);
            if group.Failure? then IsBad(group.error) else IsFor(f, group.value, kind)
          else IsFor(f, Body(e.clause), kind)
  }

  function NewSlot(x: Fanned, f: Field): (s: Slot) {
    if IsSingle(f) then Whole(f) else At(f, |ListIn(x.lists, f)|)
  }

  function Put(x: Fanned, f: Field, v: Value, index: nat): (x': Fanned) {
    var origin := x.origin[PathOf(NewSlot(x, f)) := index];
    if IsSingle(f) then x.(singles := x.singles[f := v], origin := origin)
    else x.(lists := x.lists[f := ListIn(x.lists, f) + [v]], origin := origin)
  }

  function Place(x: Fanned, index: nat, e: Entry): (r: Result<Fanned, ExpandError>) {
    match Read(index, e)
    case IsBad(error) => Failure(error)
    case IsGhostOf(kind) => Success(x.(ghosts := x.ghosts + [Ghost(index, kind, e.clause)]))
    case IsFor(f, v, kind) =>
      if IsSingle(f) && f in x.singles then Failure(AtMostOnce(index, kind)) else Success(Put(x, f, v, index))
  }

  /** The entries in order, up to the first that is refused. */
  function Expand(x: Fanned, entries: seq<Entry>): (r: Result<Fanned, ExpandError>) {
    if entries == [] then Success(x)
    else
      var before := Expand(x, entries[..|entries| - 1]);
      if before.Failure? then before else Place(before.value, |entries| - 1, entries[|entries| - 1])
  }

  class Params {
    var annotations: Option<seq<Entry>>
    var lists: Lists
    var singles: Singles

    /**
     * Takes the tagged array out and appends its entries to the per-kind
     * fields. A caller of the fields alone gets an empty origin map.
     */
    method ExpandTagged() returns (r: Result<(map<string, nat>, seq<Ghost>), ExpandError>)
      modifies this
      ensures annotations.None?
      ensures old(annotations).None? ==> r == Success((map[], [])) && lists == old(lists) && singles == old(singles)
      ensures old(annotations).Some? ==>
        var all := Expand(Fanned(old(lists), old(singles), map[], []), old(annotations).value);
        if all.Failure? then r == Failure(all.error)
        else r == Success((all.value.origin, all.value.ghosts))
               && lists == all.value.lists && singles == all.value.singles
    {
      if annotations.None? {
        return Success((map[], []));
      }
      var entries := annotations.value;
      annotations := None;
      var origin: map<string, nat> := map[];
      var ghosts: seq<Ghost> := [];
      ghost var start := Fanned(lists, singles, map[], []);
      var index := 0;
      while index < |entries|
        invariant index <= |entries| && annotations.None?
        invariant Expand(start, entries[..index]) == Success(Fanned(lists, singles, origin, ghosts))
      {
        var entry := entries[index];
        ghost var now := Fanned(lists, singles, origin, ghosts);
        OneMore(start, entries, index);
        match Read(index, entry) {
          case IsBad(error) =>
            FirstRefusal(start, entries, index + 1);
            return Failure(error);
          case IsGhostOf(kind) =>
            ghosts := ghosts + [Ghost(index, kind, entry.clause)];
          case IsFor(f, v, kind) =>
            if IsSingle(f) {
              if f in singles {
                FirstRefusal(start, entries, index + 1);
                return Failure(AtMostOnce(index, kind));
              }
              origin := origin[Name(f) := index];
              singles := singles[f := v];
            } else {
              var list := ListIn(lists, f);
              origin := origin[PathOf(At(f, |list|)) := index];
              lists := lists[f := list + [v]];
            }
        }
        index := index + 1;
      }
      assert entries[..index] == entries;
      r := Success((origin, ghosts));
    }
  }

  lemma OneMore(x: Fanned, entries: seq<Entry>, index: nat)
    requires index < |entries|
    ensures Expand(x, entries[..index + 1]) ==
      var before := Expand(x, entries[..index]);
      if before.Failure? then before else Place(before.value, index, entries[index])
  {
    assert entries[..index + 1][..index] == entries[..index];
  }

  lemma {:induction false} FirstRefusal(x: Fanned, entries: seq<Entry>, upTo: nat)
    requires upTo <= |entries| && Expand(x, entries[..upTo]).Failure?
    ensures Expand(x, entries) == Expand(x, entries[..upTo])
    decreases |entries| - upTo
  {
    if upTo == |entries| {
      assert entries[..upTo] == entries;
    } else {
      OneMore(x, entries, upTo);
      FirstRefusal(x, entries, upTo + 1);
    }
  }
}
