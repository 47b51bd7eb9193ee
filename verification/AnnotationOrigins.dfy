/** Which entry owns which position after the fan-out. */
module AnnotationOrigins {
  import opened Outcomes
  import opened Annotations

  predicate IsSlot(s: Slot) {
    s.Whole? <==> IsSingle(s.field)
  }

  function ValueAt(x: Fanned, s: Slot): (v: Option<Value>) {
    match s
    case At(f, j) => if j < |ListIn(x.lists, f)| then Some(ListIn(x.lists, f)[j]) else None
    case Whole(f) => if f in x.singles then Some(x.singles[f]) else None
  }

  /** Filled by the fan-out rather than by the caller. */
  predicate Filled(x0: Fanned, x: Fanned, s: Slot) {
    IsSlot(s) && ValueAt(x, s).Some? && ValueAt(x0, s).None?
  }

  predicate Owns(x: Fanned, s: Slot, i: nat) {
    PathOf(s) in x.origin && x.origin[PathOf(s)] == i
  }

  /** What the caller had put in a field stays where it was. */
  ghost predicate Keeps(x0: Fanned, x: Fanned) {
    forall s :: IsSlot(s) && ValueAt(x0, s).Some? ==> ValueAt(x, s) == ValueAt(x0, s)
  }

  /** A position has an owner exactly when the fan-out filled it, and nothing else has one. */
  ghost predicate OwnedIffFilled(x0: Fanned, x: Fanned) {
    && (forall s :: IsSlot(s) ==> (PathOf(s) in x.origin <==> Filled(x0, x, s)))
    && (forall path :: path in x.origin ==> IsPath(path))
  }

  ghost predicate IsPath(path: string) {
    exists s :: IsSlot(s) && PathOf(s) == path
  }

  predicate Says(entries: seq<Entry>, i: nat, f: Field, v: Value) {
    i < |entries| && Read(i, entries[i]).IsFor? && Read(i, entries[i]).field == f && Read(i, entries[i]).value == v
  }

  /** An owner said what stands in the position it owns. */
  ghost predicate OwnersSaid(entries: seq<Entry>, x: Fanned) {
    forall s, i :: IsSlot(s) && Owns(x, s, i) ==> ValueAt(x, s).Some? && Says(entries, i, s.field, ValueAt(x, s).value)
  }

  ghost predicate OneEach(x: Fanned) {
    forall s, t, i :: IsSlot(s) && IsSlot(t) && Owns(x, s, i) && Owns(x, t, i) ==> s == t
  }

  ghost predicate OwnsOne(x: Fanned, i: nat) {
    exists s :: IsSlot(s) && Owns(x, s, i)
  }

  /** Every clause entry owns a position. */
  ghost predicate AllPlaced(entries: seq<Entry>, x: Fanned) {
    forall i: nat :: i < |entries| && Read(i, entries[i]).IsFor? ==> OwnsOne(x, i)
  }

  function GhostsOf(entries: seq<Entry>): (ghosts: seq<Ghost>) {
    if entries == [] then []
    else
      var i := |entries| - 1;
      var r := Read(i, entries[i]);
      GhostsOf(entries[..i]) + if r.IsGhostOf? && entries[i].Object? then [Ghost(i, r.kind, entries[i].clause)] else []
  }

  ghost predicate Inv(x0: Fanned, entries: seq<Entry>, x: Fanned) {
    && Keeps(x0, x) && OwnedIffFilled(x0, x) && OwnersSaid(entries, x) && OneEach(x) && AllPlaced(entries, x)
    && x.ghosts == GhostsOf(entries)
  }

  lemma PutChanges(x: Fanned, f: Field, v: Value, i: nat, s: Slot)
    requires IsSlot(s) && (IsSingle(f) ==> f !in x.singles)
    ensures IsSlot(NewSlot(x, f)) && NewSlot(x, f).field == f
    ensures ValueAt(x, NewSlot(x, f)).None?
    ensures ValueAt(Put(x, f, v, i), s) == if s == NewSlot(x, f) then Some(v) else ValueAt(x, s)
    ensures forall k :: Owns(Put(x, f, v, i), s, k) <==> if s == NewSlot(x, f) then k == i else Owns(x, s, k)
    ensures PathOf(s) in Put(x, f, v, i).origin <==> s == NewSlot(x, f) || PathOf(s) in x.origin
  {
    hide PathOf;
    PathsDiffer(s, NewSlot(x, f));
  }

  /** One position more is filled, and owned by the entry at hand. */
  ghost predicate Adds(x: Fanned, x': Fanned, slot: Slot, v: Value, n: nat) {
    && IsSlot(slot) && ValueAt(x, slot).None?
    && forall s :: IsSlot(s) ==> AddsAt(x, x', slot, v, n, s)
  }

  ghost predicate AddsAt(x: Fanned, x': Fanned, slot: Slot, v: Value, n: nat, s: Slot) {
    && ValueAt(x', s) == (if s == slot then Some(v) else ValueAt(x, s))
    && (PathOf(s) in x'.origin <==> s == slot || PathOf(s) in x.origin)
    && forall k :: Owns(x', s, k) <==> if s == slot then k == n else Owns(x, s, k)
  }

  lemma PutAdds(x: Fanned, f: Field, v: Value, n: nat)
    requires IsSingle(f) ==> f !in x.singles
    ensures Adds(x, Put(x, f, v, n), NewSlot(x, f), v, n) && NewSlot(x, f).field == f
  {
    hide PathOf, Put, ValueAt, Owns;
    PutChanges(x, f, v, n, NewSlot(x, f));
    forall s | IsSlot(s) ensures AddsAt(x, Put(x, f, v, n), NewSlot(x, f), v, n, s) {
      PutChanges(x, f, v, n, s);
    }
  }

  lemma KeepsAfter(x0: Fanned, x: Fanned, x': Fanned, slot: Slot, v: Value, n: nat)
    requires Adds(x, x', slot, v, n) && Keeps(x0, x) && OwnedIffFilled(x0, x)
    ensures Keeps(x0, x')
    ensures forall s :: IsSlot(s) ==> (PathOf(s) in x'.origin <==> Filled(x0, x', s))
  {
    hide PathOf, ValueAt, Owns;
    assert Filled(x0, x', slot);
    assert forall s :: IsSlot(s) ==> AddsAt(x, x', slot, v, n, s);
  }

  lemma OwnersAfter(entries: seq<Entry>, e: Entry, x: Fanned, x': Fanned, slot: Slot, v: Value)
    requires Adds(x, x', slot, v, |entries|) && OwnersSaid(entries, x) && OneEach(x)
    requires Says(entries + [e], |entries|, slot.field, v)
    ensures OwnersSaid(entries + [e], x') && OneEach(x')
  {
    hide PathOf, ValueAt, Owns, Read;
    var n, all := |entries|, entries + [e];
    forall s, i: nat | IsSlot(s) && Owns(x', s, i)
      ensures ValueAt(x', s).Some? && Says(all, i, s.field, ValueAt(x', s).value)
    {
      assert AddsAt(x, x', slot, v, n, s);
      if s != slot {
        assert Says(entries, i, s.field, ValueAt(x, s).value);
        assert all[i] == entries[i];
      }
    }
    forall s, t, i: nat | IsSlot(s) && IsSlot(t) && Owns(x', s, i) && Owns(x', t, i) ensures s == t {
      assert AddsAt(x, x', slot, v, n, s) && AddsAt(x, x', slot, v, n, t);
      assert s != slot && Owns(x, s, i) ==> Says(entries, i, s.field, ValueAt(x, s).value);
      assert t != slot && Owns(x, t, i) ==> Says(entries, i, t.field, ValueAt(x, t).value);
    }
  }

  lemma PlacedAfter(entries: seq<Entry>, e: Entry, x: Fanned, x': Fanned, slot: Slot, v: Value)
    requires Adds(x, x', slot, v, |entries|) && AllPlaced(entries, x) && OwnersSaid(entries, x)
    ensures AllPlaced(entries + [e], x')
  {
    hide PathOf, ValueAt, Owns, Read;
    var n, all := |entries|, entries + [e];
    forall i: nat | i < |all| && Read(i, all[i]).IsFor? ensures OwnsOne(x', i) {
      if i == n {
        assert AddsAt(x, x', slot, v, n, slot);
        assert Owns(x', slot, n);
      } else {
        assert all[i] == entries[i] && OwnsOne(x, i);
        var s :| IsSlot(s) && Owns(x, s, i);
        assert AddsAt(x, x', slot, v, n, s);
        assert s != slot by { StillEmpty(entries, x, slot, i); }
        assert Owns(x', s, i);
      }
    }
  }

  lemma StillEmpty(entries: seq<Entry>, x: Fanned, slot: Slot, i: nat)
    requires OwnersSaid(entries, x) && IsSlot(slot) && ValueAt(x, slot).None?
    ensures !Owns(x, slot, i)
  {
    hide ValueAt, Owns, PathOf;
  }

  lemma PutKeepsInv(x0: Fanned, entries: seq<Entry>, x: Fanned, e: Entry, f: Field, v: Value, kind: string)
    requires Inv(x0, entries, x) && Read(|entries|, e) == IsFor(f, v, kind) && (IsSingle(f) ==> f !in x.singles)
    ensures Inv(x0, entries + [e], Put(x, f, v, |entries|))
  {
    hide PathOf, Put, Read, Adds, Keeps, OwnersSaid, OneEach, AllPlaced;
    var n := |entries|;
    var x', slot := Put(x, f, v, n), NewSlot(x, f);
    PutAdds(x, f, v, n);
    PutKeys(x, f, v, n);
    KeepsAfter(x0, x, x', slot, v, n);
    OwnersAfter(entries, e, x, x', slot, v);
    PlacedAfter(entries, e, x, x', slot, v);
    assert (entries + [e])[..n] == entries;
  }

  lemma PutKeys(x: Fanned, f: Field, v: Value, i: nat)
    requires forall path :: path in x.origin ==> IsPath(path)
    ensures forall path :: path in Put(x, f, v, i).origin ==> IsPath(path)
    ensures Put(x, f, v, i).ghosts == x.ghosts
  {
    assert IsPath(PathOf(NewSlot(x, f)));
  }

  lemma {:induction false} ExpandKeepsInv(x0: Fanned, entries: seq<Entry>)
    requires x0.origin == map[] && x0.ghosts == [] && Expand(x0, entries).Success?
    ensures Inv(x0, entries, Expand(x0, entries).value)
  {
    if entries == [] {
    } else {
      hide Inv, Put, Read;
      var n := |entries| - 1;
      var before, e := entries[..n], entries[n];
      ExpandKeepsInv(x0, before);
      var x := Expand(x0, before).value;
      assert entries == before + [e];
      match Read(n, e) {
        case IsBad(_) =>
        case IsGhostOf(kind) => SettingAsideKeepsInv(x0, before, x, e, kind);
        case IsFor(f, v, kind) => PutKeepsInv(x0, before, x, e, f, v, kind);
      }
    }
  }

  lemma SettingAsideKeepsInv(x0: Fanned, entries: seq<Entry>, x: Fanned, e: Entry, kind: string)
    requires Inv(x0, entries, x) && Read(|entries|, e) == IsGhostOf(kind)
    ensures e.Object? && Inv(x0, entries + [e], x.(ghosts := x.ghosts + [Ghost(|entries|, kind, e.clause)]))
  {
    hide PathOf;
    var all := entries + [e];
    var x' := x.(ghosts := x.ghosts + [Ghost(|entries|, kind, e.clause)]);
    assert all[..|entries|] == entries;
    assert forall s :: ValueAt(x', s) == ValueAt(x, s);
    assert forall s, i :: Owns(x', s, i) == Owns(x, s, i);
    assert forall i :: 0 <= i < |entries| ==> all[i] == entries[i];
    forall i: nat | i < |all| && Read(i, all[i]).IsFor? ensures OwnsOne(x', i) {
      assert OwnsOne(x, i);
      var s :| IsSlot(s) && Owns(x, s, i);
      assert Owns(x', s, i);
    }
  }

  // ---- When the array is refused ---------------------------------------------------------

  ghost predicate ForField(entries: seq<Entry>, j: nat, f: Field) {
    j < |entries| && Read(j, entries[j]).IsFor? && Read(j, entries[j]).field == f
  }

  /** Malformed, or one clause too many of a kind that may appear once. */
  ghost predicate Refused(x0: Fanned, entries: seq<Entry>, i: nat) {
    i < |entries| &&
      (Read(i, entries[i]).IsBad? || (Read(i, entries[i]).IsFor? && Repeats(x0, entries, i, Read(i, entries[i]).field)))
  }

  ghost predicate Repeats(x0: Fanned, entries: seq<Entry>, i: nat, f: Field) {
    IsSingle(f) && (f in x0.singles || exists j: nat :: j < i && ForField(entries, j, f))
  }

  ghost predicate SinglesExact(x0: Fanned, entries: seq<Entry>, x: Fanned) {
    forall f :: IsSingle(f) ==> (f in x.singles <==> Repeats(x0, entries, |entries|, f))
  }

  ghost predicate FirstRefused(x0: Fanned, entries: seq<Entry>, i: nat) {
    Refused(x0, entries, i) && forall k: nat :: k < i ==> !Refused(x0, entries, k)
  }

  /** The array is refused exactly when an entry is, and the error names the first such entry. */
  lemma {:induction false} RefusedIff(x0: Fanned, entries: seq<Entry>)
    ensures Expand(x0, entries).Failure? <==> exists i: nat :: Refused(x0, entries, i)
    ensures Expand(x0, entries).Failure? ==> FirstRefused(x0, entries, Expand(x0, entries).error.index)
    ensures Expand(x0, entries).Success? ==> SinglesExact(x0, entries, Expand(x0, entries).value)
  {
    if entries == [] {
      NothingRefused(x0);
    } else {
      hide Place, Refused, SinglesExact;
      var n := |entries| - 1;
      RefusedIff(x0, entries[..n]);
      RefusedInRange(x0, entries);
      RefusedInRange(x0, entries[..n]);
      PrefixAgrees(x0, entries, n);
      if Expand(x0, entries[..n]).Success? {
        LastEntry(x0, entries);
      } else {
        assert Refused(x0, entries, Expand(x0, entries).error.index);
      }
    }
  }

  lemma NothingRefused(x0: Fanned)
    ensures forall i: nat :: !Refused(x0, [], i)
    ensures SinglesExact(x0, [], x0)
  {
    hide Read;
  }

  lemma RefusedInRange(x0: Fanned, entries: seq<Entry>)
    ensures forall i: nat :: Refused(x0, entries, i) ==> i < |entries|
  {
    hide Read, Repeats;
  }

  lemma PrefixAgrees(x0: Fanned, entries: seq<Entry>, n: nat)
    requires n <= |entries|
    ensures forall i: nat :: i < n ==> (Refused(x0, entries[..n], i) <==> Refused(x0, entries, i))
    ensures forall f :: Repeats(x0, entries[..n], n, f) <==> Repeats(x0, entries, n, f)
  {
    hide Read;
    var before := entries[..n];
    assert forall j: nat :: j < n ==> before[j] == entries[j];
    forall f, i: nat | i <= n ensures Repeats(x0, before, i, f) <==> Repeats(x0, entries, i, f) {
      assert forall j: nat :: j < i ==> (ForField(before, j, f) <==> ForField(entries, j, f));
    }
  }

  lemma LastEntry(x0: Fanned, entries: seq<Entry>)
    requires entries != [] && Expand(x0, entries[..|entries| - 1]).Success?
    requires SinglesExact(x0, entries[..|entries| - 1], Expand(x0, entries[..|entries| - 1]).value)
    ensures Expand(x0, entries).Failure? <==> Refused(x0, entries, |entries| - 1)
    ensures Expand(x0, entries).Failure? ==> Expand(x0, entries).error.index == |entries| - 1
    ensures Expand(x0, entries).Success? ==> SinglesExact(x0, entries, Expand(x0, entries).value)
  {
    var n := |entries| - 1;
    ErrorNamesEntry(n, entries[n]);
    hide Read;
    PrefixAgrees(x0, entries, n);
    forall f | IsSingle(f)
      ensures Repeats(x0, entries, |entries|, f) <==> Repeats(x0, entries, n, f) || ForField(entries, n, f)
    {
      if ForField(entries, n, f) {}
    }
  }

  lemma ErrorNamesEntry(i: nat, e: Entry)
    ensures Read(i, e).IsBad? ==> Read(i, e).error.index == i
  {
  }
}
