/** Keeping a response within its advertised byte cap, cheapest things first. */
module PayloadBudget {
  import opened Outcomes
  import opened Json
  import opened PayloadSize

  // ---- Preview lists ------------------------------------------------------------------

  function Rows(fields: Fields, field: Key): Option<seq<Json>> {
    var v := Get(fields, field);
    if v.Some? && v.value.Arr? then Some(v.value.items) else None
  }

  function Count(fields: Fields, omitted: Key): (n: nat) {
    var v := Get(fields, omitted);
    if v.Some? && v.value.Num? then v.value.n else 0
  }

  /** A list comes with the number of rows already left out of it. */
  predicate Counted(fields: Fields, field: Key, omitted: Key) {
    Rows(fields, field).Some? ==> Get(fields, omitted).Some? && Get(fields, omitted).value.Num?
  }

  /** Rows only go from the end, and rows shown plus rows omitted stay the same number. */
  ghost predicate ListKept(a: Fields, b: Fields, field: Key, omitted: Key) {
    if Rows(a, field).None? then Get(b, field) == Get(a, field) && Get(b, omitted) == Get(a, omitted)
    else
      && Rows(b, field).Some? && Rows(b, field).value <= Rows(a, field).value
      && |Rows(b, field).value| + Count(b, omitted) == |Rows(a, field).value| + Count(a, omitted)
  }

  ghost predicate SameExcept(a: Fields, b: Fields, keys: set<Key>) {
    forall key :: key !in keys ==> Get(b, key) == Get(a, key)
  }

  /** The rows before the keep-th, or all of them when there are fewer. */
  function FirstRows(rows: seq<Json>, keep: nat): (r: seq<Json>)
    ensures |r| <= keep
  {
    if keep == 0 || rows == [] then [] else [rows[0]] + FirstRows(rows[1..], keep - 1)
  }

  lemma {:induction false} FirstRowsAre(rows: seq<Json>, keep: nat)
    ensures FirstRows(rows, keep) == rows[..Retained(rows, keep)]
  {
    if keep > 0 && rows != [] {
      FirstRowsAre(rows[1..], keep - 1);
    }
  }

  function Retained(rows: seq<Json>, keep: nat): (n: nat)
    ensures n <= |rows|
  {
    if keep < |rows| then keep else |rows|
  }

  /** The first rows of the list, and the others counted. */
  function Omit(fields: Fields, field: Key, omitted: Key, keep: nat): (r: Fields) {
    var rows := Rows(fields, field);
    if rows.None? then fields
    else
      var retained := Retained(rows.value, keep);
      Set(Set(fields, field, Arr(rows.value[..retained])), omitted,
          Num(|rows.value| + Count(fields, omitted) - retained))
  }

  lemma OmitGets(fields: Fields, field: Key, omitted: Key, keep: nat, key: Key)
    requires field != omitted && Rows(fields, field).Some?
    ensures var rows, n := Rows(fields, field).value, Retained(Rows(fields, field).value, keep);
      Get(Omit(fields, field, omitted, keep), key) ==
        if key == omitted then Some(Num(|rows| + Count(fields, omitted) - n))
        else if key == field then Some(Arr(rows[..n]))
        else Get(fields, key)
  {
    hide Get, Set, Count, Rows;
    var rows := Rows(fields, field).value;
    var shown := Arr(rows[..Retained(rows, keep)]);
    GetSet(fields, field, shown, key);
    GetSet(Set(fields, field, shown), omitted, Num(|rows| + Count(fields, omitted) - Retained(rows, keep)), key);
  }

  lemma OmitKeeps(fields: Fields, field: Key, omitted: Key, keep: nat)
    requires field != omitted
    ensures var r := Omit(fields, field, omitted, keep);
      && SameExcept(fields, r, {field, omitted}) && ListKept(fields, r, field, omitted)
      && (Counted(fields, field, omitted) ==> Counted(r, field, omitted))
      && (Rows(fields, field).Some? ==> Rows(r, field) == Some(FirstRows(Rows(fields, field).value, keep)))
      && (Rows(r, field).Some? ==> |Rows(r, field).value| <= keep)
  {
    hide Get, Set;
    var rows := Rows(fields, field);
    var r := Omit(fields, field, omitted, keep);
    if rows.Some? {
      hide Omit;
      FirstRowsAre(rows.value, keep);
      OmitGets(fields, field, omitted, keep, field);
      OmitGets(fields, field, omitted, keep, omitted);
      forall key | key !in {field, omitted} ensures Get(r, key) == Get(fields, key) {
        OmitGets(fields, field, omitted, keep, key);
      }
    }
  }

  /** A list that is short enough, and already counted, is left as it is. */
  lemma OmitNothing(fields: Fields, field: Key, omitted: Key, keep: nat)
    requires field != omitted && Counted(fields, field, omitted)
    requires Rows(fields, field).Some? ==> |Rows(fields, field).value| <= keep
    ensures Omit(fields, field, omitted, keep) == fields
  {
    var rows := Rows(fields, field);
    if rows.Some? {
      assert rows.value[..|rows.value|] == rows.value;
      SetSame(fields, field, Arr(rows.value));
      SetSame(fields, omitted, Num(Count(fields, omitted)));
    }
  }

  /** Omitting rows and recording a size do not get in each other's way. */
  lemma OmitCommutes(fields: Fields, n: nat, field: Key, omitted: Key, keep: nat)
    requires HasBudget(fields) && field != omitted && field != BUDGET && omitted != BUDGET
    ensures HasBudget(Omit(fields, field, omitted, keep))
    ensures Omit(WithBytes(fields, n), field, omitted, keep) == WithBytes(Omit(fields, field, omitted, keep), n)
  {
    hide Get, Set;
    var rows := Rows(fields, field);
    WithBytesKeeps(fields, n);
    assert Get(WithBytes(fields, n), field) == Get(fields, field);
    assert Get(WithBytes(fields, n), omitted) == Get(fields, omitted);
    if rows.Some? {
      OmitGets(fields, field, omitted, keep, BUDGET);
      var shown := Arr(rows.value[..Retained(rows.value, keep)]);
      var left := Num(|rows.value| + Count(fields, omitted) - Retained(rows.value, keep));
      var budget := Obj(Set(Budget(fields).value, BYTES, Num(n)));
      GetSet(fields, field, shown, BUDGET);
      SetCommutes(fields, BUDGET, budget, field, shown);
      SetCommutes(Set(fields, field, shown), BUDGET, budget, omitted, left);
    }
  }

  method OmitPreviewRows(fields: Fields, field: Key, omitted: Key, keep: nat) returns (r: Fields, shed: bool)
    ensures r == Omit(fields, field, omitted, keep)
    ensures shed <==> Rows(fields, field).Some? && |Rows(fields, field).value| > keep
  {
    var alreadyOmitted := Count(fields, omitted);
    var items := Rows(fields, field);
    if items.None? {
      return fields, false;
    }
    var before := |items.value|;
    var total := before + alreadyOmitted;
    var retained := if keep < before then keep else before;
    r := Set(fields, field, Arr(items.value[..retained]));
    r := Set(r, omitted, Num(total - retained));
    shed := retained < before;
  }

  // ---- The whole response -----------------------------------------------------------

  function Action(fields: Fields): Option<Fields> {
    var v := Get(fields, ACTION);
    if v.Some? && v.value.Obj? then Some(v.value.fields) else None
  }

  /** As built: every preview list carries its omitted count. */
  predicate AsBuilt(fields: Fields) {
    && Counted(fields, READY, READY_OMITTED)
    && Counted(fields, FRONTIER, FRONTIER_OMITTED)
    && (Action(fields).Some? ==> Counted(Action(fields).value, BLOCKED_ROWS, BLOCKED_OMITTED))
  }

  const PREVIEWS: set<Key> := {READY, READY_OMITTED, FRONTIER, FRONTIER_OMITTED}

  const BLOCKED: set<Key> := {BLOCKED_ROWS, BLOCKED_OMITTED}

  ghost predicate ActionKept(a: Fields, b: Fields) {
    if Action(a).None? then Get(b, ACTION) == Get(a, ACTION)
    else
      && Action(b).Some? && SameExcept(Action(a).value, Action(b).value, BLOCKED)
      && ListKept(Action(a).value, Action(b).value, BLOCKED_ROWS, BLOCKED_OMITTED)
  }

  /** Nothing was lost but rows of preview lists, all accounted for; the stated size apart. */
  ghost predicate Trimmed(a: Fields, b: Fields) {
    && SameExcept(a, b, PREVIEWS + {ACTION, BUDGET})
    && ListKept(a, b, READY, READY_OMITTED)
    && ListKept(a, b, FRONTIER, FRONTIER_OMITTED)
    && ActionKept(a, b)
  }

  lemma TrimmedTransitive(a: Fields, b: Fields, c: Fields)
    requires Trimmed(a, b) && Trimmed(b, c)
    ensures Trimmed(a, c)
  {
  }

  /** The arguments of the proposed call are never among what is shed. */
  lemma ArgsAreNeverShortened(a: Fields, b: Fields)
    requires Trimmed(a, b) && Action(a).Some?
    ensures Action(b).Some? && Get(Action(b).value, ARGS) == Get(Action(a).value, ARGS)
  {
    assert ARGS !in BLOCKED;
  }

  ghost predicate PreviewsEmpty(fields: Fields) {
    && (Rows(fields, READY).Some? ==> Rows(fields, READY).value == [])
    && (Rows(fields, FRONTIER).Some? ==> Rows(fields, FRONTIER).value == [])
  }

  ghost predicate AllShed(fields: Fields) {
    && PreviewsEmpty(fields)
    && (Action(fields).Some? && Rows(Action(fields).value, BLOCKED_ROWS).Some? ==>
          Rows(Action(fields).value, BLOCKED_ROWS).value == [])
  }

  /** Shedding one list and then another adds up. */
  lemma ListsKept(a: Fields, b: Fields, c: Fields, f1: Key, o1: Key, f2: Key, o2: Key)
    requires f1 != f2 && f1 != o2 && o1 != f2 && o1 != o2
    requires SameExcept(a, b, {f1, o1}) && ListKept(a, b, f1, o1)
    requires SameExcept(b, c, {f2, o2}) && ListKept(b, c, f2, o2)
    ensures SameExcept(a, c, {f1, o1, f2, o2}) && ListKept(a, c, f1, o1) && ListKept(a, c, f2, o2)
    ensures Counted(a, f2, o2) ==> Counted(b, f2, o2)
    ensures Counted(b, f1, o1) ==> Counted(c, f1, o1)
    ensures Rows(c, f1) == Rows(b, f1)
  {
    assert Get(b, f2) == Get(a, f2) && Get(b, o2) == Get(a, o2);
    assert Get(c, f1) == Get(b, f1) && Get(c, o1) == Get(b, o1);
  }

  lemma ActionUntouched(a: Fields, b: Fields)
    requires Get(b, ACTION) == Get(a, ACTION)
    ensures ActionKept(a, b)
  {
    hide Get;
  }

  lemma OnlyPreviewsShed(a: Fields, b: Fields)
    requires SameExcept(a, b, {READY, READY_OMITTED, FRONTIER, FRONTIER_OMITTED})
    requires ListKept(a, b, READY, READY_OMITTED) && ListKept(a, b, FRONTIER, FRONTIER_OMITTED)
    ensures Trimmed(a, b) && Get(b, ACTION) == Get(a, ACTION) && Get(b, BUDGET) == Get(a, BUDGET)
  {
    hide ListKept;
    assert ACTION !in PREVIEWS && BUDGET !in PREVIEWS;
    assert ListKept(a, b, READY, READY_OMITTED);
    assert ActionKept(a, b) by { ActionUntouched(a, b); }
  }

  function Previews(fields: Fields, keep: nat): (r: Fields) {
    Omit(Omit(fields, READY, READY_OMITTED, keep), FRONTIER, FRONTIER_OMITTED, keep)
  }

  lemma PreviewsTrim(fields: Fields, keep: nat)
    ensures Trimmed(fields, Previews(fields, keep))
    ensures AsBuilt(fields) ==> AsBuilt(Previews(fields, keep))
    ensures keep == 0 ==> PreviewsEmpty(Previews(fields, keep))
    ensures Get(Previews(fields, keep), ACTION) == Get(fields, ACTION)
    ensures Get(Previews(fields, keep), BUDGET) == Get(fields, BUDGET)
  {
    hide Trimmed, ListKept, SameExcept, Rows, Counted, Get, Count, Omit;
    var r1 := Omit(fields, READY, READY_OMITTED, keep);
    OmitKeeps(fields, READY, READY_OMITTED, keep);
    OmitKeeps(r1, FRONTIER, FRONTIER_OMITTED, keep);
    ListsKept(fields, r1, Previews(fields, keep), READY, READY_OMITTED, FRONTIER, FRONTIER_OMITTED);
    OnlyPreviewsShed(fields, Previews(fields, keep));
  }

  lemma PreviewsCommute(fields: Fields, n: nat, keep: nat)
    requires HasBudget(fields)
    ensures HasBudget(Previews(fields, keep))
    ensures Previews(WithBytes(fields, n), keep) == WithBytes(Previews(fields, keep), n)
  {
    hide Omit, HasBudget, WithBytes;
    OmitCommutes(fields, n, READY, READY_OMITTED, keep);
    OmitCommutes(Omit(fields, READY, READY_OMITTED, keep), n, FRONTIER, FRONTIER_OMITTED, keep);
  }

  method ShedPreviews(fields: Fields, keep: nat) returns (r: Fields, shed: bool)
    ensures r == Previews(fields, keep)
    ensures !shed && AsBuilt(fields) ==> r == fields
  {
    hide Rows, Get, Count, Omit;
    var shed1, shed2;
    r, shed1 := OmitPreviewRows(fields, READY, READY_OMITTED, keep);
    if !shed1 && AsBuilt(fields) {
      OmitNothing(fields, READY, READY_OMITTED, keep);
    }
    if r == fields && AsBuilt(fields) && (Rows(r, FRONTIER).Some? ==> |Rows(r, FRONTIER).value| <= keep) {
      OmitNothing(fields, FRONTIER, FRONTIER_OMITTED, keep);
    }
    r, shed2 := OmitPreviewRows(r, FRONTIER, FRONTIER_OMITTED, keep);
    shed := shed1 || shed2;
  }

  function WithoutBlocked(fields: Fields): (r: Fields) {
    var action := Action(fields);
    if action.None? then fields
    else Set(fields, ACTION, Obj(Omit(action.value, BLOCKED_ROWS, BLOCKED_OMITTED, 0)))
  }

  lemma WithoutBlockedTrims(fields: Fields)
    ensures Trimmed(fields, WithoutBlocked(fields))
    ensures AsBuilt(fields) ==> AsBuilt(WithoutBlocked(fields))
    ensures PreviewsEmpty(fields) ==> AllShed(WithoutBlocked(fields))
    ensures Get(WithoutBlocked(fields), BUDGET) == Get(fields, BUDGET)
  {
    hide Omit;
    var action := Action(fields);
    if action.Some? {
      var action' := Omit(action.value, BLOCKED_ROWS, BLOCKED_OMITTED, 0);
      OmitKeeps(action.value, BLOCKED_ROWS, BLOCKED_OMITTED, 0);
      forall key
        ensures Get(WithoutBlocked(fields), key)
          == if key == ACTION then Some(Obj(action')) else Get(fields, key)
      {
        GetSet(fields, ACTION, Obj(action'), key);
      }
    }
  }

  lemma WithoutBlockedCommutes(fields: Fields, n: nat)
    requires HasBudget(fields)
    ensures HasBudget(WithoutBlocked(fields))
    ensures WithoutBlocked(WithBytes(fields, n)) == WithBytes(WithoutBlocked(fields), n)
  {
    hide Omit, Trimmed;
    WithoutBlockedTrims(fields);
    WithBytesKeeps(fields, n);
    var action := Action(fields);
    if action.Some? {
      var action' := Omit(action.value, BLOCKED_ROWS, BLOCKED_OMITTED, 0);
      SetCommutes(fields, BUDGET, Obj(Set(Budget(fields).value, BYTES, Num(n))), ACTION, Obj(action'));
    }
  }

  method ShedBlocked(fields: Fields) returns (r: Fields, shed: bool)
    ensures r == WithoutBlocked(fields)
    ensures !shed && AsBuilt(fields) ==> r == fields
  {
    hide Omit, Rows;
    var action := Action(fields);
    if action.None? {
      return fields, false;
    }
    var action';
    action', shed := OmitPreviewRows(action.value, BLOCKED_ROWS, BLOCKED_OMITTED, 0);
    r := Set(fields, ACTION, Obj(action'));
    if !shed && AsBuilt(fields) {
      OmitNothing(action.value, BLOCKED_ROWS, BLOCKED_OMITTED, 0);
      SetSame(fields, ACTION, Obj(action.value));
    }
  }

  lemma RecordingTrims(fields: Fields, n: nat)
    requires HasBudget(fields)
    ensures Trimmed(fields, WithBytes(fields, n)) && HasBudget(WithBytes(fields, n))
    ensures AsBuilt(fields) ==> AsBuilt(WithBytes(fields, n))
    ensures AllShed(fields) ==> AllShed(WithBytes(fields, n))
    ensures PreviewsEmpty(fields) ==> PreviewsEmpty(WithBytes(fields, n))
  {
    WithBytesKeeps(fields, n);
  }

  // ---- Finishing a response ------------------------------------------------------------

  const FRESH_BUDGET: Json := Obj([
    Field(Other("cap_bytes"), Num(CAP)),
    Field(BYTES, Num(0)),
    Field(Other("omitted_fields"),
      Arr([Str("order"), Str("verification_order"), Str("scc_groups"), Str("conclusions"), Str("project_state")]))
  ])

  function NamelessReason(): (s: string)
    ensures |s| == 122
  {
    "The ready function's name does not fit the response " + "budget, so no call naming it can be sent; "
    + "read the frontier with list."
  }

  function TruncatedReason(): (s: string)
    ensures |s| == 132
  {
    "The response did not fit the payload budget " + "with every omittable field already dropped; "
    + "repeating the call returns this same answer."
  }

  function NoAction(reason: string, blocker: string): (v: Json)
    ensures v.Obj? && Get(v.fields, ARGS) == Some(Obj([]))
  {
    Obj([
      Field(Other("tool"), Null),
      Field(ARGS, Obj([])),
      Field(Other("reason"), Str(reason)),
      Field(Other("blockers"), Arr([Str(blocker)])),
      Field(Other("confidence"), Str("high"))
    ])
  }

  /** The response with its action gone, because the function's name is too long to send. */
  function Nameless(response: Fields): (r: Fields) {
    Set(response, ACTION, NoAction(NamelessReason(), "oversized_function_name"))
  }

  function TruncatedBudget(): (v: Json)
    ensures v.Obj?
  {
    Obj([Field(Other("cap_bytes"), Num(CAP)),
         Field(BYTES, Num(0)),
         Field(Other("omitted_fields"), Arr([Str("response")]))])
  }

  /** What takes the place of the whole response when nothing else helps. */
  function Truncated(): (r: Fields) {
    [
      Field(Other("status"), Str("payload_truncated")),
      Field(ACTION, NoAction(TruncatedReason(), "payload_budget")),
      Field(BUDGET, TruncatedBudget())
    ]
  }

  function Budgeted(response: Fields): (r: Fields) {
    Set(response, BUDGET, FRESH_BUDGET)
  }

  /** The length of the name in the arguments of the proposed call. */
  function NameBytes(fields: Fields): (n: nat) {
    if Action(fields).None? then 0 else NameIn(Action(fields).value)
  }

  function NameIn(action: Fields): (n: nat) {
    var args := Get(action, ARGS);
    if args.None? || !args.value.Obj? then 0
    else
      var name := Get(args.value.fields, FUNCTION);
      if name.None? || !name.value.Str? then 0 else TextBytes(name.value.s)
  }

  /** The name is part of the response, so it is never longer than it. */
  lemma NameIsPart(fields: Fields)
    ensures NameBytes(fields) <= Bytes(fields)
  {
    hide Get, FieldsSize, TextBytes, TextEscaped;
    var action := Action(fields);
    if action.Some? {
      MemberSize(fields, ACTION, 0);
      ArgsArePart(action.value);
    }
  }

  lemma ArgsArePart(action: Fields)
    ensures NameIn(action) <= Size(Obj(action), 1)
  {
    hide Get, FieldsSize, TextBytes, TextEscaped;
    var args := Get(action, ARGS);
    if args.Some? && args.value.Obj? && Get(args.value.fields, FUNCTION).Some? {
      MemberSize(action, ARGS, 1);
      MemberSize(args.value.fields, FUNCTION, 2);
    }
  }

  lemma NoMembers(depth: nat)
    ensures FieldsSize([], depth) == 0
  {
  }

  lemma FirstMember(f: Field, rest: Fields, depth: nat)
    ensures FieldsSize([f] + rest, depth) == MemberBytes(f, depth) + FieldsSize(rest, depth)
  {
    assert ([f] + rest)[1..] == rest;
  }

  lemma ThreeMembers(a: Field, b: Field, c: Field, rest: Fields, depth: nat)
    ensures FieldsSize([a, b, c] + rest, depth)
      == MemberBytes(a, depth) + MemberBytes(b, depth) + MemberBytes(c, depth) + FieldsSize(rest, depth)
  {
    hide MemberBytes;
    FirstMember(a, [b, c] + rest, depth);
    FirstMember(b, [c] + rest, depth);
    FirstMember(c, rest, depth);
    assert [a, b, c] + rest == [a] + ([b, c] + rest) && [b, c] + rest == [b] + ([c] + rest);
  }

  lemma SmallMember(f: Field, depth: nat, room: nat)
    requires Size(f.value, depth) <= room && (f.key.Other? ==> |f.key.name| <= 30)
    ensures MemberBytes(f, depth) <= 185 + 2 * depth + room
  {
    hide TextEscaped, Size;
    KnownNamesAreShort(f.key);
  }

  lemma TextRoom(s: string, depth: nat)
    ensures Size(Str(s), depth) <= 2 + 6 * |s|
    ensures Size(Arr([Str(s)]), depth) <= 8 + 4 * depth + 6 * |s|
  {
    var items := [Str(s)];
    assert items[1..] == [] && ItemsSize(items[1..], depth + 1) == 0;
    assert ItemsSize(items, depth + 1) == 1 + 2 * (depth + 1) + Size(Str(s), depth + 1);
  }

  lemma NoActionSize(reason: string, blocker: string)
    requires |reason| <= 200 && |blocker| <= 50
    ensures Size(NoAction(reason, blocker), 1) <= 4000
  {
    hide TextEscaped, KeyText, MemberBytes, FieldsSize;
    var f := NoAction(reason, blocker).fields;
    ThreeMembers(f[0], f[1], f[2], [f[3], f[4]], 2);
    assert f == [f[0], f[1], f[2]] + [f[3], f[4]];
    assert [f[3], f[4]] == [f[3]] + ([f[4]] + []);
    FirstMember(f[3], [f[4]] + [], 2);
    FirstMember(f[4], [], 2);
    TextRoom(reason, 2); TextRoom(blocker, 2); TextRoom("high", 2);
    SmallMember(f[0], 2, 4);
    SmallMember(f[1], 2, 2);
    SmallMember(f[2], 2, 2 + 6 * |reason|);
    SmallMember(f[3], 2, 16 + 6 * |blocker|);
    SmallMember(f[4], 2, 26);
    assert FieldsSize([], 2) == 0 by { NoMembers(2); }
  }

  lemma TruncatedHasBudget()
    ensures HasBudget(Truncated()) && Stated(Truncated()) == 0
  {
    hide NoAction, TruncatedReason;
    var r := Truncated();
    assert Get(r[1..], BUDGET) == Get(r[2..], BUDGET);
    var budget := r[2].value.fields;
    assert Get(r, BUDGET) == Some(r[2].value);
    assert Get(budget, BYTES) == Get(budget[1..], BYTES);
  }

  lemma TruncatedBudgetSize()
    ensures Size(TruncatedBudget(), 1) <= 1000
  {
    hide TextEscaped, KeyText, MemberBytes, FieldsSize;
    var budget := TruncatedBudget().fields;
    ThreeMembers(budget[0], budget[1], budget[2], [], 2);
    assert budget == [budget[0], budget[1], budget[2]] + [];
    WidthAtTheCap(0);
    TextRoom("response", 2);
    SmallMember(budget[0], 2, 5);
    SmallMember(budget[1], 2, 4);
    SmallMember(budget[2], 2, 64);
    NoMembers(2);
  }

  lemma TruncatedSize()
    ensures Bytes(Truncated()) <= 8000
  {
    hide TextEscaped, KeyText, MemberBytes, FieldsSize, NoAction, TruncatedReason, TruncatedBudget;
    var r := Truncated();
    NoActionSize(TruncatedReason(), "payload_budget");
    TruncatedBudgetSize();
    ThreeMembers(r[0], r[1], r[2], [], 1);
    assert r == [r[0], r[1], r[2]] + [];
    TextRoom("payload_truncated", 1);
    SmallMember(r[0], 1, 104);
    SmallMember(r[1], 1, 4000);
    SmallMember(r[2], 1, 1000);
    NoMembers(1);
  }

  lemma TruncatedFits()
    ensures HasBudget(Truncated()) && Fits(Truncated())
  {
    hide Truncated, Bytes, HasBudget, WithBytes;
    TruncatedHasBudget();
    TruncatedSize();
    BaseIsFixed(Truncated(), CAP);
    WidthAtTheCap(CAP);
  }

  // ---- The order in which things go ---------------------------------------------------------

  function Next(fields: Fields, i: nat): (r: Fields) {
    if i == 0 then Previews(fields, 1) else if i == 1 then Previews(fields, 0) else WithoutBlocked(fields)
  }

  /** The response after so many rounds: one row of each preview, none, no blocked list either. */
  function Stage(start: Fields, i: nat): (r: Fields) {
    if i == 0 then start else Next(Stage(start, i - 1), i - 1)
  }

  ghost predicate NothingFits(start: Fields, upTo: nat) {
    forall i: nat :: i < upTo ==> !Fits(Stage(start, i))
  }

  ghost predicate NoStageFits(start: Fields) {
    NothingFits(start, 4)
  }

  function LastStage(start: Fields): (r: Fields) {
    Stage(start, 3)
  }

  /** The same response with its own size written in it. */
  ghost predicate Recorded(fields: Fields, out: Fields) {
    HasBudget(out) && Measured(fields, out, Stated(out))
  }

  /** The response says its own size, which is within the cap. */
  ghost predicate WithinTheCap(out: Fields) {
    HasBudget(out) && Stated(out) == Bytes(out) <= CAP
  }

  /** There is a name in the arguments, and without it the response would fit. */
  predicate DropsName(fields: Fields, bytes: nat) {
    0 < NameBytes(fields) && bytes - NameBytes(fields) <= CAP
  }

  /** With every preview row gone and the response still too large. */
  ghost predicate LastResort(shed: Fields, out: Fields) {
    if DropsName(shed, Bytes(shed)) && Fits(Nameless(shed)) then Recorded(Nameless(shed), out)
    else Recorded(Truncated(), out)
  }

  /** The first stage that fits is what is sent. */
  ghost predicate FirstThatFits(start: Fields, out: Fields) {
    forall i: nat :: i <= 3 && NothingFits(start, i) && Fits(Stage(start, i)) ==> Recorded(Stage(start, i), out)
  }

  ghost predicate AfterTheLast(last: Fields, out: Fields) {
    exists shed :: Recorded(last, shed) && LastResort(shed, out)
  }

  ghost predicate Exactly(start: Fields, out: Fields) {
    FirstThatFits(start, out) && (NoStageFits(start) ==> AfterTheLast(LastStage(start), out))
  }

  /** Whatever the shape of the response: rows alone went, or then the action, or then everything. */
  ghost predicate Accounted(start: Fields, out: Fields) {
    Trimmed(start, out) || Dropped(start, out) || Recorded(Truncated(), out)
  }

  ghost predicate Dropped(start: Fields, out: Fields) {
    exists shed :: Trimmed(start, shed) && AllShed(shed) && Recorded(Nameless(shed), out)
  }

  lemma NextTrims(fields: Fields, i: nat)
    requires HasBudget(fields)
    ensures HasBudget(Next(fields, i)) && Trimmed(fields, Next(fields, i))
    ensures NameBytes(Next(fields, i)) == NameBytes(fields)
    ensures AsBuilt(fields) ==> AsBuilt(Next(fields, i))
    ensures i == 1 ==> PreviewsEmpty(Next(fields, i))
    ensures i >= 2 && PreviewsEmpty(fields) ==> AllShed(Next(fields, i))
  {
    hide Trimmed, AsBuilt, Previews, WithoutBlocked, PreviewsEmpty, AllShed, Get;
    if i < 2 {
      PreviewsTrim(fields, 1 - i);
    } else {
      WithoutBlockedTrims(fields);
      SameName(fields, WithoutBlocked(fields));
    }
  }

  lemma SameName(a: Fields, b: Fields)
    requires Trimmed(a, b)
    ensures NameBytes(b) == NameBytes(a)
  {
    hide Get, TextBytes;
    if Action(a).Some? {
      ArgsAreNeverShortened(a, b);
    }
  }

  lemma NextCommutes(fields: Fields, n: nat, i: nat)
    requires HasBudget(fields)
    ensures HasBudget(Next(fields, i)) && Next(WithBytes(fields, n), i) == WithBytes(Next(fields, i), n)
  {
    hide Previews, WithoutBlocked, HasBudget, WithBytes;
    if i < 2 {
      PreviewsCommute(fields, n, 1 - i);
    } else {
      WithoutBlockedCommutes(fields, n);
    }
  }

  lemma {:induction false} StageHasBudget(start: Fields, i: nat)
    requires HasBudget(start)
    ensures HasBudget(Stage(start, i))
  {
    hide HasBudget, Next;
    if i > 0 {
      StageHasBudget(start, i - 1);
      NextTrims(Stage(start, i - 1), i - 1);
    }
  }

  /** Where the response stands after so many rounds. */
  ghost predicate Held(start: Fields, i: nat, response: Fields, bytes: nat) {
    && HasBudget(start) && HasBudget(response) && Trimmed(start, response)
    && NameBytes(response) <= bytes
    && (bytes <= CAP ==> Stated(response) == bytes && Bytes(response) == bytes)
    && (i == 2 ==> PreviewsEmpty(response)) && (i == 3 ==> AllShed(response))
    && (AsBuilt(start) ==>
         AsBuilt(response) && HasBudget(Stage(start, i)) && response == WithBytes(Stage(start, i), bytes)
           && Bytes(response) == bytes)
  }

  lemma Recording(fields: Fields, out: Fields, n: nat)
    requires Measured(fields, out, n)
    ensures Recorded(fields, out) && Trimmed(fields, out) && HasBudget(out) && Stated(out) == n && NameBytes(out) <= n
    ensures AsBuilt(fields) ==> AsBuilt(out)
    ensures AllShed(fields) ==> AllShed(out)
    ensures PreviewsEmpty(fields) ==> PreviewsEmpty(out)
    ensures n <= CAP ==> WithinTheCap(out)
  {
    hide Trimmed, AsBuilt, AllShed, PreviewsEmpty, Bytes, NameBytes, WithBytes;
    WithBytesKeeps(fields, n);
    RecordingTrims(fields, n);
    NameIsPart(out);
  }

  lemma FirstRound(start: Fields, out: Fields, bytes: nat)
    requires Measured(start, out, bytes)
    ensures Held(start, 0, out, bytes)
  {
    hide Trimmed, AsBuilt, AllShed, PreviewsEmpty, Bytes, NameBytes, WithBytes;
    Recording(start, out, bytes);
  }

  /** One more round, measured again only when rows went. */
  lemma Round(start: Fields, i: nat, response: Fields, bytes: nat, shed: bool, response': Fields, bytes': nat)
    requires i < 3 && Held(start, i, response, bytes) && bytes > CAP
    requires !shed && AsBuilt(response) ==> Next(response, i) == response
    requires if shed then Measured(Next(response, i), response', bytes')
      else response' == Next(response, i) && bytes' == bytes
    ensures Held(start, i + 1, response', bytes')
  {
    hide Trimmed, AsBuilt, AllShed, PreviewsEmpty, Bytes, NameBytes, WithBytes, HasBudget, Next, Stated, Recorded;
    var next := Next(response, i);
    NextTrims(response, i);
    TrimmedTransitive(start, response, next);
    if shed {
      Recording(next, response', bytes');
      TrimmedTransitive(start, next, response');
    }
    if AsBuilt(start) {
      NextCommutes(Stage(start, i), bytes, i);
      WithBytesKeeps(Stage(start, i + 1), bytes);
    }
  }

  lemma StatedIs(fields: Fields, n: nat)
    requires HasBudget(fields)
    ensures HasBudget(WithBytes(fields, n)) && Stated(WithBytes(fields, n)) == n
  {
    WithBytesKeeps(fields, n);
  }

  lemma DoesNotFit(start: Fields, i: nat, response: Fields, bytes: nat)
    requires Held(start, i, response, bytes) && AsBuilt(start)
    ensures Recorded(Stage(start, i), response) && Stated(response) == bytes
    ensures Fits(Stage(start, i)) <==> bytes <= CAP
    ensures NothingFits(start, i) && bytes > CAP ==> NothingFits(start, i + 1)
    ensures NothingFits(start, i) && bytes > CAP && i == 3 ==>
      NoStageFits(start) && Recorded(LastStage(start), response)
  {
    hide Trimmed, AsBuilt, AllShed, PreviewsEmpty, Bytes, NameBytes, WithBytes, HasBudget, Stage, Fits, Stated;
    FitsIff(Stage(start, i), response, bytes);
    StatedIs(Stage(start, i), bytes);
  }

  lemma RowsWent(start: Fields, out: Fields)
    requires Trimmed(start, out)
    ensures Accounted(start, out)
  {
    hide Trimmed, Dropped, Recorded;
  }

  lemma ActionWent(start: Fields, shed: Fields, out: Fields)
    requires Trimmed(start, shed) && AllShed(shed) && Recorded(Nameless(shed), out)
    ensures Accounted(start, out)
  {
    hide Trimmed, AllShed, Recorded, Nameless, Truncated;
    assert Dropped(start, out);
  }

  lemma AllWent(start: Fields, out: Fields)
    requires Recorded(Truncated(), out)
    ensures Accounted(start, out)
  {
    hide Trimmed, Dropped, Recorded, Truncated;
  }

  lemma LastResortIs(shed: Fields, out: Fields)
    requires if DropsName(shed, Bytes(shed)) && Fits(Nameless(shed)) then Recorded(Nameless(shed), out)
      else Recorded(Truncated(), out)
    ensures LastResort(shed, out)
  {
    hide DropsName, Bytes, Fits, Nameless, Recorded, Truncated;
  }

  lemma ExactlyAtStage(start: Fields, i: nat, out: Fields)
    requires i <= 3 && NothingFits(start, i) && Fits(Stage(start, i)) && Recorded(Stage(start, i), out)
    ensures Exactly(start, out)
  {
    hide Stage, Fits, Recorded, AfterTheLast;
  }

  lemma ExactlyAfterAll(start: Fields, shed: Fields, out: Fields)
    requires NoStageFits(start) && Recorded(LastStage(start), shed) && LastResort(shed, out)
    ensures Exactly(start, out)
  {
    hide Stage, Fits, Recorded, LastResort;
    assert AfterTheLast(LastStage(start), out);
  }

  /** Stopping at a stage that fits. */
  lemma Settled(start: Fields, i: nat, response: Fields, bytes: nat)
    requires i <= 3 && Held(start, i, response, bytes) && bytes <= CAP
    requires AsBuilt(start) ==> NothingFits(start, i)
    ensures WithinTheCap(response)
    ensures Accounted(start, response) && (AsBuilt(start) ==> Exactly(start, response))
  {
    hide *;
    HeldBuilt(start, i, response, bytes);
    RowsWent(start, response);
    if AsBuilt(start) {
      DoesNotFit(start, i, response, bytes);
      ExactlyAtStage(start, i, response);
    }
  }

  lemma NamelessHasBudget(fields: Fields)
    requires HasBudget(fields)
    ensures HasBudget(Nameless(fields))
  {
    GetSet(fields, ACTION, NoAction(NamelessReason(), "oversized_function_name"), BUDGET);
  }

  /** Stopping after the last stage, with a name that does not fit. */
  lemma NameDropped(start: Fields, shed: Fields, bytes: nat, out: Fields, written: nat)
    requires Held(start, 3, shed, bytes) && CAP < bytes && DropsName(shed, bytes)
    requires AsBuilt(start) ==> NothingFits(start, 3)
    requires Measured(Nameless(shed), out, written) && written <= CAP
    ensures WithinTheCap(out)
    ensures Accounted(start, out) && (AsBuilt(start) ==> Exactly(start, out))
  {
    hide *;
    HeldBuilt(start, 3, shed, bytes);
    Recording(Nameless(shed), out, written);
    ActionWent(start, shed, out);
    if AsBuilt(start) {
      DoesNotFit(start, 3, shed, bytes);
      RecordedSize(Stage(start, 3), shed);
      FitsIff(Nameless(shed), out, written);
      LastResortIs(shed, out);
      ExactlyAfterAll(start, shed, out);
    }
  }

  /** Stopping with nothing of the response left. */
  lemma AllDropped(start: Fields, shed: Fields, bytes: nat, larger: Fields, nameless: nat, out: Fields, written: nat)
    requires Held(start, 3, shed, bytes) && bytes > CAP && (AsBuilt(start) ==> NothingFits(start, 3))
    requires DropsName(shed, bytes) ==> Measured(Nameless(shed), larger, nameless) && nameless > CAP
    requires Measured(Truncated(), out, written)
    ensures WithinTheCap(out)
    ensures Accounted(start, out) && (AsBuilt(start) ==> Exactly(start, out))
  {
    hide *;
    TruncatedFits();
    FitsIff(Truncated(), out, written);
    Recording(Truncated(), out, written);
    AllWent(start, out);
    if AsBuilt(start) {
      DoesNotFit(start, 3, shed, bytes);
      RecordedSize(Stage(start, 3), shed);
      if DropsName(shed, bytes) {
        FitsIff(Nameless(shed), larger, nameless);
      }
      LastResortIs(shed, out);
      ExactlyAfterAll(start, shed, out);
    }
  }

  lemma RecordedSize(fields: Fields, out: Fields)
    requires Recorded(fields, out)
    ensures HasBudget(out) && Bytes(out) == Stated(out)
  {
  }

  lemma BudgetedIsAsBuilt(response: Fields)
    ensures HasBudget(Budgeted(response)) && (AsBuilt(response) ==> AsBuilt(Budgeted(response)))
    ensures forall key :: key != BUDGET ==> Get(Budgeted(response), key) == Get(response, key)
  {
    forall key
      ensures Get(Budgeted(response), key)
        == if key == BUDGET then Some(FRESH_BUDGET) else Get(response, key)
    {
      GetSet(response, BUDGET, FRESH_BUDGET, key);
    }
    var budget := FRESH_BUDGET.fields;
    assert Get(budget, BYTES) == Get(budget[1..], BYTES);
  }

  /**
   * The response that goes out is within the cap and says its own size,
   * whatever went in. Its rows are accounted for, and for a response as
   * built it is exactly the first stage that fits.
   */
  method Finish(response: Fields) returns (out: Fields)
    ensures WithinTheCap(out)
    ensures Accounted(Budgeted(response), out)
    ensures AsBuilt(response) ==> Exactly(Budgeted(response), out)
  {
    hide Trimmed, AsBuilt, AllShed, PreviewsEmpty, Bytes, NameBytes, WithBytes,
         HasBudget, Stage, Fits, Stated, Nameless, Truncated, Budgeted, Exactly, Accounted, Held, NothingFits;
    var start := Budgeted(response);
    BudgetedIsAsBuilt(response);
    var bytes: nat;
    out, bytes := Record(start);
    FirstRound(start, out, bytes);
    var round := 0;
    assert NothingFits(start, 0) by { NothingYet(start); }
    while round < 2 && bytes > CAP
      invariant round <= 2 && Held(start, round, out, bytes)
      invariant AsBuilt(start) ==> NothingFits(start, round)
    {
      HeldBuilt(start, round, out, bytes);
      NextTrims(out, round);
      ghost var before, size := out, bytes;
      var next, shed := ShedPreviews(out, 1 - round);
      if shed {
        out, bytes := Record(next);
      } else {
        out := next;
      }
      Round(start, round, before, size, shed, out, bytes);
      if AsBuilt(start) { DoesNotFit(start, round, before, size); }
      round := round + 1;
    }
    if bytes <= CAP {
      Settled(start, round, out, bytes);
      return;
    }
    HeldBuilt(start, 2, out, bytes);
    NextTrims(out, 2);
    ghost var before, size := out, bytes;
    var next, shed := ShedBlocked(out);
    if shed {
      out, bytes := Record(next);
    } else {
      out := next;
    }
    Round(start, 2, before, size, shed, out, bytes);
    if AsBuilt(start) { DoesNotFit(start, 2, before, size); }
    if bytes <= CAP {
      Settled(start, 3, out, bytes);
      return;
    }
    HeldBuilt(start, 3, out, bytes);
    ghost var last, lastSize := out, bytes;
    var nameBytes := NameBytes(out);
    if 0 < nameBytes && bytes - nameBytes <= CAP {
      NamelessHasBudget(out);
      out, bytes := Record(Nameless(out));
      if bytes <= CAP {
        NameDropped(start, last, lastSize, out, bytes);
        return;
      }
    }
    TruncatedFits();
    ghost var larger, nameless := out, bytes;
    out, bytes := Record(Truncated());
    AllDropped(start, last, lastSize, larger, nameless, out, bytes);
  }

  lemma NothingYet(start: Fields)
    ensures NothingFits(start, 0)
  {
  }

  lemma HeldBuilt(start: Fields, i: nat, response: Fields, bytes: nat)
    requires Held(start, i, response, bytes)
    ensures HasBudget(response) && NameBytes(response) <= bytes && Trimmed(start, response)
    ensures i == 3 ==> AllShed(response)
    ensures bytes <= CAP ==> WithinTheCap(response)
  {
    hide Trimmed, AllShed, HasBudget, Stage, NameBytes, Bytes;
  }

  // ---- What a caller gets -----------------------------------------------------------------

  /** A response that already fits loses nothing. */
  lemma FittingLosesNothing(start: Fields, out: Fields)
    requires Exactly(start, out) && Fits(start)
    ensures Recorded(start, out) && forall key :: key != BUDGET ==> Get(out, key) == Get(start, key)
  {
    hide Fits, Recorded, AfterTheLast, Get;
    NothingYet(start);
    assert Stage(start, 0) == start;
    assert Recorded(start, out);
    RecordedKeeps(start, out);
  }

  lemma RecordedKeeps(start: Fields, out: Fields)
    requires Recorded(start, out)
    ensures forall key :: key != BUDGET ==> Get(out, key) == Get(start, key)
  {
    hide Get;
    WithBytesKeeps(start, Stated(out));
  }

  function Args(fields: Fields): (v: Option<Json>) {
    if Action(fields).None? then None else Get(Action(fields).value, ARGS)
  }

  /** The arguments of the proposed call go out whole or not at all. */
  lemma ArgsWholeOrGone(start: Fields, out: Fields)
    requires Accounted(start, out) && Action(start).Some?
    ensures Args(out) == Args(start) || Args(out) == Some(Obj([]))
  {
    hide Trimmed, Recorded, AllShed, Args, Nameless, Truncated, Action;
    if Trimmed(start, out) {
      ArgsOfTrimmed(start, out);
    } else if Dropped(start, out) {
      var shed :| Trimmed(start, shed) && AllShed(shed) && Recorded(Nameless(shed), out);
      NamelessArgs(shed);
      RecordedArgs(Nameless(shed), out);
    } else {
      TruncatedArgs();
      RecordedArgs(Truncated(), out);
    }
  }

  lemma ArgsOfTrimmed(start: Fields, out: Fields)
    requires Trimmed(start, out) && Action(start).Some?
    ensures Args(out) == Args(start)
  {
    hide Trimmed, Get, Action;
    ArgsAreNeverShortened(start, out);
  }

  lemma RecordedArgs(start: Fields, out: Fields)
    requires Recorded(start, out)
    ensures Args(out) == Args(start)
  {
    hide Recorded, Get;
    RecordedKeeps(start, out);
    assert Get(out, ACTION) == Get(start, ACTION);
  }

  lemma NamelessArgs(fields: Fields)
    ensures Args(Nameless(fields)) == Some(Obj([]))
  {
    hide NamelessReason;
    GetSet(fields, ACTION, NoAction(NamelessReason(), "oversized_function_name"), ACTION);
  }

  lemma TruncatedArgs()
    ensures Args(Truncated()) == Some(Obj([]))
  {
    hide NoAction, TruncatedReason, TruncatedBudget;
    var r := Truncated();
    assert Get(r, ACTION) == Get(r[1..], ACTION);
  }
}
