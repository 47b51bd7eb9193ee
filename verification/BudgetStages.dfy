/** What goes out under the byte cap, told by the rows a reader of the response sees. */
module BudgetStages {
  import opened Outcomes
  import opened Numerals
  import opened Json
  import opened PayloadSize
  import opened PayloadBudget

  // ---- Previews cut short ---------------------------------------------------------

  /** The first row, or nothing when there is none. */
  function FirstRow(rows: seq<Json>): (r: seq<Json>) {
    if rows == [] then [] else [rows[0]]
  }

  function Shown(rows: seq<Json>, one: bool): (r: seq<Json>) {
    if one then FirstRow(rows) else []
  }

  /** b shows the first row of the list in a, or none, with the others added to the number left out. */
  predicate Shows(a: Fields, b: Fields, field: Key, omitted: Key, one: bool) {
    match Get(a, field)
    case Some(Arr(rows)) =>
      var earlier := match Get(a, omitted) case Some(Num(n)) => n case _ => 0;
      && Get(b, field) == Some(Arr(Shown(rows, one)))
      && Get(b, omitted) == Some(Num(earlier + |rows| - |Shown(rows, one)|))
    case _ => Get(b, field) == Get(a, field) && Get(b, omitted) == Get(a, omitted)
  }

  /** The list written anew, with the number left out behind it. */
  function WithShown(fields: Fields, field: Key, omitted: Key, one: bool): (r: Fields) {
    match Get(fields, field)
    case Some(Arr(rows)) =>
      var earlier := match Get(fields, omitted) case Some(Num(n)) => n case _ => 0;
      Set(Set(fields, field, Arr(Shown(rows, one))), omitted, Num(earlier + |rows| - |Shown(rows, one)|))
    case _ => fields
  }

  lemma OmitShows(fields: Fields, field: Key, omitted: Key, one: bool)
    requires field != omitted
    ensures var keep := if one then 1 else 0;
      Omit(fields, field, omitted, keep) == WithShown(fields, field, omitted, one)
    ensures Shows(fields, WithShown(fields, field, omitted, one), field, omitted, one)
    ensures SameExcept(fields, WithShown(fields, field, omitted, one), {field, omitted})
  {
    hide Get, Set;
    var keep := if one then 1 else 0;
    var rows := Rows(fields, field);
    if rows.Some? {
      assert Shown(rows.value, one) == rows.value[..Retained(rows.value, keep)];
      OmitGets(fields, field, omitted, keep, field);
      OmitGets(fields, field, omitted, keep, omitted);
      forall key | key !in {field, omitted}
        ensures Get(WithShown(fields, field, omitted, one), key) == Get(fields, key)
      {
        OmitGets(fields, field, omitted, keep, key);
      }
    }
  }

  /** Both previews cut to one row each, or to none. */
  function Cut(fields: Fields, one: bool): (r: Fields) {
    WithShown(WithShown(fields, READY, READY_OMITTED, one), FRONTIER, FRONTIER_OMITTED, one)
  }

  predicate BothShow(a: Fields, b: Fields, one: bool) {
    Shows(a, b, READY, READY_OMITTED, one) && Shows(a, b, FRONTIER, FRONTIER_OMITTED, one)
  }

  ghost predicate ElseSame(a: Fields, b: Fields) {
    forall key :: key !in {READY, READY_OMITTED, FRONTIER, FRONTIER_OMITTED, BUDGET} ==> Get(b, key) == Get(a, key)
  }

  lemma CutShows(fields: Fields, one: bool)
    ensures Cut(fields, one) == Previews(fields, if one then 1 else 0)
    ensures BothShow(fields, Cut(fields, one), one) && ElseSame(fields, Cut(fields, one))
    ensures Get(Cut(fields, one), BUDGET) == Get(fields, BUDGET)
  {
    hide Get, Omit, WithShown, Shown;
    var r1 := WithShown(fields, READY, READY_OMITTED, one);
    OmitShows(fields, READY, READY_OMITTED, one);
    OmitShows(r1, FRONTIER, FRONTIER_OMITTED, one);
    assert Get(r1, FRONTIER) == Get(fields, FRONTIER) && Get(r1, FRONTIER_OMITTED) == Get(fields, FRONTIER_OMITTED);
    var r2 := WithShown(r1, FRONTIER, FRONTIER_OMITTED, one);
    assert Get(r2, READY) == Get(r1, READY) && Get(r2, READY_OMITTED) == Get(r1, READY_OMITTED);
  }

  /** Having shown one row and then none counts the same as showing none at once. */
  lemma CutTwice(a: Fields, b: Fields, c: Fields)
    requires BothShow(a, b, true) && BothShow(b, c, false)
    ensures BothShow(a, c, false)
  {
    hide Get;
  }

  /** The action's list of blocked functions emptied. */
  function NoBlocked(fields: Fields): (r: Fields) {
    match Get(fields, ACTION)
    case Some(Obj(action)) => Set(fields, ACTION, Obj(WithShown(action, BLOCKED_ROWS, BLOCKED_OMITTED, false)))
    case _ => fields
  }

  ghost predicate ActionShowsNoBlocked(a: Fields, b: Fields) {
    match Get(a, ACTION)
    case Some(Obj(action)) =>
      exists action' :: Get(b, ACTION) == Some(Obj(action'))
        && Shows(action, action', BLOCKED_ROWS, BLOCKED_OMITTED, false)
        && SameExcept(action, action', {BLOCKED_ROWS, BLOCKED_OMITTED})
    case _ => Get(b, ACTION) == Get(a, ACTION)
  }

  lemma NoBlockedShows(fields: Fields)
    ensures NoBlocked(fields) == WithoutBlocked(fields)
    ensures ActionShowsNoBlocked(fields, NoBlocked(fields)) && SameExcept(fields, NoBlocked(fields), {ACTION})
  {
    hide Get, Set, Omit, WithShown, Shows;
    match Get(fields, ACTION)
    case Some(Obj(action)) =>
      var action' := WithShown(action, BLOCKED_ROWS, BLOCKED_OMITTED, false);
      OmitShows(action, BLOCKED_ROWS, BLOCKED_OMITTED, false);
      forall key ensures Get(NoBlocked(fields), key) == if key == ACTION then Some(Obj(action')) else Get(fields, key) {
        GetSet(fields, ACTION, Obj(action'), key);
      }
    case _ =>
  }

  // ---- The decision ------------------------------------------------------------------

  /** out is the response with its own size written in it, and that is within the cap. */
  ghost predicate GoesOut(fields: Fields, out: Fields) {
    HasBudget(fields) && out == WithBytes(fields, Bytes(out)) && Bytes(out) <= 16384
  }

  /** It fits when it can be sent with its size in it. */
  lemma FitsMeansGoesOut(fields: Fields, out: Fields)
    requires Recorded(fields, out)
    ensures Fits(fields) <==> GoesOut(fields, out)
  {
    hide Bytes, WithBytes, HasBudget, Stated;
    FitsIff(fields, out, Stated(out));
  }

  ghost predicate Fitting(fields: Fields) {
    exists out :: GoesOut(fields, out)
  }

  lemma FittingIsFits(fields: Fields)
    ensures Fitting(fields) <==> Fits(fields)
  {
    hide Bytes, WithBytes, Base, Decimal;
    if out :| GoesOut(fields, out) {
      FitsIff(fields, out, Bytes(out));
    }
    if Fits(fields) {
      var n := WidthThatFits(fields);
      BaseIsFixed(fields, n);
      FitsIff(fields, WithBytes(fields, n), n);
      assert GoesOut(fields, WithBytes(fields, n));
    }
  }

  /** Some number is the size of the response it is written in. */
  lemma WidthThatFits(fields: Fields) returns (n: nat)
    requires HasBudget(fields) && Fits(fields)
    ensures Bytes(WithBytes(fields, n)) == n
  {
    hide Bytes, WithBytes, HasBudget, Base, Decimal;
    BaseIsFixed(fields, 0);
    n := FixedPoint(Base(fields));
    BaseIsFixed(fields, n);
  }

  lemma FixedPoint(base: nat) returns (n: nat)
    ensures n == base + |Decimal(n)|
  {
    hide Decimal;
    n := Climb(base, 0);
  }

  /** Adding the width of the last guess climbs to a number that stays. */
  lemma {:induction false} Climb(base: nat, k: nat) returns (n: nat)
    requires k <= base + |Decimal(k)|
    ensures n == base + |Decimal(n)|
    decreases 2 * base + 20 - k
  {
    hide Decimal;
    var next := base + |Decimal(k)|;
    if next == k {
      n := k;
    } else {
      WidthBound(k);
      WidthMonotone(k, next);
      n := Climb(base, next);
    }
  }

  /** The first of these that can be sent: whole, one row of each preview, no row, no blocked function either. */
  ghost predicate Sends(start: Fields, out: Fields) {
    var one, none, less := Cut(start, true), Cut(Cut(start, true), false), NoBlocked(Cut(Cut(start, true), false));
    if Fitting(start) then GoesOut(start, out)
    else if Fitting(one) then GoesOut(one, out)
    else if Fitting(none) then GoesOut(none, out)
    else if Fitting(less) then GoesOut(less, out)
    else exists shed :: Recorded(less, shed) && LastResort(shed, out)
  }

  lemma StagesAre(start: Fields)
    ensures var one := Cut(start, true);
      && Stage(start, 0) == start && Stage(start, 1) == one && Stage(start, 2) == Cut(one, false)
      && Stage(start, 3) == NoBlocked(Cut(one, false))
  {
    hide Cut, Previews, NoBlocked, WithoutBlocked;
    var one := Cut(start, true);
    CutShows(start, true);
    CutShows(one, false);
    NoBlockedShows(Cut(one, false));
    assert Stage(start, 0) == start;
    assert Stage(start, 1) == Next(start, 0) == one;
    assert Stage(start, 2) == Next(one, 1);
    assert Stage(start, 3) == Next(Cut(one, false), 2);
  }

  lemma AtStage(start: Fields, i: nat, out: Fields)
    requires Exactly(start, out) && i <= 3 && NothingFits(start, i) && Fits(Stage(start, i))
    ensures GoesOut(Stage(start, i), out)
  {
    hide Fits, Stage, AfterTheLast, Recorded, GoesOut;
    assert Recorded(Stage(start, i), out);
    FitsMeansGoesOut(Stage(start, i), out);
  }

  lemma NothingBefore(start: Fields, i: nat)
    ensures NothingFits(start, i + 1) <==> NothingFits(start, i) && !Fits(Stage(start, i))
  {
    hide Fits, Stage;
  }

  lemma SendsTheFirst(start: Fields, out: Fields)
    requires Exactly(start, out)
    ensures Sends(start, out)
  {
    hide Fits, Fitting, Stage, Recorded, LastResort, GoesOut, Cut, NoBlocked, NothingFits;
    StagesAre(start);
    NothingYet(start);
    for i := 0 to 4
      invariant 0 <= i <= 4
      invariant forall k: nat :: k < i ==> !Fits(Stage(start, k))
      invariant NothingFits(start, i)
    {
      NothingBefore(start, i);
      FittingIsFits(Stage(start, i));
      if Fits(Stage(start, i)) {
        AtStage(start, i, out);
        forall k: nat | k <= i ensures Fitting(Stage(start, k)) <==> Fits(Stage(start, k)) {
          FittingIsFits(Stage(start, k));
        }
        return;
      }
    }
    forall k: nat | k <= 3 ensures !Fitting(Stage(start, k)) {
      FittingIsFits(Stage(start, k));
    }
    assert AfterTheLast(LastStage(start), out);
  }

  /** What is sent after Finish, for a response as built. */
  lemma FinishSends(response: Fields, out: Fields)
    requires Exactly(Budgeted(response), out)
    ensures Sends(Budgeted(response), out)
  {
    SendsTheFirst(Budgeted(response), out);
  }

  lemma SizeAside(fields: Fields, out: Fields)
    requires GoesOut(fields, out)
    ensures forall key :: key != BUDGET ==> Get(out, key) == Get(fields, key)
  {
    hide Get, Bytes;
    WithBytesKeeps(fields, Bytes(out));
  }

  /**
   * Too large as a whole, but not with one row of each preview: both lists go
   * out with their first row, or empty if they were empty, the others counted,
   * and nothing else is different but the size.
   */
  lemma OneRowOfEach(start: Fields, out: Fields)
    requires Exactly(start, out) && !Fitting(start) && Fitting(Cut(start, true))
    ensures BothShow(start, out, true) && ElseSame(start, out) && Bytes(out) <= 16384
  {
    hide Get, Bytes, Cut, Fitting, Exactly, WithBytes;
    SendsTheFirst(start, out);
    CutShows(start, true);
    SizeAside(Cut(start, true), out);
  }

  /** Too large even so: both lists go out empty, every row counted. */
  lemma NoRowOfEither(start: Fields, out: Fields)
    requires Exactly(start, out) && !Fitting(start) && !Fitting(Cut(start, true))
    requires Fitting(Cut(Cut(start, true), false))
    ensures BothShow(start, out, false) && ElseSame(start, out) && Bytes(out) <= 16384
  {
    hide Get, Bytes, Cut, Fitting, Exactly, WithBytes, Shows;
    SendsTheFirst(start, out);
    var one := Cut(start, true);
    CutShows(start, true);
    CutShows(one, false);
    CutTwice(start, one, Cut(one, false));
    SizeAside(Cut(one, false), out);
    SameShown(start, Cut(one, false), out);
  }

  lemma SameShown(a: Fields, b: Fields, c: Fields)
    requires BothShow(a, b, false) && forall key :: key != BUDGET ==> Get(c, key) == Get(b, key)
    ensures BothShow(a, c, false)
  {
    hide Get;
  }

  /** The last resort short of giving up: an action that calls nothing takes the place of the proposed one. */
  predicate CallsNothing(action: Json, blocker: string) {
    && action.Obj? && Get(action.fields, Other("tool")) == Some(Null) && Get(action.fields, ARGS) == Some(Obj([]))
    && Get(action.fields, Other("blockers")) == Some(Arr([Str(blocker)]))
  }

  lemma NoActionCallsNothing(reason: string, blocker: string)
    ensures CallsNothing(NoAction(reason, blocker), blocker)
  {
    var fields := NoAction(reason, blocker).fields;
    var after1, after2, after3 := fields[1..], fields[1..][1..], fields[1..][1..][1..];
    assert after3[0].key == Other("blockers") && after2[0].key == Other("reason");
    assert Get(after2, Other("blockers")) == Get(after3, Other("blockers")) == Some(Arr([Str(blocker)]));
    assert Get(fields, Other("blockers")) == Get(after1, Other("blockers")) == Get(after2, Other("blockers"));
    assert Get(fields, ARGS) == Get(after1, ARGS);
  }

  /** The length of /next_action/args/function, or nothing if that is no text. */
  function NameLength(fields: Fields): (n: nat) {
    match Get(fields, ACTION)
    case Some(Obj(action)) =>
      (match Get(action, ARGS)
       case Some(Obj(args)) => (match Get(args, FUNCTION) case Some(Str(s)) => TextBytes(s) case _ => 0)
       case _ => 0)
    case _ => 0
  }

  /** Otherwise the action alone goes if the name in it is to blame, and else everything. */
  lemma LastResortSends(shed: Fields, out: Fields)
    requires LastResort(shed, out)
    ensures if NameLength(shed) > 0 && Bytes(shed) - NameLength(shed) <= 16384 && Fits(Nameless(shed))
      then
        && Get(out, ACTION).Some? && CallsNothing(Get(out, ACTION).value, "oversized_function_name")
        && forall key :: key != ACTION && key != BUDGET ==> Get(out, key) == Get(shed, key)
      else
        && Get(out, ACTION).Some? && CallsNothing(Get(out, ACTION).value, "payload_budget")
        && Get(out, Other("status")) == Some(Str("payload_truncated"))
  {
    hide Bytes, Recorded, Fits, Nameless, Truncated, Get, CallsNothing, TextBytes;
    SameLength(shed);
    if DropsName(shed, Bytes(shed)) && Fits(Nameless(shed)) {
      NamelessSends(shed, out);
    } else {
      TruncatedSends(out);
    }
  }

  lemma SameLength(fields: Fields)
    ensures NameLength(fields) == NameBytes(fields)
  {
    hide Get, TextBytes;
  }

  lemma NamelessSends(shed: Fields, out: Fields)
    requires Recorded(Nameless(shed), out)
    ensures Get(out, ACTION).Some? && CallsNothing(Get(out, ACTION).value, "oversized_function_name")
    ensures forall key :: key != ACTION && key != BUDGET ==> Get(out, key) == Get(shed, key)
  {
    hide Recorded, NoAction, CallsNothing, Get, NamelessReason;
    var action := NoAction(NamelessReason(), "oversized_function_name");
    NoActionCallsNothing(NamelessReason(), "oversized_function_name");
    RecordedKeeps(Nameless(shed), out);
    forall key ensures Get(Nameless(shed), key) == if key == ACTION then Some(action) else Get(shed, key) {
      GetSet(shed, ACTION, action, key);
    }
  }

  lemma TruncatedSends(out: Fields)
    requires Recorded(Truncated(), out)
    ensures Get(out, ACTION).Some? && CallsNothing(Get(out, ACTION).value, "payload_budget")
    ensures Get(out, Other("status")) == Some(Str("payload_truncated"))
  {
    hide Recorded, NoAction, CallsNothing, TruncatedReason, TruncatedBudget;
    NoActionCallsNothing(TruncatedReason(), "payload_budget");
    RecordedKeeps(Truncated(), out);
    var r := Truncated();
    assert Get(r, ACTION) == Get(r[1..], ACTION);
  }

  // ---- The cap in the response -------------------------------------------------------

  /** What the response says it leaves out: five members that it never has, or all of it. */
  predicate NamesTheOmitted(omitted: Json) {
    || omitted
       == Arr([Str("order"), Str("verification_order"), Str("scc_groups"), Str("conclusions"), Str("project_state")])
    || omitted == Arr([Str("response")])
  }

  /** The response names the cap and what is left out beside its size. */
  predicate StatesTheCap(out: Fields) {
    match Get(out, BUDGET)
    case Some(Obj(budget)) =>
      && Get(budget, Other("cap_bytes")) == Some(Num(16384))
      && Get(budget, Other("omitted_fields")).Some?
      && NamesTheOmitted(Get(budget, Other("omitted_fields")).value)
    case _ => false
  }

  lemma RecordingKeepsTheCap(fields: Fields, n: nat)
    requires HasBudget(fields)
    ensures StatesTheCap(WithBytes(fields, n)) <==> StatesTheCap(fields)
  {
    hide Get, Set, NamesTheOmitted;
    var budget := Budget(fields).value;
    GetSet(fields, BUDGET, Obj(Set(budget, BYTES, Num(n))), BUDGET);
    GetSet(budget, BYTES, Num(n), Other("cap_bytes"));
    GetSet(budget, BYTES, Num(n), Other("omitted_fields"));
  }

  lemma FreshBudgetStatesTheCap(response: Fields)
    ensures StatesTheCap(Budgeted(response))
  {
    hide Set;
    GetSet(response, BUDGET, FRESH_BUDGET, BUDGET);
    ThirdOfThree(FRESH_BUDGET.fields);
  }

  lemma ThirdOfThree(fields: Fields)
    requires |fields| == 3 && fields[0].key != fields[2].key && fields[1].key != fields[2].key
    ensures Get(fields, fields[2].key) == Some(fields[2].value)
  {
    assert Get(fields, fields[2].key) == Get(fields[1..], fields[2].key) == Get(fields[2..], fields[2].key);
  }

  lemma TruncatedStatesTheCap()
    ensures StatesTheCap(Truncated())
  {
    hide NoAction, TruncatedReason;
    ThirdOfThree(Truncated());
    ThirdOfThree(TruncatedBudget().fields);
  }

  lemma StagesKeepTheCap(start: Fields)
    requires StatesTheCap(start)
    ensures var one := Cut(start, true);
      StatesTheCap(one) && StatesTheCap(Cut(one, false)) && StatesTheCap(NoBlocked(Cut(one, false)))
    ensures StatesTheCap(Nameless(start))
  {
    hide Get, Set, Cut, NoBlocked, NoAction, NamelessReason;
    var one := Cut(start, true);
    CutShows(start, true);
    CutShows(one, false);
    NoBlockedShows(Cut(one, false));
    GetSet(start, ACTION, NoAction(NamelessReason(), "oversized_function_name"), BUDGET);
  }

  /** Whatever goes out says what the cap is. */
  lemma OutStatesTheCap(response: Fields, out: Fields)
    requires Exactly(Budgeted(response), out)
    ensures StatesTheCap(out)
  {
    hide Exactly, StatesTheCap, Cut, NoBlocked, Fitting, Bytes, Recorded, WithBytes, Nameless, Truncated, DropsName;
    var start := Budgeted(response);
    SendsTheFirst(start, out);
    FreshBudgetStatesTheCap(response);
    StagesKeepTheCap(start);
    TruncatedStatesTheCap();
    var less := NoBlocked(Cut(Cut(start, true), false));
    if shed :| Recorded(less, shed) && LastResort(shed, out) {
      RecordedKeepsTheCap(less, shed);
      LastKeepsTheCap(shed, out);
    } else {
      SentKeepsTheCap(start, out);
    }
  }

  lemma RecordedKeepsTheCap(fields: Fields, out: Fields)
    requires Recorded(fields, out)
    ensures StatesTheCap(out) <==> StatesTheCap(fields)
  {
    hide StatesTheCap, Bytes;
    RecordingKeepsTheCap(fields, Stated(out));
  }

  lemma SentKeepsTheCap(start: Fields, out: Fields)
    requires Sends(start, out) && StatesTheCap(start)
    requires !exists shed :: Recorded(NoBlocked(Cut(Cut(start, true), false)), shed) && LastResort(shed, out)
    ensures StatesTheCap(out)
  {
    hide StatesTheCap, Cut, NoBlocked, Fitting, Bytes, Recorded, LastResort, WithBytes, HasBudget;
    StagesKeepTheCap(start);
    forall fields | GoesOut(fields, out) ensures StatesTheCap(out) <==> StatesTheCap(fields) {
      RecordingKeepsTheCap(fields, Bytes(out));
    }
  }

  lemma LastKeepsTheCap(shed: Fields, out: Fields)
    requires LastResort(shed, out) && StatesTheCap(shed)
    ensures StatesTheCap(out)
  {
    hide StatesTheCap, Nameless, Truncated, Recorded, Fits, Bytes, DropsName;
    TruncatedStatesTheCap();
    StagesKeepTheCap(shed);
    if Recorded(Nameless(shed), out) { RecordedKeepsTheCap(Nameless(shed), out); }
    if Recorded(Truncated(), out) { RecordedKeepsTheCap(Truncated(), out); }
  }
}
