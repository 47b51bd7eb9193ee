/** The size of a response, and the number inside it that states that size. */
module PayloadSize {
  import opened Outcomes
  import opened Numerals
  import opened Json

  const CAP: nat := 16 * 1024

  type Fields = seq<Field>

  // ---- The self-describing size ---------------------------------------------------

  function Budget(fields: Fields): Option<Fields> {
    var b := Get(fields, BUDGET);
    if b.Some? && b.value.Obj? then Some(b.value.fields) else None
  }

  /** The response carries a number of bytes. */
  predicate HasBudget(fields: Fields) {
    Budget(fields).Some? && Get(Budget(fields).value, BYTES).Some? && Get(Budget(fields).value, BYTES).value.Num?
  }

  function Stated(fields: Fields): (n: nat)
    requires HasBudget(fields)
  {
    Get(Budget(fields).value, BYTES).value.n
  }

  function WithBytes(fields: Fields, n: nat): (r: Fields)
    requires HasBudget(fields)
  {
    Set(fields, BUDGET, Obj(Set(Budget(fields).value, BYTES, Num(n))))
  }

  function Bytes(fields: Fields): (n: nat) {
    Size(Obj(fields), 0)
  }

  lemma WithBytesKeeps(fields: Fields, n: nat)
    requires HasBudget(fields)
    ensures HasBudget(WithBytes(fields, n)) && Stated(WithBytes(fields, n)) == n
    ensures forall m :: WithBytes(WithBytes(fields, n), m) == WithBytes(fields, m)
    ensures forall key :: key != BUDGET ==> Get(WithBytes(fields, n), key) == Get(fields, key)
  {
    var budget := Budget(fields).value;
    GetSet(fields, BUDGET, Obj(Set(budget, BYTES, Num(n))), BUDGET);
    GetSet(budget, BYTES, Num(n), BYTES);
    forall m ensures WithBytes(WithBytes(fields, n), m) == WithBytes(fields, m) {
      SetTwice(budget, BYTES, Num(n), Num(m));
      SetTwice(fields, BUDGET, Obj(Set(budget, BYTES, Num(n))), Obj(Set(budget, BYTES, Num(m))));
    }
    forall key | key != BUDGET ensures Get(WithBytes(fields, n), key) == Get(fields, key) {
      GetSet(fields, BUDGET, Obj(Set(budget, BYTES, Num(n))), key);
    }
  }

  /** The size is a constant plus the width of the number printed in it. */
  lemma SizeIsBasePlusWidth(fields: Fields, n: nat)
    requires HasBudget(fields)
    ensures Bytes(WithBytes(fields, n)) + |Decimal(Stated(fields))| == Bytes(fields) + |Decimal(n)|
  {
    var budget := Budget(fields).value;
    SizeSet(budget, BYTES, Num(n), 1);
    SizeSet(fields, BUDGET, Obj(Set(budget, BYTES, Num(n))), 0);
  }

  ghost function Base(fields: Fields): int
    requires HasBudget(fields)
  {
    Bytes(fields) - |Decimal(Stated(fields))|
  }

  lemma BaseIsFixed(fields: Fields, n: nat)
    requires HasBudget(fields)
    ensures HasBudget(WithBytes(fields, n)) && Base(WithBytes(fields, n)) == Base(fields)
    ensures Bytes(WithBytes(fields, n)) == Base(fields) + |Decimal(n)|
    ensures Base(fields) >= 0
  {
    WithBytesKeeps(fields, n);
    SizeIsBasePlusWidth(fields, n);
    MemberSize(Budget(fields).value, BYTES, 1);
    MemberSize(fields, BUDGET, 0);
  }

  /** The number written is the size of the response it is written in. */
  ghost predicate Measured(fields: Fields, r: Fields, bytes: nat) {
    HasBudget(fields) && r == WithBytes(fields, bytes) && Bytes(r) == bytes
  }

  /**
   * Measures and writes the size until the number written is the size. From
   * the second round on the measurements move one way only, and they are
   * bounded, so this ends.
   */
  method Record(fields: Fields) returns (r: Fields, bytes: nat)
    requires HasBudget(fields)
    ensures Measured(fields, r, bytes)
  {
    r := fields;
    var recorded: nat := 0;
    ghost var base := Base(fields);
    BaseIsFixed(fields, 0);
    ghost var round: nat := 0;
    ghost var rising := false;
    while true
      invariant HasBudget(r) && Base(r) == base >= 0
      invariant round == 0 ==> r == fields && recorded == 0
      invariant round > 0 ==> r == WithBytes(fields, recorded)
      invariant round > 1 ==>
        if rising then recorded <= base + |Decimal(recorded)| else recorded >= base + |Decimal(recorded)|
      decreases if round < 2 then 2 - round else 0,
        if round < 2 then 0
        else if rising then (if recorded < 2 * base + 20 then 2 * base + 20 - recorded else 0)
        else recorded
    {
      bytes := Bytes(r);
      ghost var before := recorded;
      if bytes == recorded {
        return;
      }
      WithBytesKeeps(fields, recorded);
      BaseIsFixed(fields, recorded);
      BaseIsFixed(fields, bytes);
      recorded := bytes;
      r := WithBytes(r, recorded);
      if round >= 1 {
        Direction(base, before, bytes);
        rising := before <= bytes;
      }
      round := round + 1;
    }
  }

  /** One more measurement keeps moving the way the last one did. */
  lemma Direction(base: nat, before: nat, bytes: nat)
    requires bytes == base + |Decimal(before)|
    ensures before <= bytes ==> bytes <= base + |Decimal(bytes)|
    ensures before >= bytes ==> bytes >= base + |Decimal(bytes)|
    ensures before < bytes ==> before < 2 * base + 20
  {
    if before <= bytes { WidthMonotone(before, bytes); } else { WidthMonotone(bytes, before); }
    WidthBound(before);
  }

  /** The response fits, with the widest number that still counts as fitting written in it. */
  ghost predicate Fits(fields: Fields) {
    HasBudget(fields) && Bytes(WithBytes(fields, CAP)) <= CAP
  }

  /** Whether a recorded response is within the cap does not depend on the number recorded. */
  lemma FitsIff(fields: Fields, out: Fields, n: nat)
    requires Measured(fields, out, n)
    ensures n <= CAP <==> Fits(fields)
  {
    hide Bytes, WithBytes, HasBudget, Base, Decimal;
    BaseIsFixed(fields, n);
    BaseIsFixed(fields, CAP);
    WidthAtTheCap(n);
    WidthBound(n);
  }

  lemma WidthAtTheCap(n: nat)
    ensures |Decimal(CAP)| == 5
    ensures n < 10000 <==> |Decimal(n)| < 5
    ensures n < 100000 ==> |Decimal(n)| <= 5
  {
    assert |Decimal(CAP)| == 5 && |Decimal(9999)| == 4 && |Decimal(10000)| == 5 && |Decimal(99999)| == 5;
    if n < 10000 { WidthMonotone(n, 9999); } else { WidthMonotone(10000, n); }
    if n < 100000 { WidthMonotone(n, 99999); }
  }
}
