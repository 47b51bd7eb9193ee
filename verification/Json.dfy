/** JSON values as trees, and the size of their pretty-printed text in bytes. */
module Json {
  import opened Outcomes
  import opened Numerals

  /** The name of a member: one of the table below, by which a response is read, or any name outside it. */
  datatype Key = Known(id: nat) | Other(name: string)

  const BUDGET: Key := Known(0)
  const BYTES: Key := Known(1)
  const ACTION: Key := Known(2)
  const ARGS: Key := Known(3)
  const FUNCTION: Key := Known(4)
  const READY: Key := Known(5)
  const READY_OMITTED: Key := Known(6)
  const FRONTIER: Key := Known(7)
  const FRONTIER_OMITTED: Key := Known(8)
  const BLOCKED_ROWS: Key := Known(9)
  const BLOCKED_OMITTED: Key := Known(10)

  const KNOWN_NAMES: seq<string> := [
    "payload_budget", "bytes", "next_action", "args", "function", "ready_functions", "ready_functions_omitted",
    "frontier", "frontier_omitted", "blocked_functions", "blocked_functions_omitted"
  ]

  function KeyText(k: Key): (s: string) {
    match k
    case Known(id) => if id < |KNOWN_NAMES| then KNOWN_NAMES[id] else ""
    case Other(name) => name
  }

  datatype Field = Field(key: Key, value: Json)

  datatype Json = Null | Bool(b: bool) | Num(n: nat) | Str(s: string) | Arr(items: seq<Json>) | Obj(fields: seq<Field>)

  lemma KnownNamesAreShort(k: Key)
    ensures k.Known? ==> |KeyText(k)| <= 30
  {
  }

  // ---- Objects ----------------------------------------------------------------

  function Get(fields: seq<Field>, key: Key): (v: Option<Json>)
    ensures v.Some? ==> Field(key, v.value) in fields
  {
    if fields == [] then None
    else if fields[0].key == key then Some(fields[0].value)
    else Get(fields[1..], key)
  }

  /** The value replaces the one under the key, or goes to the end. */
  function Set(fields: seq<Field>, key: Key, v: Json): (r: seq<Field>) {
    if fields == [] then [Field(key, v)]
    else if fields[0].key == key then [Field(key, v)] + fields[1..]
    else [fields[0]] + Set(fields[1..], key, v)
  }

  lemma {:induction false} GetSet(fields: seq<Field>, key: Key, v: Json, other: Key)
    ensures Get(Set(fields, key, v), other) == if other == key then Some(v) else Get(fields, other)
  {
    if fields != [] && fields[0].key != key {
      GetSet(fields[1..], key, v, other);
    }
  }

  lemma {:induction false} SetSame(fields: seq<Field>, key: Key, v: Json)
    requires Get(fields, key) == Some(v)
    ensures Set(fields, key, v) == fields
  {
    if fields[0].key == key {
      assert fields == [fields[0]] + fields[1..];
    } else {
      SetSame(fields[1..], key, v);
    }
  }

  lemma {:induction false} SetTwice(fields: seq<Field>, key: Key, v: Json, w: Json)
    ensures Set(Set(fields, key, v), key, w) == Set(fields, key, w)
  {
    if fields != [] {
      if fields[0].key == key {
        assert ([Field(key, v)] + fields[1..])[1..] == fields[1..];
      } else {
        SetTwice(fields[1..], key, v, w);
        assert Set(fields, key, v)[1..] == Set(fields[1..], key, v);
      }
    }
  }

  /** Writing two members is the same in either order, unless both are new. */
  lemma {:induction false} SetCommutes(fields: seq<Field>, a: Key, x: Json, b: Key, y: Json)
    requires a != b && Get(fields, a).Some?
    ensures Set(Set(fields, a, x), b, y) == Set(Set(fields, b, y), a, x)
  {
    var f, tail := fields[0], fields[1..];
    assert fields == [f] + tail;
    if f.key == a {
      assert ([Field(a, x)] + tail)[1..] == tail && ([f] + Set(tail, b, y))[1..] == Set(tail, b, y);
    } else if f.key == b {
      assert ([f] + Set(tail, a, x))[1..] == Set(tail, a, x) && ([Field(b, y)] + tail)[1..] == tail;
    } else {
      SetCommutes(tail, a, x, b, y);
      assert ([f] + Set(tail, a, x))[1..] == Set(tail, a, x) && ([f] + Set(tail, b, y))[1..] == Set(tail, b, y);
    }
  }

  // ---- Sizes --------------------------------------------------------------------

  /** Bytes of a character in UTF-8. */
  function CharBytes(c: char): (n: nat)
    ensures 1 <= n <= 4
  {
    var u := c as int;
    if u < 0x80 then 1 else if u < 0x800 then 2 else if u < 0x1_0000 then 3 else 4
  }

  /** Bytes of a character inside a JSON string. */
  function CharEscaped(c: char): (n: nat)
    ensures CharBytes(c) <= n <= 6
  {
    var u := c as int;
    if u == 0x22 || u == 0x5C || u == 0x08 || u == 0x09 || u == 0x0A || u == 0x0C || u == 0x0D then 2
    else if u < 0x20 then 6
    else CharBytes(c)
  }

  function TextBytes(s: string): (n: nat) {
    if s == [] then 0 else CharBytes(s[0]) + TextBytes(s[1..])
  }

  function TextEscaped(s: string): (n: nat)
    ensures TextBytes(s) <= n <= 6 * |s|
  {
    if s == [] then 0 else CharEscaped(s[0]) + TextEscaped(s[1..])
  }

  /** Pretty-printed with two spaces a level. */
  function Size(j: Json, depth: nat): (n: nat)
    ensures n >= 1
    decreases j, 1
  {
    match j
    case Null => 4
    case Bool(b) => if b then 4 else 5
    case Num(n) => |Decimal(n)|
    case Str(s) => 2 + TextEscaped(s)
    case Arr(items) => if items == [] then 2 else ItemsSize(items, depth + 1) + |items| + 2 + 2 * depth
    case Obj(fields) => if fields == [] then 2 else FieldsSize(fields, depth + 1) + |fields| + 2 + 2 * depth
  }

  function ItemsSize(items: seq<Json>, depth: nat): (n: nat)
    decreases items, 0
  {
    if items == [] then 0 else 1 + 2 * depth + Size(items[0], depth) + ItemsSize(items[1..], depth)
  }

  /** A line of its own, indented, the quoted name, a colon, a space and the value. */
  function MemberBytes(f: Field, depth: nat): (n: nat)
    decreases f, 2
  {
    5 + 2 * depth + TextEscaped(KeyText(f.key)) + Size(f.value, depth)
  }

  function FieldsSize(fields: seq<Field>, depth: nat): (n: nat)
    decreases fields, 0
  {
    if fields == [] then 0 else MemberBytes(fields[0], depth) + FieldsSize(fields[1..], depth)
  }

  lemma {:induction false} FieldsSizeSet(fields: seq<Field>, key: Key, v: Json, depth: nat)
    requires Get(fields, key).Some?
    ensures |Set(fields, key, v)| == |fields|
    ensures FieldsSize(Set(fields, key, v), depth) + Size(Get(fields, key).value, depth)
      == FieldsSize(fields, depth) + Size(v, depth)
  {
    if fields[0].key == key {
      assert Set(fields, key, v)[1..] == fields[1..];
    } else {
      FieldsSizeSet(fields[1..], key, v, depth);
      assert Set(fields, key, v)[1..] == Set(fields[1..], key, v);
    }
  }

  /** Replacing a member of an object changes its size by what the member's size changes. */
  lemma SizeSet(fields: seq<Field>, key: Key, v: Json, depth: nat)
    requires Get(fields, key).Some?
    ensures Size(Obj(Set(fields, key, v)), depth) + Size(Get(fields, key).value, depth + 1)
      == Size(Obj(fields), depth) + Size(v, depth + 1)
  {
    FieldsSizeSet(fields, key, v, depth + 1);
  }

  /** A member is no larger than the object that holds it. */
  lemma {:induction false} MemberSize(fields: seq<Field>, key: Key, depth: nat)
    requires Get(fields, key).Some?
    ensures Size(Get(fields, key).value, depth + 1) <= FieldsSize(fields, depth + 1) <= Size(Obj(fields), depth)
  {
    if fields[0].key != key {
      MemberSize(fields[1..], key, depth);
    }
  }
}
