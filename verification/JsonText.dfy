/** The pretty-printed text whose size Json states, written out. */
module JsonText {
  import opened Numerals
  import opened Codec
  import opened Utf8Text
  import opened Json

  const HEX: string := "0123456789abcdef"

  /** Section 7 of RFC 8259, with the short forms where there are any. */
  function Escape(c: char): (s: string) {
    if c == '\"' then "\\\""
    else if c == '\\' then "\\\\"
    else if c as int == 0x08 then "\\b"
    else if c as int == 0x09 then "\\t"
    else if c as int == 0x0A then "\\n"
    else if c as int == 0x0C then "\\f"
    else if c as int == 0x0D then "\\r"
    else if c as int < 0x20 then "\\u00" + [HEX[c as int / 16], HEX[c as int % 16]]
    else [c]
  }

  function EscapeAll(s: string): (r: string) {
    if s == [] then [] else Escape(s[0]) + EscapeAll(s[1..])
  }

  function Quoted(s: string): (r: string) {
    "\"" + EscapeAll(s) + "\""
  }

  function Indent(depth: nat): (s: string) {
    if depth == 0 then "" else "  " + Indent(depth - 1)
  }

  /** One member or item a line, two spaces a level; empty lists and objects on one line. */
  function Print(j: Json, depth: nat): (s: string)
    decreases j, 1
  {
    match j
    case Null => "null"
    case Bool(b) => if b then "true" else "false"
    case Num(n) => Decimal(n)
    case Str(s) => Quoted(s)
    case Arr(items) =>
      if items == [] then "[]" else "[" + ItemLines(items, depth + 1) + "\n" + Indent(depth) + "]"
    case Obj(fields) =>
      if fields == [] then "{}" else "{" + FieldLines(fields, depth + 1) + "\n" + Indent(depth) + "}"
  }

  function ItemLines(items: seq<Json>, depth: nat): (s: string)
    requires items != []
    decreases items, 0
  {
    var line := "\n" + Indent(depth) + Print(items[0], depth);
    if |items| == 1 then line else line + "," + ItemLines(items[1..], depth)
  }

  function FieldLine(f: Field, depth: nat): (s: string)
    decreases f, 2
  {
    "\n" + Indent(depth) + Quoted(KeyText(f.key)) + ": " + Print(f.value, depth)
  }

  function FieldLines(fields: seq<Field>, depth: nat): (s: string)
    requires fields != []
    decreases fields, 0
  {
    var line := FieldLine(fields[0], depth);
    if |fields| == 1 then line else line + "," + FieldLines(fields[1..], depth)
  }

  // ---- Lengths in bytes ---------------------------------------------------------

  function Len(s: string): (n: nat) {
    |Text(s)|
  }

  lemma Plus(a: string, b: string)
    ensures Len(a + b) == Len(a) + Len(b)
  {
    TextJoin(a, b);
  }

  lemma {:induction false} Ascii(s: string)
    requires forall c :: c in s ==> c as int < 0x80
    ensures Len(s) == |s|
  {
    if s != [] {
      assert s[0] in s && forall c :: c in s[1..] ==> c in s;
      Ascii(s[1..]);
    }
  }

  lemma One(c: char)
    ensures Len([c]) == CharBytes(c)
  {
    assert Text([c]) == Encoded(c) + Text([]);
  }

  lemma {:induction false} TextBytesAre(s: string)
    ensures Len(s) == TextBytes(s)
  {
    if s != [] {
      assert s == [s[0]] + s[1..];
      One(s[0]);
      Plus([s[0]], s[1..]);
      TextBytesAre(s[1..]);
    }
  }

  lemma EscapeBytes(c: char)
    ensures Len(Escape(c)) == CharEscaped(c)
  {
    var u := c as int;
    var s := Escape(c);
    if u == 0x22 || u == 0x5C || u < 0x20 {
      assert HEX[u % 16] in HEX;
      assert forall d :: d in HEX ==> d as int < 0x80;
      assert forall i :: 0 <= i < |s| ==> s[i] as int < 0x80;
      Ascii(s);
    } else {
      One(c);
    }
  }

  lemma {:induction false} EscapeAllBytes(s: string)
    ensures Len(EscapeAll(s)) == TextEscaped(s)
  {
    if s != [] {
      EscapeBytes(s[0]);
      EscapeAllBytes(s[1..]);
      Plus(Escape(s[0]), EscapeAll(s[1..]));
    }
  }

  lemma QuotedBytes(s: string)
    ensures Len(Quoted(s)) == 2 + TextEscaped(s)
  {
    hide EscapeAll, Text;
    EscapeAllBytes(s);
    Ascii("\"");
    Plus("\"", EscapeAll(s));
    Plus("\"" + EscapeAll(s), "\"");
  }

  lemma {:induction false} IndentBytes(depth: nat)
    ensures Len(Indent(depth)) == 2 * depth
  {
    if depth > 0 {
      hide Text;
      IndentBytes(depth - 1);
      Ascii("  ");
      Plus("  ", Indent(depth - 1));
    }
  }

  /** A line break, the indentation and what stands on the line. */
  lemma LineBytes(depth: nat, body: string)
    ensures Len("\n" + Indent(depth) + body) == 1 + 2 * depth + Len(body)
  {
    hide Text;
    IndentBytes(depth);
    Ascii("\n");
    Plus("\n", Indent(depth));
    Plus("\n" + Indent(depth), body);
  }

  /** Two brackets around lines, the closing one on a line of its own. */
  lemma BlockBytes(open: string, lines: string, depth: nat, close: string)
    requires Len(open) == Len(close) == 1
    ensures Len(open + lines + "\n" + Indent(depth) + close) == Len(lines) + 3 + 2 * depth
  {
    hide Text;
    IndentBytes(depth);
    Ascii("\n");
    Plus(open, lines);
    Plus(open + lines, "\n");
    Plus(open + lines + "\n", Indent(depth));
    Plus(open + lines + "\n" + Indent(depth), close);
  }

  lemma CommaBytes(line: string, rest: string)
    ensures Len(line + "," + rest) == Len(line) + 1 + Len(rest)
  {
    hide Text;
    Ascii(",");
    Plus(line, ",");
    Plus(line + ",", rest);
  }

  lemma {:induction false} DecimalBytes(n: nat)
    ensures Len(Decimal(n)) == |Decimal(n)|
  {
    Ascii(Decimal(n));
  }

  /** The size of a value is the length in bytes of its pretty-printed text. */
  lemma {:induction false} SizeIsPrinted(j: Json, depth: nat)
    ensures Len(Print(j, depth)) == Size(j, depth)
    decreases j, 1
  {
    hide Len, EscapeAll, TextEscaped;
    match j
    case Null => Ascii("null");
    case Bool(b) => Ascii("true"); Ascii("false");
    case Num(n) => DecimalBytes(n);
    case Str(s) => QuotedBytes(s);
    case Arr(items) =>
      if items == [] {
        Ascii("[]");
      } else {
        ItemsArePrinted(items, depth + 1);
        Ascii("[");
        Ascii("]");
        BlockBytes("[", ItemLines(items, depth + 1), depth, "]");
      }
    case Obj(fields) =>
      if fields == [] {
        Ascii("{}");
      } else {
        FieldsArePrinted(fields, depth + 1);
        Ascii("{");
        Ascii("}");
        BlockBytes("{", FieldLines(fields, depth + 1), depth, "}");
      }
  }

  lemma {:induction false} ItemsArePrinted(items: seq<Json>, depth: nat)
    requires items != []
    ensures Len(ItemLines(items, depth)) + 1 == ItemsSize(items, depth) + |items|
    decreases items, 0
  {
    hide Len, Print, Size;
    var line := "\n" + Indent(depth) + Print(items[0], depth);
    SizeIsPrinted(items[0], depth);
    LineBytes(depth, Print(items[0], depth));
    if |items| == 1 {
      assert items[1..] == [];
    } else {
      ItemsArePrinted(items[1..], depth);
      CommaBytes(line, ItemLines(items[1..], depth));
    }
  }

  lemma {:induction false} FieldIsPrinted(f: Field, depth: nat)
    ensures Len(FieldLine(f, depth)) == MemberBytes(f, depth)
    decreases f, 2
  {
    hide Len, Print, Size, Quoted;
    var name, value := Quoted(KeyText(f.key)), Print(f.value, depth);
    SizeIsPrinted(f.value, depth);
    QuotedBytes(KeyText(f.key));
    LineBytes(depth, name);
    Ascii(": ");
    Plus("\n" + Indent(depth) + name, ": ");
    Plus("\n" + Indent(depth) + name + ": ", value);
  }

  lemma {:induction false} FieldsArePrinted(fields: seq<Field>, depth: nat)
    requires fields != []
    ensures Len(FieldLines(fields, depth)) + 1 == FieldsSize(fields, depth) + |fields|
    decreases fields, 0
  {
    hide Len, FieldLine, MemberBytes;
    FieldIsPrinted(fields[0], depth);
    if |fields| == 1 {
      assert fields[1..] == [];
    } else {
      FieldsArePrinted(fields[1..], depth);
      CommaBytes(FieldLine(fields[0], depth), FieldLines(fields[1..], depth));
    }
  }

  // ---- The members a response is read by --------------------------------------------

  lemma BudgetNames()
    ensures KeyText(BUDGET) == "payload_budget" && KeyText(BYTES) == "bytes"
    ensures KeyText(ACTION) == "next_action" && KeyText(ARGS) == "args" && KeyText(FUNCTION) == "function"
  {
  }

  lemma PreviewNames()
    ensures KeyText(READY) == "ready_functions" && KeyText(READY_OMITTED) == "ready_functions_omitted"
    ensures KeyText(FRONTIER) == "frontier" && KeyText(FRONTIER_OMITTED) == "frontier_omitted"
  {
  }

  lemma BlockedNames()
    ensures KeyText(BLOCKED_ROWS) == "blocked_functions" && KeyText(BLOCKED_OMITTED) == "blocked_functions_omitted"
  {
  }
}
