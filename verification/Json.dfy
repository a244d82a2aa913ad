/** JSON trees and how cJSON.c prints them. Text is bytes; a tree's strings are C strings without their NUL. */
module Json {

  type Text = seq<nat>

  datatype Json =
    | Null
    | False
    | True
    | Number(value: real)
    | String(text: Text)
    | Array(items: Items)
    | Object(members: Members)

  /** The child list of an array. */
  datatype Items = NoItem | Item(value: Json, next: Items)

  /** The child list of an object, where each child has a name. */
  datatype Members = NoMember | Member(name: Text, value: Json, next: Members)

  const CJSON_NESTING_LIMIT := 1000
  const INT_MAX := 0x7FFF_FFFF
  const INT_MIN := -0x8000_0000

  const QUOTE := 34
  const COMMA := 44
  const MINUS := 45
  const ZERO := 48
  const COLON := 58
  const OPEN := 91
  const BACKSLASH := 92
  const CLOSE := 93
  const BEGIN := 123
  const END := 125
  const TAB := 9
  const NEWLINE := 10
  const SPACE := 32

  const NULL: Text := [110, 117, 108, 108]
  const TRUE: Text := [116, 114, 117, 101]
  const FALSE: Text := [102, 97, 108, 115, 101]

  /** How the C library scans a number, and formats one that is no integer. */
  datatype Scan = Scan(value: real, used: nat)
  datatype Library = Library(strtod: Text -> Scan, format: real -> Text)

  // ---------- printing ----------

  function Digits(n: nat): (t: Text)
    ensures |t| > 0
  {
    if n < 10 then [ZERO + n] else Digits(n / 10) + [ZERO + n % 10]
  }

  /** `%d` */
  function Decimal(n: int): (t: Text)
    ensures |t| > 0
  {
    if n < 0 then [MINUS] + Digits(-n) else Digits(n)
  }

  /** `valueint`: the number cut to an int, with saturation. */
  function ValueInt(x: real): (n: int) {
    if x >= INT_MAX as real then INT_MAX
    else if x <= INT_MIN as real then INT_MIN
    else if x >= 0.0 then x.Floor else -((-x).Floor)
  }

  /** `print_number` */
  function NumberText(lib: Library, x: real): (t: Text) {
    if x == ValueInt(x) as real then Decimal(ValueInt(x)) else lib.format(x)
  }

  /** A digit of `%04x`. */
  function HexDigit(d: nat): (c: nat) { if d < 10 then ZERO + d else 97 + d - 10 }

  /** The letter of a short escape, or 0. */
  function ShortEscape(c: nat): (e: nat) {
    if c == QUOTE || c == BACKSLASH then c
    else if c == 8 then 98
    else if c == 12 then 102
    else if c == NEWLINE then 110
    else if c == 13 then 114
    else if c == TAB then 116
    else 0
  }

  /** One character of `print_string_ptr`. */
  function Escaped(c: nat): (t: Text) {
    if c > 31 && c != QUOTE && c != BACKSLASH then [c]
    else if ShortEscape(c) != 0 then [BACKSLASH, ShortEscape(c)]
    else [BACKSLASH, 117, ZERO, ZERO, HexDigit(c / 16), HexDigit(c % 16)]
  }

  function EscapedText(s: Text, from: nat): (t: Text)
    requires from <= |s|
    decreases |s| - from
  {
    if from == |s| then [] else Escaped(s[from]) + EscapedText(s, from + 1)
  }

  function StringText(s: Text): (t: Text) { [QUOTE] + EscapedText(s, 0) + [QUOTE] }

  function Tabs(n: nat): (t: Text) { seq(n, i => TAB) }

  function Wherever(fmt: bool, t: Text): (r: Text) { if fmt then t else [] }

  /** `print_value` at a depth. */
  function ValueText(lib: Library, v: Json, depth: nat, fmt: bool): (t: Text) {
    match v
    case Null => NULL
    case False => FALSE
    case True => TRUE
    case Number(x) => NumberText(lib, x)
    case String(s) => StringText(s)
    case Array(items) => [OPEN] + ItemsText(lib, items, depth + 1, fmt) + [CLOSE]
    case Object(ms) =>
      [BEGIN] + Wherever(fmt, [NEWLINE]) + MembersText(lib, ms, depth + 1, fmt) + Wherever(fmt, Tabs(depth)) + [END]
  }

  function ItemsText(lib: Library, items: Items, depth: nat, fmt: bool): (t: Text) {
    match items
    case NoItem => []
    case Item(v, next) =>
      ValueText(lib, v, depth, fmt) +
      (if next == NoItem then [] else [COMMA] + Wherever(fmt, [SPACE]) + ItemsText(lib, next, depth, fmt))
  }

  function MembersText(lib: Library, ms: Members, depth: nat, fmt: bool): (t: Text) {
    match ms
    case NoMember => []
    case Member(name, v, next) =>
      Wherever(fmt, Tabs(depth)) + StringText(name) + [COLON] + Wherever(fmt, [TAB]) + ValueText(lib, v, depth, fmt) +
      (if next == NoMember then [] else [COMMA]) + Wherever(fmt, [NEWLINE]) + MembersText(lib, next, depth, fmt)
  }

  /** How deep arrays and objects are nested. */
  function Nesting(v: Json): (n: nat) {
    match v
    case Array(items) => 1 + ItemsNesting(items)
    case Object(ms) => 1 + MembersNesting(ms)
    case _ => 0
  }

  function ItemsNesting(items: Items): (n: nat) {
    match items
    case NoItem => 0
    case Item(v, next) => Max(Nesting(v), ItemsNesting(next))
  }

  function MembersNesting(ms: Members): (n: nat) {
    match ms
    case NoMember => 0
    case Member(_, v, next) => Max(Nesting(v), MembersNesting(next))
  }

  function Max(a: nat, b: nat): (m: nat) { if a < b then b else a }
}
