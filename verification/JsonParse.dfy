/** How cJSON.c reads JSON: each function takes the text, an offset and the depth, and fails or gives the offset after. */
module JsonParse {
  import opened Json

  datatype Parsed<T> = Fail | Ok(value: T, next: nat)

  /** What the C library promises of any scan. */
  ghost predicate Scans(lib: Library) { forall t :: lib.strtod(t).used <= |t| }

  /** `buffer_skip_whitespace`: also control characters and NUL, but never past the last byte. */
  function SkipWhitespace(s: Text, i: nat): (j: nat)
    ensures i <= j && (i < |s| ==> j < |s|)
  {
    if i >= |s| then i
    else
      var j := SkipBlank(s, i);
      if j == |s| then j - 1 else j
  }

  function SkipBlank(s: Text, i: nat): (j: nat)
    requires i <= |s|
    ensures i <= j <= |s|
    decreases |s| - i
  {
    if i < |s| && s[i] <= 32 then SkipBlank(s, i + 1) else i
  }

  predicate At(s: Text, i: nat, t: Text) { i + |t| <= |s| && s[i..i + |t|] == t }

  predicate Has(s: Text, i: nat, c: nat) { i < |s| && s[i] == c }

  // ---------- numbers ----------

  predicate IsDigit(c: nat) { 48 <= c <= 57 }

  /** Digits, signs, the point and the exponent. */
  predicate IsNumeric(c: nat) { IsDigit(c) || c == 43 || c == 45 || c == 46 || c == 69 || c == 101 }

  function NumericEnd(s: Text, i: nat): (j: nat)
    requires i <= |s|
    ensures i <= j <= |s|
    decreases |s| - i
  {
    if i < |s| && IsNumeric(s[i]) then NumericEnd(s, i + 1) else i
  }

  /** `parse_number` */
  function ParseNumber(lib: Library, s: Text, i: nat): (r: Parsed<Json>)
    requires i <= |s|
  {
    var scan := lib.strtod(s[i..NumericEnd(s, i)]);
    if scan.used == 0 then Fail else Ok(Number(scan.value), i + scan.used)
  }

  // ---------- strings ----------

  /** The closing quote, or past the end. */
  function StringEnd(s: Text, i: nat): (j: nat)
    ensures i <= j
    decreases |s| - i
  {
    if i >= |s| || s[i] == QUOTE then i
    else if s[i] == BACKSLASH then StringEnd(s, i + 2)
    else StringEnd(s, i + 1)
  }

  function HexValue(c: nat): (d: int) {
    if 48 <= c <= 57 then c - 48 else if 65 <= c <= 70 then 10 + c - 65 else if 97 <= c <= 102 then 10 + c - 97 else -1
  }

  /** `parse_hex4`: 0 when a character is no digit. */
  function ParseHex4(s: Text, i: nat): (h: nat)
    requires i + 4 <= |s|
    ensures h < 0x10000
  {
    var a, b, c, d := HexValue(s[i]), HexValue(s[i + 1]), HexValue(s[i + 2]), HexValue(s[i + 3]);
    if a < 0 || b < 0 || c < 0 || d < 0 then 0 else ((a * 16 + b) * 16 + c) * 16 + d
  }

  /** A code point as UTF-8. */
  function Utf8(cp: nat): (t: Text)
    requires cp < 0x110000
  {
    if cp < 0x80 then [cp]
    else if cp < 0x800 then [0xC0 + cp / 64, 0x80 + cp % 64]
    else if cp < 0x10000 then [0xE0 + cp / 4096, 0x80 + cp / 64 % 64, 0x80 + cp % 64]
    else [0xF0 + cp / 262144, 0x80 + cp / 4096 % 64, 0x80 + cp / 64 % 64, 0x80 + cp % 64]
  }

  /** `utf16_literal_to_utf8` on the literal at `i`: its bytes and where it ends. */
  function ParseUtf16(s: Text, i: nat, end: nat): (r: Parsed<Text>)
    requires end <= |s|
    ensures r.Ok? ==> i + 6 <= r.next <= end
  {
    if i + 6 > end then Fail
    else
      var first := ParseHex4(s, i + 2);
      if 0xDC00 <= first <= 0xDFFF then Fail
      else if 0xD800 <= first <= 0xDBFF then
        if i + 12 > end || s[i + 6] != BACKSLASH || s[i + 7] != 117 then Fail
        else
          var second := ParseHex4(s, i + 8);
          if second < 0xDC00 || second > 0xDFFF then Fail
          else Ok(Utf8(0x10000 + (first % 1024) * 1024 + second % 1024), i + 12)
      else Ok(Utf8(first), i + 6)
  }

  /** What a short escape stands for, or 0. */
  function Unescape(c: nat): (r: nat) {
    if c == 98 then 8
    else if c == 102 then 12
    else if c == 110 then 10
    else if c == 114 then 13
    else if c == 116 then 9
    else if c == QUOTE || c == BACKSLASH || c == 47 then c
    else 0
  }

  /** The second loop of `parse_string`: the text from `i` up to the quote at `end`. */
  function Unescaped(s: Text, i: nat, end: nat): (r: Parsed<Text>)
    requires end < |s|
    decreases end - i
  {
    if i >= end then Ok([], i)
    else if s[i] != BACKSLASH then Prepend([s[i]], Unescaped(s, i + 1, end))
    else if s[i + 1] == 117 then
      match ParseUtf16(s, i, end)
      case Fail => Fail
      case Ok(t, next) => Prepend(t, Unescaped(s, next, end))
    else if Unescape(s[i + 1]) != 0 then Prepend([Unescape(s[i + 1])], Unescaped(s, i + 2, end))
    else Fail
  }

  function Prepend(t: Text, r: Parsed<Text>): (r': Parsed<Text>) {
    match r case Fail => Fail case Ok(u, next) => Ok(t + u, next)
  }

  /** What a C string holds: the bytes before the first NUL. */
  function CString(t: Text): (r: Text) {
    if |t| == 0 || t[0] == 0 then [] else [t[0]] + CString(t[1..])
  }

  /** `parse_string` */
  function ParseString(s: Text, i: nat): (r: Parsed<Text>)
    ensures r.Ok? ==> i < r.next <= |s|
  {
    if !Has(s, i, QUOTE) then Fail
    else
      var end := StringEnd(s, i + 1);
      if end >= |s| then Fail
      else
        match Unescaped(s, i + 1, end)
        case Fail => Fail
        case Ok(t, _) => Ok(CString(t), end + 1)
  }

  // ---------- values ----------

  function StringValue(r: Parsed<Text>): (v: Parsed<Json>) {
    match r case Fail => Fail case Ok(t, next) => Ok(String(t), next)
  }

  /** `parse_value` */
  ghost function ParseValue(lib: Library, s: Text, i: nat, depth: nat): (r: Parsed<Json>)
    requires Scans(lib)
    ensures r.Ok? ==> i < r.next <= |s|
    decreases |s| - i, 2
  {
    if At(s, i, NULL) then Ok(Null, i + 4)
    else if At(s, i, FALSE) then Ok(False, i + 5)
    else if At(s, i, TRUE) then Ok(True, i + 4)
    else if i >= |s| then Fail
    else if s[i] == QUOTE then
      StringValue(ParseString(s, i))
    else if s[i] == MINUS || IsDigit(s[i]) then ParseNumber(lib, s, i)
    else if s[i] == OPEN then ParseArray(lib, s, i, depth)
    else if s[i] == BEGIN then ParseObject(lib, s, i, depth)
    else Fail
  }

  /** `parse_array` */
  ghost function ParseArray(lib: Library, s: Text, i: nat, depth: nat): (r: Parsed<Json>)
    requires Scans(lib) && i < |s|
    ensures r.Ok? ==> i < r.next <= |s|
    decreases |s| - i, 1
  {
    if depth >= CJSON_NESTING_LIMIT then Fail
    else
      var j := SkipWhitespace(s, i + 1);
      if Has(s, j, CLOSE) then Ok(Array(NoItem), j + 1)
      else if j >= |s| then Fail
      else
        match ParseItems(lib, s, j - 1, depth + 1)
        case Fail => Fail
        case Ok(items, m) => if Has(s, m, CLOSE) then Ok(Array(items), m + 1) else Fail
  }

  /** Its loop, from the character before an element on. */
  ghost function ParseItems(lib: Library, s: Text, k: nat, depth: nat): (r: Parsed<Items>)
    requires Scans(lib)
    ensures r.Ok? ==> k < r.next
    decreases |s| - k, 0
  {
    if k + 1 > |s| then Fail
    else
      match ParseValue(lib, s, SkipWhitespace(s, k + 1), depth)
      case Fail => Fail
      case Ok(v, next) =>
        var m := SkipWhitespace(s, next);
        if Has(s, m, COMMA) then
          match ParseItems(lib, s, m, depth)
          case Fail => Fail
          case Ok(items, end) => Ok(Item(v, items), end)
        else Ok(Item(v, NoItem), m)
  }

  /** `parse_object` */
  ghost function ParseObject(lib: Library, s: Text, i: nat, depth: nat): (r: Parsed<Json>)
    requires Scans(lib) && i < |s|
    ensures r.Ok? ==> i < r.next <= |s|
    decreases |s| - i, 1
  {
    if depth >= CJSON_NESTING_LIMIT then Fail
    else
      var j := SkipWhitespace(s, i + 1);
      if Has(s, j, END) then Ok(Object(NoMember), j + 1)
      else if j >= |s| then Fail
      else
        match ParseMembers(lib, s, j - 1, depth + 1)
        case Fail => Fail
        case Ok(ms, m) => if Has(s, m, END) then Ok(Object(ms), m + 1) else Fail
  }

  /** Its loop, from the character before a name on. */
  ghost function ParseMembers(lib: Library, s: Text, k: nat, depth: nat): (r: Parsed<Members>)
    requires Scans(lib)
    ensures r.Ok? ==> k < r.next
    decreases |s| - k, 0
  {
    if k + 1 >= |s| then Fail
    else
      match ParseString(s, SkipWhitespace(s, k + 1))
      case Fail => Fail
      case Ok(name, after) =>
        var c := SkipWhitespace(s, after);
        if !Has(s, c, COLON) then Fail
        else
          match ParseValue(lib, s, SkipWhitespace(s, c + 1), depth)
          case Fail => Fail
          case Ok(v, next) =>
            var m := SkipWhitespace(s, next);
            if Has(s, m, COMMA) then
              match ParseMembers(lib, s, m, depth)
              case Fail => Fail
              case Ok(ms, end) => Ok(Member(name, v, ms), end)
            else Ok(Member(name, v, NoMember), m)
  }

  /** The UTF-8 byte order mark. */
  const BOM: Text := [0xEF, 0xBB, 0xBF]

  /** `cJSON_Parse` on a string: its NUL is part of the buffer. */
  ghost function Parse(lib: Library, text: Text): (r: Parsed<Json>)
    requires Scans(lib)
  {
    var s := text + [0];
    var start := if 4 < |s| && s[..3] == BOM then 3 else 0;
    ParseValue(lib, s, SkipWhitespace(s, start), 0)
  }
}
