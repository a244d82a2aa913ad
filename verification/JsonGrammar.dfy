/**
 JSON texts, apart from any parser: a syntax tree spells a text and stands for a tree of values. `Rfc` says which syntax
 trees RFC 8259 allows; `Reads` is the larger grammar of what cJSON reads.
 */
module JsonGrammar {
  import opened Json

  // ---------- white space ----------

  /** Section 2 of RFC 8259. */
  predicate RfcBlank(t: Text) { forall k :: 0 <= k < |t| ==> t[k] == 32 || t[k] == 9 || t[k] == 10 || t[k] == 13 }

  predicate Blank(t: Text) { forall k :: 0 <= k < |t| ==> t[k] <= 32 }

  // ---------- characters ----------

  /** A character of a string: itself, a short escape and what it stands for, one or two `\uXXXX` and their UTF-8. */
  datatype Piece =
    | Plain(byte: nat)
    | Short(letter: nat, byte: nat)
    | Unicode(digits: Text, bytes: Text)
    | Surrogates(high: Text, low: Text, bytes: Text)

  function PieceText(p: Piece): (t: Text) {
    match p
    case Plain(b) => [b]
    case Short(letter, _) => [92, letter]
    case Unicode(digits, _) => [92, 117] + digits
    case Surrogates(high, low, _) => [92, 117] + high + [92, 117] + low
  }

  function PieceBytes(p: Piece): (t: Text) {
    match p
    case Plain(b) => [b]
    case Short(_, b) => [b]
    case Unicode(_, bytes) => bytes
    case Surrogates(_, _, bytes) => bytes
  }

  predicate IsHex(c: nat) { 48 <= c <= 57 || 65 <= c <= 70 || 97 <= c <= 102 }

  function Hex(c: nat): (d: nat)
    requires IsHex(c)
  {
    if c <= 57 then c - 48 else if c <= 70 then c - 55 else c - 87
  }

  predicate FourHex(t: Text) { |t| == 4 && IsHex(t[0]) && IsHex(t[1]) && IsHex(t[2]) && IsHex(t[3]) }

  /** The number four hexadecimal digits stand for; other characters stand for zero. */
  function Code(t: Text): (n: nat)
    ensures n < 0x10000
  {
    if FourHex(t) then 4096 * Hex(t[0]) + 256 * Hex(t[1]) + 16 * Hex(t[2]) + Hex(t[3]) else 0
  }

  predicate Trailing(b: nat) { 0x80 <= b <= 0xBF }

  /** Section 3 of RFC 3629, as a decoder: `t` is the shortest sequence that decodes to the code point. */
  predicate Encodes(t: Text, cp: nat) {
    || (|t| == 1 && cp == t[0] < 0x80)
    || (|t| == 2 && 0xC0 <= t[0] <= 0xDF && Trailing(t[1]) && cp == 64 * (t[0] - 0xC0) + (t[1] - 0x80) >= 0x80)
    || (|t| == 3 && 0xE0 <= t[0] <= 0xEF && Trailing(t[1]) && Trailing(t[2])
        && cp == 4096 * (t[0] - 0xE0) + 64 * (t[1] - 0x80) + (t[2] - 0x80) >= 0x800)
    || (|t| == 4 && 0xF0 <= t[0] <= 0xF7 && Trailing(t[1]) && Trailing(t[2]) && Trailing(t[3])
        && cp == 262144 * (t[0] - 0xF0) + 4096 * (t[1] - 0x80) + 64 * (t[2] - 0x80) + (t[3] - 0x80) >= 0x10000)
  }

  predicate IsShort(letter: nat, byte: nat) {
    || (letter == byte && (letter == 34 || letter == 92 || letter == 47))
    || (letter == 98 && byte == 8) || (letter == 102 && byte == 12) || (letter == 110 && byte == 10)
    || (letter == 114 && byte == 13) || (letter == 116 && byte == 9)
  }

  /** What the escapes mean; a character that is not escaped is no backslash. */
  predicate PieceOk(p: Piece) {
    match p
    case Plain(b) => b != 92
    case Short(letter, b) => IsShort(letter, b)
    case Unicode(digits, bytes) => |digits| == 4 && !(0xD800 <= Code(digits) <= 0xDFFF) && Encodes(bytes, Code(digits))
    case Surrogates(high, low, bytes) =>
      && |high| == 4 && |low| == 4 && 0xD800 <= Code(high) <= 0xDBFF && 0xDC00 <= Code(low) <= 0xDFFF
      && Encodes(bytes, 0x10000 + 0x400 * (Code(high) - 0xD800) + (Code(low) - 0xDC00))
  }

  /** Section 7 of RFC 8259: neither quotes nor control characters unescaped, and hexadecimal digits. */
  predicate RfcPiece(p: Piece) {
    PieceOk(p) &&
    match p
    case Plain(b) => 32 <= b < 256 && b != 34
    case Short(_, _) => true
    case Unicode(digits, _) => FourHex(digits)
    case Surrogates(high, low, _) => FourHex(high) && FourHex(low)
  }

  // ---------- strings ----------

  /** What is between the quotes, the characters it is made of, and the C string they are kept in. */
  datatype Str = Str(body: Text, pieces: seq<Piece>, text: Text)

  /** The text and the bytes of the pieces from `k` on. */
  function Spelled(ps: seq<Piece>, k: nat): (t: Text)
    requires k <= |ps|
    decreases |ps| - k
  {
    if k == |ps| then [] else PieceText(ps[k]) + Spelled(ps, k + 1)
  }

  function Raw(ps: seq<Piece>, k: nat): (t: Text)
    requires k <= |ps|
    decreases |ps| - k
  {
    if k == |ps| then [] else PieceBytes(ps[k]) + Raw(ps, k + 1)
  }

  /** `t` is `raw` up to its first NUL. */
  predicate IsCut(raw: Text, t: Text) { t <= raw && 0 !in t && (|t| < |raw| ==> raw[|t|] == 0) }

  predicate RfcString(q: Str) {
    && (forall k :: 0 <= k < |q.pieces| ==> RfcPiece(q.pieces[k]))
    && q.body == Spelled(q.pieces, 0) && IsCut(Raw(q.pieces, 0), q.text)
  }

  /** No quote in `b` but after a backslash, and no backslash left alone at its end. */
  predicate Closed(b: Text) {
    |b| == 0 || (b[0] != 34 && if b[0] == 92 then |b| >= 2 && Closed(b[2..]) else Closed(b[1..]))
  }

  /**
   What cJSON reads: the closing quote is found first, and then the pieces. Where the four characters after a `\u`
   are not all digits they may end in a backslash, and then the last piece may take the closing quote as escaped.
   */
  predicate StringReads(q: Str) {
    && Closed(q.body) && (forall k :: 0 <= k < |q.pieces| ==> PieceOk(q.pieces[k])) && IsCut(Raw(q.pieces, 0), q.text)
    && (|| Spelled(q.pieces, 0) == q.body
        || (Spelled(q.pieces, 0) == q.body + [34] && |q.pieces| > 0 && q.pieces[|q.pieces| - 1].Short?))
  }

  function StringThen(q: Str, rest: Text): (t: Text) { [34] + (q.body + ([34] + rest)) }

  // ---------- numbers ----------

  predicate Digit(c: nat) { 48 <= c <= 57 }

  predicate AllDigits(t: Text) { |t| > 0 && forall k :: 0 <= k < |t| ==> Digit(t[k]) }

  /** Section 6 of RFC 8259: a minus or not, digits without a leading zero, a fraction or not, an exponent or not. */
  predicate RfcWhole(t: Text) { AllDigits(t) && (t[0] == 48 ==> |t| == 1) }

  predicate RfcFraction(t: Text) { t == [] || (t[0] == 46 && AllDigits(t[1..])) }

  predicate RfcExponent(t: Text) {
    t == [] ||
    ((t[0] == 69 || t[0] == 101) && |t| > 1 && AllDigits(if t[1] == 43 || t[1] == 45 then t[2..] else t[1..]))
  }

  datatype Numeral = Numeral(minus: bool, whole: Text, fraction: Text, exponent: Text)

  predicate RfcNumeral(x: Numeral) { RfcWhole(x.whole) && RfcFraction(x.fraction) && RfcExponent(x.exponent) }

  function NumeralText(x: Numeral): (t: Text) { (if x.minus then [45] else []) + x.whole + x.fraction + x.exponent }

  ghost predicate RfcNumber(t: Text) { exists x :: RfcNumeral(x) && t == NumeralText(x) }

  /** Digits, signs, the point and the exponent. */
  predicate NumberChar(c: nat) { Digit(c) || c == 43 || c == 45 || c == 46 || c == 69 || c == 101 }

  /** The characters of numbers at the start of `t`. */
  function Leading(t: Text): (r: Text) { if |t| > 0 && NumberChar(t[0]) then [t[0]] + Leading(t[1..]) else [] }

  /** The scan of all the characters of numbers there are uses just the token. */
  predicate NumberReads(lib: Library, token: Text, value: real, rest: Text) {
    && |token| > 0 && (token[0] == 45 || Digit(token[0])) && (forall k :: 0 <= k < |token| ==> NumberChar(token[k]))
    && lib.strtod(token + Leading(rest)) == Scan(value, |token|)
  }

  // ---------- values ----------

  datatype Syntax =
    | NullWord
    | FalseWord
    | TrueWord
    | Numeric(token: Text, value: real)
    | Quoted(str: Str)
    | Bracketed(blank: Text, list: List)
    | Braced(blank: Text, fields: Fields)

  /** Elements with the white space around them. */
  datatype List = NoElement | Element(before: Text, value: Syntax, after: Text, next: List)

  /** Members with the white space around the name, the colon and the value. */
  datatype Fields =
    | NoField
    | Field(before: Text, name: Str, colon: Text, lead: Text, value: Syntax, after: Text, next: Fields)

  /** The text of `v` followed by `rest`. */
  function Then(v: Syntax, rest: Text): (t: Text) {
    match v
    case NullWord => [110, 117, 108, 108] + rest
    case FalseWord => [102, 97, 108, 115, 101] + rest
    case TrueWord => [116, 114, 117, 101] + rest
    case Numeric(token, _) => token + rest
    case Quoted(q) => StringThen(q, rest)
    case Bracketed(blank, list) => [91] + if list.NoElement? then blank + ([93] + rest) else list.before + ListThen(list, rest)
    case Braced(blank, fields) => [123] + if fields.NoField? then blank + ([125] + rest) else fields.before + FieldsThen(fields, rest)
  }

  /** A list from its first value to the bracket, and `rest`. */
  function ListThen(l: List, rest: Text): (t: Text)
    requires l.Element?
    decreases l, 1
  {
    Then(l.value, l.after + ListEnd(l.next, rest))
  }

  /** What follows an element. */
  function ListEnd(next: List, rest: Text): (t: Text)
    ensures |t| > 0
    decreases next, 2
  {
    if next.NoElement? then [93] + rest
    else [44] + (next.before + ListThen(next, rest))
  }

  /** Members from the first name to the brace, and `rest`. */
  function FieldsThen(f: Fields, rest: Text): (t: Text)
    requires f.Field?
    decreases f, 1
  {
    StringThen(f.name, f.colon + ([58] + (f.lead + Then(f.value, f.after + FieldsEnd(f.next, rest)))))
  }

  function FieldsEnd(next: Fields, rest: Text): (t: Text)
    ensures |t| > 0
    decreases next, 2
  {
    if next.NoField? then [125] + rest else [44] + (next.before + FieldsThen(next, rest))
  }

  function TreeOf(v: Syntax): (tree: Json) {
    match v
    case NullWord => Null
    case FalseWord => False
    case TrueWord => True
    case Numeric(_, x) => Number(x)
    case Quoted(q) => String(q.text)
    case Bracketed(_, list) => Array(ItemsOf(list))
    case Braced(_, fields) => Object(MembersOf(fields))
  }

  function ItemsOf(l: List): (items: Items) {
    match l case NoElement => NoItem case Element(_, v, _, next) => Item(TreeOf(v), ItemsOf(next))
  }

  function MembersOf(f: Fields): (ms: Members) {
    match f case NoField => NoMember case Field(_, name, _, _, v, _, next) => Member(name.text, TreeOf(v), MembersOf(next))
  }

  // ---------- the two grammars ----------

  /** Sections 2 to 7 of RFC 8259; a number stands for what the C library makes of it. */
  ghost predicate Rfc(lib: Library, v: Syntax) {
    match v
    case Numeric(token, x) => RfcNumber(token) && lib.strtod(token) == Scan(x, |token|)
    case Quoted(q) => RfcString(q)
    case Bracketed(blank, list) => RfcBlank(blank) && RfcList(lib, list)
    case Braced(blank, fields) => RfcBlank(blank) && RfcFields(lib, fields)
    case _ => true
  }

  ghost predicate RfcList(lib: Library, l: List) {
    match l
    case NoElement => true
    case Element(before, v, after, next) => RfcBlank(before) && RfcBlank(after) && Rfc(lib, v) && RfcList(lib, next)
  }

  ghost predicate RfcFields(lib: Library, f: Fields) {
    match f
    case NoField => true
    case Field(before, name, colon, lead, v, after, next) =>
      && RfcBlank(before) && RfcBlank(colon) && RfcBlank(lead) && RfcBlank(after)
      && RfcString(name) && Rfc(lib, v) && RfcFields(lib, next)
  }

  /** `text` is JSON for `tree`. */
  ghost predicate Derives(lib: Library, text: Text, tree: Json) {
    exists lead, v, trail :: RfcBlank(lead) && RfcBlank(trail) && Rfc(lib, v) && TreeOf(v) == tree && text == lead + Then(v, trail)
  }

  predicate Reads(lib: Library, v: Syntax, rest: Text) {
    match v
    case Numeric(token, x) => NumberReads(lib, token, x, rest)
    case Quoted(q) => StringReads(q)
    case Bracketed(blank, list) => Blank(blank) && ListReads(lib, list, rest)
    case Braced(blank, fields) => Blank(blank) && FieldsRead(lib, fields, rest)
    case _ => true
  }

  predicate ListReads(lib: Library, l: List, rest: Text) {
    match l
    case NoElement => true
    case Element(before, v, after, next) =>
      Blank(before) && Blank(after) && Reads(lib, v, after + ListEnd(next, rest)) && ListReads(lib, next, rest)
  }

  predicate FieldsRead(lib: Library, f: Fields, rest: Text) {
    match f
    case NoField => true
    case Field(before, name, colon, lead, v, after, next) =>
      && Blank(before) && Blank(colon) && Blank(lead) && Blank(after)
      && StringReads(name) && Reads(lib, v, after + FieldsEnd(next, rest)) && FieldsRead(lib, next, rest)
  }
}
