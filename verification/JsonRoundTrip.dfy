/** What cJSON prints is JSON for the tree printed, so that parsing it gives the tree back. */
module JsonRoundTrip {
  import opened Json
  import opened JsonParse
  import opened JsonGrammar
  import opened JsonComplete
  import opened JsonRfc

  // ---------- strings ----------

  /** A C string: bytes, none of them zero. */
  predicate IsCString(t: Text) { forall k :: 0 <= k < |t| ==> 0 < t[k] < 256 }

  /** The piece that `print_string_ptr` writes for a byte. */
  function PieceOf(c: nat): (p: Piece) {
    if c > 31 && c != QUOTE && c != BACKSLASH then Plain(c)
    else if ShortEscape(c) != 0 then Short(ShortEscape(c), c)
    else Unicode([ZERO, ZERO, HexDigit(c / 16), HexDigit(c % 16)], [c])
  }

  lemma HexBack(d: nat)
    requires d < 16
    ensures IsHex(HexDigit(d)) && Hex(HexDigit(d)) == d
  {
  }

  lemma PieceIsRfc(c: nat)
    requires 0 < c < 256
    ensures PieceText(PieceOf(c)) == Escaped(c) && PieceBytes(PieceOf(c)) == [c] && RfcPiece(PieceOf(c))
  {
    if PieceOf(c).Unicode? {
      HexBack(0);
      HexBack(c / 16);
      HexBack(c % 16);
      assert [BACKSLASH, 117] + [ZERO, ZERO, HexDigit(c / 16), HexDigit(c % 16)] == Escaped(c);
    }
  }

  function PiecesOf(t: Text): (ps: seq<Piece>)
    ensures |ps| == |t|
  {
    seq(|t|, i requires 0 <= i < |t| => PieceOf(t[i]))
  }

  function StrOf(t: Text): (q: Str) { Str(EscapedText(t, 0), PiecesOf(t), t) }

  lemma {:induction false} PiecesSpell(t: Text, k: nat)
    requires IsCString(t) && k <= |t|
    ensures Spelled(PiecesOf(t), k) == EscapedText(t, k) && Raw(PiecesOf(t), k) == t[k..]
    decreases |t| - k
  {
    hide PieceOf, Escaped, PieceText, PieceBytes;
    if k < |t| {
      PieceIsRfc(t[k]);
      PiecesSpell(t, k + 1);
      assert [t[k]] + t[k + 1..] == t[k..];
    }
  }

  lemma StringIsRfc(t: Text)
    requires IsCString(t)
    ensures RfcString(StrOf(t))
  {
    hide PieceOf, Spelled, Raw, EscapedText, RfcPiece;
    PiecesSpell(t, 0);
    forall k | 0 <= k < |t|
      ensures RfcPiece(PiecesOf(t)[k])
    {
      PieceIsRfc(t[k]);
    }
    assert t[0..] == t;
  }

  lemma StringSpells(t: Text, rest: Text)
    ensures StringThen(StrOf(t), rest) == StringText(t) + rest
  {
    var e := EscapedText(t, 0);
    Assoc([QUOTE] + e, [QUOTE], rest);
    Assoc([QUOTE], e, [QUOTE] + rest);
  }

  // ---------- numbers ----------

  /** What the first `k` digits stand for. */
  function Horner(t: Text, k: nat): (n: int)
    requires k <= |t|
  {
    if k == 0 then 0 else 10 * Horner(t, k - 1) + (t[k - 1] - ZERO)
  }

  /** Digits after an optional minus. */
  predicate IsInteger(t: Text) { AllDigits(t) || (|t| > 0 && t[0] == MINUS && AllDigits(t[1..])) }

  function IntegerValue(t: Text): (n: int)
    requires |t| > 0
  {
    if t[0] == MINUS then -Horner(t[1..], |t| - 1) else Horner(t, |t|)
  }

  /** What the C library promises of a scan of digits after an optional minus: all are used, for the number they stand for. */
  ghost predicate ReadsIntegers(lib: Library) {
    forall t :: IsInteger(t) && INT_MIN <= IntegerValue(t) <= INT_MAX ==> lib.strtod(t) == Scan(IntegerValue(t) as real, |t|)
  }

  lemma {:induction false} HornerPrefix(a: Text, b: Text, k: nat)
    requires k <= |a|
    ensures Horner(a + b, k) == Horner(a, k)
  {
    if k > 0 { HornerPrefix(a, b, k - 1); }
  }

  lemma {:induction false} DigitsHorner(n: nat)
    ensures Horner(Digits(n), |Digits(n)|) == n
  {
    if n < 10 {
      assert Digits(n) == [ZERO + n];
    } else {
      DigitsHorner(n / 10);
      HornerPrefix(Digits(n / 10), [ZERO + n % 10], |Digits(n / 10)|);
    }
  }

  /** Digits without a leading zero. */
  lemma {:induction false} DigitsWhole(n: nat)
    ensures RfcWhole(Digits(n)) && (n > 0 ==> Digits(n)[0] != ZERO)
  {
    if n >= 10 {
      DigitsWhole(n / 10);
      assert Digits(n)[0] == Digits(n / 10)[0];
    }
  }

  /** What `%d` prints stands for the number printed. */
  lemma DecimalStands(n: int)
    ensures IsInteger(Decimal(n)) && IntegerValue(Decimal(n)) == n
  {
    var m := if n < 0 then -n else n;
    DigitsWhole(m);
    DigitsHorner(m);
    if n < 0 { assert Decimal(n)[1..] == Digits(m); }
  }

  lemma DecimalIsRfc(n: int)
    ensures RfcNumber(Decimal(n))
  {
    var m := if n < 0 then -n else n;
    DigitsWhole(m);
    var x := Numeral(n < 0, Digits(m), [], []);
    assert NumeralText(x) == Decimal(n);
    assert RfcNumeral(x);
  }

  /** A number an int holds. */
  predicate IsInt(x: real) { x == ValueInt(x) as real }

  lemma IntInRange(x: real)
    ensures INT_MIN <= ValueInt(x) <= INT_MAX
  {
  }

  /** An int, or a number that the C library formats as a number of RFC 8259 and reads back. */
  ghost predicate IsPrintable(lib: Library, x: real) {
    IsInt(x) || (RfcNumber(lib.format(x)) && lib.strtod(lib.format(x)) == Scan(x, |lib.format(x)|))
  }

  lemma NumberIsRfc(lib: Library, x: real)
    requires ReadsIntegers(lib) && IsPrintable(lib, x)
    ensures RfcNumber(NumberText(lib, x)) && lib.strtod(NumberText(lib, x)) == Scan(x, |NumberText(lib, x)|)
  {
    hide Decimal, RfcNumber, IsInteger, IntegerValue, ValueInt;
    if IsInt(x) {
      IntInRange(x);
      DecimalIsRfc(ValueInt(x));
      DecimalStands(ValueInt(x));
    }
  }

  // ---------- trees ----------

  /** Trees whose numbers can be printed and whose strings are C strings. */
  ghost predicate Clean(lib: Library, v: Json) {
    match v
    case Number(x) => IsPrintable(lib, x)
    case String(t) => IsCString(t)
    case Array(items) => CleanItems(lib, items)
    case Object(ms) => CleanMembers(lib, ms)
    case _ => true
  }

  ghost predicate CleanItems(lib: Library, items: Items) {
    match items case NoItem => true case Item(v, next) => Clean(lib, v) && CleanItems(lib, next)
  }

  ghost predicate CleanMembers(lib: Library, ms: Members) {
    match ms case NoMember => true case Member(name, v, next) => IsCString(name) && Clean(lib, v) && CleanMembers(lib, next)
  }

  /** The syntax of what `print_value` writes at a depth. */
  function SyntaxOf(lib: Library, v: Json, depth: nat, fmt: bool): (x: Syntax) {
    match v
    case Null => NullWord
    case False => FalseWord
    case True => TrueWord
    case Number(x) => Numeric(NumberText(lib, x), x)
    case String(t) => Quoted(StrOf(t))
    case Array(items) => Bracketed([], ListOf(lib, items, depth + 1, fmt, []))
    case Object(ms) =>
      var trail := Wherever(fmt, Tabs(depth));
      Braced(Wherever(fmt, [NEWLINE]) + trail, FieldsOf(lib, ms, depth + 1, fmt, trail))
  }

  function ListOf(lib: Library, items: Items, depth: nat, fmt: bool, lead: Text): (l: List)
    ensures l.NoElement? <==> items.NoItem?
    ensures items.Item? ==> l.before == lead
  {
    match items
    case NoItem => NoElement
    case Item(v, next) => Element(lead, SyntaxOf(lib, v, depth, fmt), [], ListOf(lib, next, depth, fmt, Wherever(fmt, [SPACE])))
  }

  function Indent(depth: nat, fmt: bool): (t: Text) { Wherever(fmt, [NEWLINE]) + Wherever(fmt, Tabs(depth)) }

  function FieldsOf(lib: Library, ms: Members, depth: nat, fmt: bool, trail: Text): (f: Fields)
    ensures f.NoField? <==> ms.NoMember?
    ensures ms.Member? ==> f.before == Indent(depth, fmt)
  {
    match ms
    case NoMember => NoField
    case Member(name, v, next) =>
      var after := if next == NoMember then Wherever(fmt, [NEWLINE]) + trail else [];
      Field(Indent(depth, fmt), StrOf(name), [], Wherever(fmt, [TAB]), SyntaxOf(lib, v, depth, fmt), after,
            FieldsOf(lib, next, depth, fmt, trail))
  }

  // ---------- it spells what is printed ----------

  lemma {:induction false} SyntaxSpells(lib: Library, v: Json, depth: nat, fmt: bool, rest: Text)
    ensures Then(SyntaxOf(lib, v, depth, fmt), rest) == ValueText(lib, v, depth, fmt) + rest
    decreases v, 1
  {
    hide ListThen, FieldsThen, StringThen, StringText, NumberText;
    match v
    case String(t) => StringSpells(t, rest);
    case Array(items) => ArraySpells(lib, items, depth, fmt, rest);
    case Object(ms) => ObjectSpells(lib, ms, depth, fmt, rest);
    case _ =>
  }

  lemma Bracket(a: Text, b: Text, c: Text, rest: Text)
    ensures (a + b + c) + rest == a + (b + (c + rest))
  {
  }

  lemma {:induction false} ArraySpells(lib: Library, items: Items, depth: nat, fmt: bool, rest: Text)
    ensures Then(SyntaxOf(lib, Array(items), depth, fmt), rest) == ValueText(lib, Array(items), depth, fmt) + rest
    decreases items, 2
  {
    hide ListThen;
    var t := ItemsText(lib, items, depth + 1, fmt);
    Bracket([OPEN], t, [CLOSE], rest);
    if items.NoItem? {
      Nothing([CLOSE] + rest);
    } else {
      ListSpells(lib, items, depth + 1, fmt, [], rest);
      Nothing(ListThen(ListOf(lib, items, depth + 1, fmt, []), rest));
    }
  }

  lemma ItemPieces(v: Text, sep: Text, t: Text, z: Text)
    ensures (v + ([COMMA] + sep + t)) + z == v + ([COMMA] + (sep + (t + z)))
  {
  }

  lemma {:induction false} ListSpells(lib: Library, items: Items, depth: nat, fmt: bool, lead: Text, rest: Text)
    requires items.Item?
    ensures ListThen(ListOf(lib, items, depth, fmt, lead), rest) == ItemsText(lib, items, depth, fmt) + ([CLOSE] + rest)
    decreases items, 1
  {
    hide Then, ValueText;
    var l, v, sep := ListOf(lib, items, depth, fmt, lead), ValueText(lib, items.value, depth, fmt), Wherever(fmt, [SPACE]);
    var e := ListEnd(l.next, rest);
    Nothing(e);
    SyntaxSpells(lib, items.value, depth, fmt, e);
    if items.next.NoItem? {
      assert v + [] == v;
    } else {
      ListSpells(lib, items.next, depth, fmt, sep, rest);
      ItemPieces(v, sep, ItemsText(lib, items.next, depth, fmt), [CLOSE] + rest);
    }
  }

  lemma Brace(a: Text, b: Text, c: Text, d: Text, e: Text, rest: Text)
    ensures (a + b + c + d + e) + rest == a + (b + (c + (d + (e + rest))))
  {
  }

  lemma {:induction false} ObjectSpells(lib: Library, ms: Members, depth: nat, fmt: bool, rest: Text)
    ensures Then(SyntaxOf(lib, Object(ms), depth, fmt), rest) == ValueText(lib, Object(ms), depth, fmt) + rest
    decreases ms, 2
  {
    hide FieldsThen, Wherever;
    var trail, line, t := Wherever(fmt, Tabs(depth)), Wherever(fmt, [NEWLINE]), MembersText(lib, ms, depth + 1, fmt);
    var z := [END] + rest;
    Brace([BEGIN], line, t, trail, [END], rest);
    if ms.NoMember? {
      Nothing(trail + z);
      Assoc(line, trail, z);
    } else {
      var f := FieldsOf(lib, ms, depth + 1, fmt, trail);
      FieldsSpell(lib, ms, depth + 1, fmt, trail, rest);
      Assoc(line, Wherever(fmt, Tabs(depth + 1)), FieldsThen(f, rest));
    }
  }

  lemma MemberPieces(a: Text, b: Text, c: Text, d: Text, e: Text, f: Text, g: Text, h: Text, z: Text)
    ensures (a + b + c + d + e + f + g + h) + z == a + (b + (c + (d + (e + ((f + (g + (h + z))))))))
  {
  }

  /** What is printed after a member's value. */
  function Tail(lib: Library, next: Members, depth: nat, fmt: bool, z: Text): (t: Text) {
    (if next == NoMember then [] else [COMMA]) + (Wherever(fmt, [NEWLINE]) + (MembersText(lib, next, depth, fmt) + z))
  }

  lemma {:induction false} FieldsSpell(lib: Library, ms: Members, depth: nat, fmt: bool, trail: Text, rest: Text)
    requires ms.Member?
    ensures MembersText(lib, ms, depth, fmt) + (trail + ([END] + rest)) ==
      Wherever(fmt, Tabs(depth)) + FieldsThen(FieldsOf(lib, ms, depth, fmt, trail), rest)
    decreases ms, 1
  {
    hide Then, ValueText, Wherever, StringText, StringThen, FieldsEnd, Tabs;
    var f, z := FieldsOf(lib, ms, depth, fmt, trail), trail + ([END] + rest);
    var r, tab, v := f.after + FieldsEnd(f.next, rest), Wherever(fmt, [TAB]), ValueText(lib, ms.value, depth, fmt);
    var x := [COLON] + (tab + (v + r));
    MemberPieces(Wherever(fmt, Tabs(depth)), StringText(ms.name), [COLON], tab, v, if ms.next == NoMember then [] else [COMMA],
                 Wherever(fmt, [NEWLINE]), MembersText(lib, ms.next, depth, fmt), z);
    TailSpells(lib, ms.next, depth, fmt, trail, rest);
    SyntaxSpells(lib, ms.value, depth, fmt, r);
    Nothing(x);
    StringSpells(ms.name, x);
  }

  lemma {:induction false} TailSpells(lib: Library, next: Members, depth: nat, fmt: bool, trail: Text, rest: Text)
    ensures Tail(lib, next, depth, fmt, trail + ([END] + rest)) ==
      (if next == NoMember then Wherever(fmt, [NEWLINE]) + trail else []) + FieldsEnd(FieldsOf(lib, next, depth, fmt, trail), rest)
    decreases next, 2
  {
    hide FieldsThen, Wherever;
    var line, z := Wherever(fmt, [NEWLINE]), trail + ([END] + rest);
    if next.NoMember? {
      Nothing(z);
      Nothing(line + z);
      Assoc(line, trail, [END] + rest);
    } else {
      var f := FieldsOf(lib, next, depth, fmt, trail);
      FieldsSpell(lib, next, depth, fmt, trail, rest);
      Assoc(line, Wherever(fmt, Tabs(depth)), FieldsThen(f, rest));
      Nothing(FieldsEnd(f, rest));
    }
  }

  // ---------- it is JSON for the tree ----------

  lemma BlanksAreRfc(depth: nat, fmt: bool)
    ensures RfcBlank([]) && RfcBlank(Wherever(fmt, [SPACE])) && RfcBlank(Wherever(fmt, [TAB]))
    ensures RfcBlank(Wherever(fmt, Tabs(depth))) && RfcBlank(Wherever(fmt, [NEWLINE])) && RfcBlank(Indent(depth, fmt))
    ensures forall t :: RfcBlank(t) ==> RfcBlank(Wherever(fmt, [NEWLINE]) + t)
  {
  }

  lemma {:induction false} SyntaxIsRfc(lib: Library, v: Json, depth: nat, fmt: bool)
    requires ReadsIntegers(lib) && Clean(lib, v)
    ensures Rfc(lib, SyntaxOf(lib, v, depth, fmt)) && TreeOf(SyntaxOf(lib, v, depth, fmt)) == v
    decreases v, 1
  {
    hide ReadsIntegers, RfcString, RfcBlank, RfcNumber, IsPrintable, IsCString, NumberText, StrOf;
    BlanksAreRfc(depth, fmt);
    match v
    case Number(x) => NumberIsRfc(lib, x);
    case String(t) =>
      StringIsRfc(t);
      StrKeeps(t);
    case Array(items) => ListIsRfc(lib, items, depth + 1, fmt, []);
    case Object(ms) => FieldsAreRfc(lib, ms, depth + 1, fmt, Wherever(fmt, Tabs(depth)));
    case _ =>
  }

  lemma StrKeeps(t: Text)
    ensures StrOf(t).text == t
  {
  }

  lemma {:induction false} ListIsRfc(lib: Library, items: Items, depth: nat, fmt: bool, lead: Text)
    requires ReadsIntegers(lib) && CleanItems(lib, items) && RfcBlank(lead)
    ensures RfcList(lib, ListOf(lib, items, depth, fmt, lead)) && ItemsOf(ListOf(lib, items, depth, fmt, lead)) == items
    decreases items, 0
  {
    hide ReadsIntegers, RfcBlank;
    BlanksAreRfc(depth, fmt);
    if items.Item? {
      SyntaxIsRfc(lib, items.value, depth, fmt);
      ListIsRfc(lib, items.next, depth, fmt, Wherever(fmt, [SPACE]));
    }
  }

  lemma {:induction false} FieldsAreRfc(lib: Library, ms: Members, depth: nat, fmt: bool, trail: Text)
    requires ReadsIntegers(lib) && CleanMembers(lib, ms) && RfcBlank(trail)
    ensures RfcFields(lib, FieldsOf(lib, ms, depth, fmt, trail)) && MembersOf(FieldsOf(lib, ms, depth, fmt, trail)) == ms
    decreases ms, 0
  {
    hide ReadsIntegers, RfcBlank, RfcString, StrOf, IsCString;
    BlanksAreRfc(depth, fmt);
    if ms.Member? {
      StringIsRfc(ms.name);
      StrKeeps(ms.name);
      SyntaxIsRfc(lib, ms.value, depth, fmt);
      FieldsAreRfc(lib, ms.next, depth, fmt, trail);
    }
  }

  // ---------- the layout ----------

  /** The escapes printed: seven short ones, lower-case hexadecimal for the other control characters, and nothing else. */
  lemma EscapesAre(c: nat)
    ensures Escaped(c) ==
      if c == 34 then [92, 34] else if c == 92 then [92, 92] else if c == 8 then [92, 98] else if c == 12 then [92, 102]
      else if c == 10 then [92, 110] else if c == 13 then [92, 114] else if c == 9 then [92, 116]
      else if c < 16 then [92, 117, 48, 48, 48, if c < 10 then 48 + c else 87 + c]
      else if c < 32 then [92, 117, 48, 48, 49, if c < 26 then 32 + c else 71 + c]
      else [c]
  {
  }

  /** An int is printed as one: the numbers that are cut to themselves are the ints of 32 bits, and others are cut towards zero. */
  lemma CutsToInt(x: real)
    ensures var n := ValueInt(x);
      if x >= 2147483647.0 then n == 2147483647 else if x <= -2147483648.0 then n == -2147483648
      else if x >= 0.0 then n as real <= x < (n + 1) as real else (n - 1) as real < x <= n as real
    ensures IsInt(x) <==> -2147483648.0 <= x <= 2147483647.0 && x == x.Floor as real
  {
    var n := ValueInt(x);
    if -2147483648.0 < x < 0.0 {
      var m := (-x).Floor;
      assert n == -m && m as real <= -x < (m + 1) as real;
      if x == x.Floor as real { assert -x == (-x.Floor) as real; }
    }
  }

  /** A new line indented by `n` tabs, where there is formatting. */
  function Line(n: nat, fmt: bool): (t: Text) { if fmt then [10] + seq(n, _ => 9) else [] }

  lemma LastMemberText(lib: Library, b: Text, w: Json, d: nat, fmt: bool)
    ensures MembersText(lib, Member(b, w, NoMember), d, fmt) ==
      Wherever(fmt, Tabs(d)) + StringText(b) + [58] + Wherever(fmt, [9]) + ValueText(lib, w, d, fmt) + Wherever(fmt, [10])
  {
    hide StringText, ValueText, Wherever;
    var x := Wherever(fmt, Tabs(d)) + StringText(b) + [COLON] + Wherever(fmt, [TAB]) + ValueText(lib, w, d, fmt);
    assert x + [] == x;
  }

  lemma LayoutPieces(l: Text, t: Text, u: Text, a: Text, tab: Text, x: Text, b: Text, y: Text)
    ensures [123] + l + (t + a + [58] + tab + x + [44] + l + (t + b + [58] + tab + y + l)) + u + [125] ==
      [123] + (l + t) + a + [58] + tab + x + [44] + (l + t) + b + [58] + tab + y + (l + u) + [125]
  {
  }

  lemma LineIs(n: nat, fmt: bool)
    ensures Line(n, fmt) == Wherever(fmt, [10]) + Wherever(fmt, Tabs(n))
  {
  }

  /** Each member of a formatted object is on a line of its own, one tab deeper, with a tab after the colon. */
  lemma ObjectLayout(lib: Library, a: Text, v: Json, b: Text, w: Json, d: nat, fmt: bool)
    ensures ValueText(lib, Object(Member(a, v, Member(b, w, NoMember))), d, fmt) ==
      [123] + Line(d + 1, fmt) + StringText(a) + [58] + (if fmt then [9] else []) + ValueText(lib, v, d + 1, fmt) + [44]
      + Line(d + 1, fmt) + StringText(b) + [58] + (if fmt then [9] else []) + ValueText(lib, w, d + 1, fmt) + Line(d, fmt) + [125]
  {
    hide StringText, Line, Tabs;
    LastMemberText(lib, b, w, d + 1, fmt);
    LineIs(d + 1, fmt);
    LineIs(d, fmt);
    LayoutPieces(Wherever(fmt, [10]), Wherever(fmt, Tabs(d + 1)), Wherever(fmt, Tabs(d)), StringText(a), Wherever(fmt, [9]),
                 ValueText(lib, v, d + 1, fmt), StringText(b), ValueText(lib, w, d + 1, fmt));
  }

  lemma LastItemText(lib: Library, w: Json, d: nat, fmt: bool)
    ensures ItemsText(lib, Item(w, NoItem), d, fmt) == ValueText(lib, w, d, fmt)
  {
    hide ValueText;
    assert ValueText(lib, w, d, fmt) + [] == ValueText(lib, w, d, fmt);
  }

  lemma ArrayPieces(x: Text, sep: Text, y: Text)
    ensures [91] + (x + ([44] + sep + y)) + [93] == [91] + x + [44] + sep + y + [93]
  {
  }

  /** Arrays stand on one line, with a space after each comma when formatted. */
  lemma ArrayLayout(lib: Library, v: Json, w: Json, d: nat, fmt: bool)
    ensures ValueText(lib, Array(Item(v, Item(w, NoItem))), d, fmt) ==
      [91] + ValueText(lib, v, d + 1, fmt) + [44] + (if fmt then [32] else []) + ValueText(lib, w, d + 1, fmt) + [93]
  {
    LastItemText(lib, w, d + 1, fmt);
    ArrayPieces(ValueText(lib, v, d + 1, fmt), Wherever(fmt, [32]), ValueText(lib, w, d + 1, fmt));
  }

  /** What is printed, formatted or not, is JSON for the tree. */
  lemma PrintedIsJson(lib: Library, v: Json, depth: nat, fmt: bool)
    requires ReadsIntegers(lib) && Clean(lib, v)
    ensures Derives(lib, ValueText(lib, v, depth, fmt), v)
  {
    hide Then, Rfc, SyntaxOf, ValueText, TreeOf, Clean;
    var x, t := SyntaxOf(lib, v, depth, fmt), ValueText(lib, v, depth, fmt);
    SyntaxIsRfc(lib, v, depth, fmt);
    SyntaxSpells(lib, v, depth, fmt, []);
    assert t + [] == t;
    Nothing(t);
    assert RfcBlank([]);
    assert t == [] + Then(x, []);
  }

  /** The nesting limit apart, parsing the text of a tree gives the tree and uses all of the text. */
  lemma JsonBack(lib: Library, v: Json, fmt: bool)
    requires Scans(lib) && ReadsIntegers(lib) && Clean(lib, v) && Nesting(v) <= 1000
    ensures Parse(lib, ValueText(lib, v, 0, fmt)) == Ok(v, |ValueText(lib, v, 0, fmt)|)
  {
    hide Then, Rfc, SyntaxOf, ValueText, TreeOf, Parse, Nesting, Clean;
    var x, t := SyntaxOf(lib, v, 0, fmt), ValueText(lib, v, 0, fmt);
    SyntaxIsRfc(lib, v, 0, fmt);
    SyntaxSpells(lib, v, 0, fmt, []);
    assert t + [] == t;
    Nothing(t);
    assert RfcBlank([]);
    RfcTextReads(lib, [], [], x, []);
  }
}
