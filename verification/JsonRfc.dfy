/** Parsing is complete for RFC 8259: every JSON text within the nesting limit is read as the tree it stands for. */
module JsonRfc {
  import opened Json
  import opened JsonParse
  import opened JsonGrammar
  import opened JsonComplete

  // ---------- what RFC 8259 allows is read ----------

  lemma RfcBlankIsBlank(t: Text)
    requires RfcBlank(t)
    ensures Blank(t)
  {
  }

  /** After a number comes no character of numbers. */
  predicate Stops(rest: Text) { |rest| > 0 ==> !NumberChar(rest[0]) }

  lemma StopsAfter(blank: Text, t: Text)
    requires RfcBlank(blank) && |t| > 0 && !NumberChar(t[0])
    ensures Stops(blank + t)
  {
    if |blank| > 0 { assert (blank + t)[0] == blank[0]; }
  }

  lemma NumeralChars(x: Numeral)
    requires RfcNumeral(x)
    ensures var t := NumeralText(x); |t| > 0 && (t[0] == 45 || Digit(t[0])) && forall k :: 0 <= k < |t| ==> NumberChar(t[k])
  {
    DigitsAreChars(x.whole);
    FractionChars(x.fraction);
    ExponentChars(x.exponent);
  }

  lemma DigitsAreChars(t: Text)
    requires AllDigits(t)
    ensures forall k :: 0 <= k < |t| ==> NumberChar(t[k])
  {
  }

  lemma FractionChars(t: Text)
    requires RfcFraction(t)
    ensures forall k :: 0 <= k < |t| ==> NumberChar(t[k])
  {
    if |t| > 0 { ShiftedChars(t, 1); }
  }

  lemma ExponentChars(t: Text)
    requires RfcExponent(t)
    ensures forall k :: 0 <= k < |t| ==> NumberChar(t[k])
  {
    if |t| > 0 { ShiftedChars(t, if t[1] == 43 || t[1] == 45 then 2 else 1); }
  }

  lemma ShiftedChars(t: Text, n: nat)
    requires n <= |t| && AllDigits(t[n..])
    ensures forall k :: n <= k < |t| ==> NumberChar(t[k])
  {
    forall k | n <= k < |t|
      ensures NumberChar(t[k])
    {
      assert t[n..][k - n] == t[k];
    }
  }

  lemma RfcNumberReads(lib: Library, token: Text, x: real, rest: Text)
    requires RfcNumber(token) && lib.strtod(token) == Scan(x, |token|) && Stops(rest)
    ensures NumberReads(lib, token, x, rest)
  {
    hide RfcNumeral, NumeralText, NumberChar;
    var n :| RfcNumeral(n) && token == NumeralText(n);
    NumeralChars(n);
    assert Leading(rest) == [];
    assert token + [] == token;
  }

  lemma HexIsClosed(t: Text, b: Text)
    requires FourHex(t) && Closed(b)
    ensures Closed(t + b)
  {
    OneClosed(t[3], b);
    OneClosed(t[2], [t[3]] + b);
    OneClosed(t[1], [t[2]] + ([t[3]] + b));
    OneClosed(t[0], [t[1]] + ([t[2]] + ([t[3]] + b)));
    assert t + b == [t[0]] + ([t[1]] + ([t[2]] + ([t[3]] + b)));
  }

  lemma OneClosed(c: nat, b: Text)
    requires c != 34 && c != 92 && Closed(b)
    ensures Closed([c] + b)
  {
    assert ([c] + b)[1..] == b;
  }

  lemma EscapeClosed(c: nat, b: Text)
    requires Closed(b)
    ensures Closed([92, c] + b)
  {
    assert ([92, c] + b)[2..] == b;
  }

  lemma PieceClosed(p: Piece, b: Text)
    requires RfcPiece(p) && Closed(b)
    ensures Closed(PieceText(p) + b)
  {
    hide Closed, Encodes, Code;
    match p
    case Plain(c) => OneClosed(c, b);
    case Short(letter, _) => EscapeClosed(letter, b);
    case Unicode(digits, _) =>
      HexIsClosed(digits, b);
      EscapeClosed(117, digits + b);
      assert ([92, 117] + digits) + b == [92, 117] + (digits + b);
    case Surrogates(high, low, _) =>
      HexIsClosed(low, b);
      EscapeClosed(117, low + b);
      HexIsClosed(high, [92, 117] + (low + b));
      EscapeClosed(117, high + ([92, 117] + (low + b)));
      assert ([92, 117] + high + [92, 117] + low) + b == [92, 117] + (high + ([92, 117] + (low + b)));
  }

  lemma {:induction false} PiecesClosed(ps: seq<Piece>, k: nat)
    requires k <= |ps| && forall j :: 0 <= j < |ps| ==> RfcPiece(ps[j])
    ensures Closed(Spelled(ps, k))
    decreases |ps| - k
  {
    hide RfcPiece;
    if k < |ps| {
      PiecesClosed(ps, k + 1);
      PieceClosed(ps[k], Spelled(ps, k + 1));
    }
  }

  lemma RfcStringReads(q: Str)
    requires RfcString(q)
    ensures StringReads(q)
  {
    hide Closed, Spelled, Raw, IsCut;
    PiecesClosed(q.pieces, 0);
  }

  lemma {:induction false} RfcReads(lib: Library, v: Syntax, rest: Text)
    requires Rfc(lib, v) && Stops(rest)
    ensures Reads(lib, v, rest)
    decreases v, 1
  {
    hide RfcString, StringReads, RfcNumber, NumberReads, RfcBlank, Blank, Stops;
    match v
    case Numeric(token, x) => RfcNumberReads(lib, token, x, rest);
    case Quoted(q) => RfcStringReads(q);
    case Bracketed(blank, list) =>
      RfcBlankIsBlank(blank);
      RfcListReads(lib, list, rest);
    case Braced(blank, fields) =>
      RfcBlankIsBlank(blank);
      RfcFieldsRead(lib, fields, rest);
    case _ =>
  }

  lemma {:induction false} RfcListReads(lib: Library, l: List, rest: Text)
    requires RfcList(lib, l)
    ensures ListReads(lib, l, rest)
    decreases l, 0
  {
    hide RfcBlank, Blank, ListEnd, Stops;
    if l.Element? {
      RfcBlankIsBlank(l.before);
      RfcBlankIsBlank(l.after);
      ListEndStarts(l.next, rest);
      StopsAfter(l.after, ListEnd(l.next, rest));
      RfcReads(lib, l.value, l.after + ListEnd(l.next, rest));
      RfcListReads(lib, l.next, rest);
    }
  }

  lemma {:induction false} RfcFieldsRead(lib: Library, f: Fields, rest: Text)
    requires RfcFields(lib, f)
    ensures FieldsRead(lib, f, rest)
    decreases f, 0
  {
    hide RfcBlank, Blank, FieldsEnd, Stops, RfcString, StringReads;
    if f.Field? {
      RfcBlankIsBlank(f.before);
      RfcBlankIsBlank(f.colon);
      RfcBlankIsBlank(f.lead);
      RfcBlankIsBlank(f.after);
      RfcStringReads(f.name);
      FieldsEndStarts(f.next, rest);
      StopsAfter(f.after, FieldsEnd(f.next, rest));
      RfcReads(lib, f.value, f.after + FieldsEnd(f.next, rest));
      RfcFieldsRead(lib, f.next, rest);
    }
  }

  // ---------- whole texts ----------

  lemma Assoc(a: Text, b: Text, c: Text)
    ensures (a + b) + c == a + (b + c)
  {
  }

  lemma StringMore(q: Str, t: Text, x: Text)
    ensures StringThen(q, t) + x == StringThen(q, t + x)
  {
    Assoc([34], q.body + ([34] + t), x);
    Assoc(q.body, [34] + t, x);
    Assoc([34], t, x);
  }

  /** What follows can be put on later. */
  lemma {:induction false} ThenMore(v: Syntax, rest: Text, x: Text)
    ensures Then(v, rest) + x == Then(v, rest + x)
    decreases v, 1
  {
    match v
    case NullWord => Assoc([110, 117, 108, 108], rest, x);
    case FalseWord => Assoc([102, 97, 108, 115, 101], rest, x);
    case TrueWord => Assoc([116, 114, 117, 101], rest, x);
    case Numeric(token, _) => Assoc(token, rest, x);
    case Quoted(q) => StringMore(q, rest, x);
    case Bracketed(blank, list) =>
      if list.NoElement? {
        EmptyMore([91], blank, [93], rest, x);
      } else {
        ListMore(list, rest, x);
        Assoc([91], list.before + ListThen(list, rest), x);
        Assoc(list.before, ListThen(list, rest), x);
      }
    case Braced(blank, fields) =>
      if fields.NoField? {
        EmptyMore([123], blank, [125], rest, x);
      } else {
        FieldsMore(fields, rest, x);
        Assoc([123], fields.before + FieldsThen(fields, rest), x);
        Assoc(fields.before, FieldsThen(fields, rest), x);
      }
  }

  lemma EmptyMore(a: Text, blank: Text, b: Text, rest: Text, x: Text)
    ensures (a + (blank + (b + rest))) + x == a + (blank + (b + (rest + x)))
  {
    Assoc(a, blank + (b + rest), x);
    Assoc(blank, b + rest, x);
    Assoc(b, rest, x);
  }

  lemma {:induction false} ListMore(l: List, rest: Text, x: Text)
    requires l.Element?
    ensures ListThen(l, rest) + x == ListThen(l, rest + x)
    decreases l, 0
  {
    var e := ListEnd(l.next, rest);
    ThenMore(l.value, l.after + e, x);
    Assoc(l.after, e, x);
    if l.next.NoElement? {
      Assoc([93], rest, x);
    } else {
      ListMore(l.next, rest, x);
      Assoc([44], l.next.before + ListThen(l.next, rest), x);
      Assoc(l.next.before, ListThen(l.next, rest), x);
    }
  }

  lemma {:induction false} FieldsMore(f: Fields, rest: Text, x: Text)
    requires f.Field?
    ensures FieldsThen(f, rest) + x == FieldsThen(f, rest + x)
    decreases f, 0
  {
    hide StringThen, Then;
    var e := FieldsEnd(f.next, rest);
    var v := Then(f.value, f.after + e);
    FieldsEndMore(f.next, rest, x);
    ThenMore(f.value, f.after + e, x);
    Assoc(f.after, e, x);
    StringMore(f.name, f.colon + ([58] + (f.lead + v)), x);
    Assoc(f.colon, [58] + (f.lead + v), x);
    Assoc([58], f.lead + v, x);
    Assoc(f.lead, v, x);
  }

  lemma {:induction false} FieldsEndMore(next: Fields, rest: Text, x: Text)
    ensures FieldsEnd(next, rest) + x == FieldsEnd(next, rest + x)
    decreases next, 1
  {
    hide FieldsThen;
    if next.NoField? {
      Assoc([125], rest, x);
    } else {
      FieldsMore(next, rest, x);
      Assoc([44], next.before + FieldsThen(next, rest), x);
      Assoc(next.before, FieldsThen(next, rest), x);
    }
  }

  /** `cJSON_Parse` on what begins at `start`, after the byte order mark or without one. */
  lemma WholeReads(lib: Library, s: Text, start: nat, lead: Text, v: Syntax, rest: Text)
    requires Scans(lib) && Blank(lead) && Reads(lib, v, rest) && Nesting(TreeOf(v)) <= 1000 && From(s, start, lead + Then(v, rest))
    ensures |rest| <= |s| && ParseValue(lib, s, SkipWhitespace(s, start), 0) == Ok(TreeOf(v), |s| - |rest|)
  {
    hide SkipWhitespace, ParseValue, Then, Reads, Blank, From;
    Starts(lib, v, rest);
    SkipsTo(s, start, lead, Then(v, rest));
    ValueComplete(lib, s, start + |lead|, v, rest, 0);
  }

  lemma TextEnds(mark: Text, lead: Text, v: Syntax, trail: Text)
    ensures (mark + (lead + Then(v, trail))) + [0] == mark + (lead + Then(v, trail + [0]))
  {
    hide Then;
    ThenMore(v, trail, [0]);
    Assoc(mark, lead + Then(v, trail), [0]);
    Assoc(lead, Then(v, trail), [0]);
  }

  /** A text with a mark before it starts with it, and one without does not. */
  lemma MarkFound(lib: Library, mark: Text, lead: Text, v: Syntax, rest: Text)
    requires Blank(lead) && Reads(lib, v, rest) && |rest| > 0 && (mark == [] || mark == [0xEF, 0xBB, 0xBF])
    ensures var s := mark + (lead + Then(v, rest)); (4 < |s| && s[..3] == BOM) <==> |mark| == 3
  {
    hide Then, Reads;
    var t := lead + Then(v, rest);
    var s := mark + t;
    Starts(lib, v, rest);
    ThenLonger(lib, v, rest);
    if |mark| == 3 {
      assert s[..3] == mark;
    } else {
      assert s == t;
      FirstByte(lib, v, rest);
      assert t[0] != 0xEF by { if |lead| > 0 { assert t[0] == lead[0]; } }
      if 4 < |s| { assert s[..3][0] == s[0]; }
    }
  }

  lemma ThenLonger(lib: Library, v: Syntax, rest: Text)
    requires Reads(lib, v, rest)
    ensures |Then(v, rest)| > |rest|
  {
    hide Reads, Then;
    ThenEnds(v, rest);
    if |Then(v, rest)| == |rest| { ThenIsMore(lib, v, rest); }
  }

  lemma ThenIsMore(lib: Library, v: Syntax, rest: Text)
    requires Reads(lib, v, rest)
    ensures |Then(v, rest)| != |rest|
  {
    match v
    case Bracketed(blank, list) =>
      if list.Element? { ListEnds(list, rest); }
    case Braced(blank, fields) =>
      if fields.Field? { FieldsEnds(fields, rest); }
    case _ =>
  }

  lemma FirstByte(lib: Library, v: Syntax, rest: Text)
    requires Reads(lib, v, rest)
    ensures |Then(v, rest)| > 0 && Then(v, rest)[0] < 128
  {
    hide StringReads, ListReads, FieldsRead;
  }

  /**
   Parsing is complete for RFC 8259: a text of white space, a value within the nesting limit and white space, with a byte
   order mark before it or not, is read as the tree of the value, and the parser stops right after the value.
   */
  lemma RfcTextReads(lib: Library, mark: Text, lead: Text, v: Syntax, trail: Text)
    requires Scans(lib) && Rfc(lib, v) && Nesting(TreeOf(v)) <= 1000 && RfcBlank(lead) && RfcBlank(trail)
    requires mark == [] || mark == [0xEF, 0xBB, 0xBF]
    ensures var text := mark + (lead + Then(v, trail)); |trail| <= |text| && Parse(lib, text) == Ok(TreeOf(v), |text| - |trail|)
  {
    hide SkipWhitespace, ParseValue, Then, Reads, Rfc, Blank, RfcBlank, Nesting;
    var text, rest := mark + (lead + Then(v, trail)), trail + [0];
    RfcBlankIsBlank(lead);
    StopsAfter(trail, [0]);
    RfcReads(lib, v, rest);
    TextEnds(mark, lead, v, trail);
    MarkFound(lib, mark, lead, v, rest);
    FromMark(mark, lead + Then(v, rest));
    WholeReads(lib, text + [0], |mark|, lead, v, rest);
  }

  lemma FromMark(mark: Text, t: Text)
    ensures From(mark + t, |mark|, t)
  {
  }

  /** Every JSON text is read as what it stands for. */
  lemma JsonIsRead(lib: Library, text: Text, tree: Json)
    requires Scans(lib) && Derives(lib, text, tree) && Nesting(tree) <= 1000
    ensures Parse(lib, text).Ok? && Parse(lib, text).value == tree
  {
    hide Then, Rfc, RfcBlank, Nesting, TreeOf, Parse;
    var lead, v, trail :| RfcBlank(lead) && RfcBlank(trail) && Rfc(lib, v) && TreeOf(v) == tree && text == lead + Then(v, trail);
    Nothing(text);
    RfcTextReads(lib, [], lead, v, trail);
  }
}
