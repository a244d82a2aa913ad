/** Every text of the grammar is read: within the nesting limit parsing gives its tree and ends after it. */
module JsonComplete {
  import opened Json
  import opened JsonParse
  import opened JsonGrammar

  // ---------- suffixes ----------

  /** From `i` on the text is `t`. */
  predicate From(s: Text, i: nat, t: Text) { i <= |s| && s[i..] == t }

  lemma FromFirst(s: Text, i: nat, t: Text)
    requires From(s, i, t) && |t| > 0
    ensures i < |s| && s[i] == t[0]
  {
  }

  lemma FromAfter(s: Text, i: nat, a: Text, b: Text)
    requires From(s, i, a + b)
    ensures From(s, i + |a|, b) && s[i..i + |a|] == a && |s| == i + |a| + |b|
  {
    var x := s[i..];
    assert x[|a|..] == b && x[..|a|] == a;
  }

  lemma FromLength(s: Text, i: nat, t: Text)
    requires From(s, i, t)
    ensures |s| == i + |t|
  {
  }

  lemma {:induction false} SkipBlankTo(s: Text, i: nat, j: nat)
    requires i <= j < |s| && s[j] > 32 && forall k :: i <= k < j ==> s[k] <= 32
    ensures SkipBlank(s, i) == j
    decreases j - i
  {
    if i < j { SkipBlankTo(s, i + 1, j); }
  }

  /** White space, and then something. */
  lemma SkipsTo(s: Text, i: nat, b: Text, t: Text)
    requires Blank(b) && From(s, i, b + t) && |t| > 0 && t[0] > 32
    ensures SkipWhitespace(s, i) == i + |b| && From(s, i + |b|, t)
  {
    FromAfter(s, i, b, t);
    forall k | i <= k < i + |b|
      ensures s[k] <= 32
    {
      assert s[i..i + |b|][k - i] == s[k];
    }
    FromFirst(s, i + |b|, t);
    SkipBlankTo(s, i, i + |b|);
  }

  lemma Nothing(t: Text)
    ensures [] + t == t && Blank([])
  {
  }

  // ---------- strings ----------

  /** The first loop stops at the closing quote. */
  lemma {:induction false} EndFound(s: Text, i: nat, b: Text, rest: Text)
    requires Closed(b) && From(s, i, b + ([34] + rest))
    ensures StringEnd(s, i) == i + |b| < |s|
    decreases |b|
  {
    var t := [34] + rest;
    FromAfter(s, i, b, t);
    FromFirst(s, i + |b|, t);
    if |b| > 0 {
      assert s[i] == b[0] by { FromFirst(s, i, b + t); }
      var n := if b[0] == 92 then 2 else 1;
      Dropped(s, i, b, t, n);
      EndFound(s, i + n, b[n..], rest);
    }
  }

  lemma Dropped(s: Text, i: nat, b: Text, t: Text, n: nat)
    requires From(s, i, b + t) && n <= |b|
    ensures From(s, i + n, b[n..] + t)
  {
    assert b + t == b[..n] + (b[n..] + t);
    FromAfter(s, i, b[..n], b[n..] + t);
  }

  lemma HexIs(c: nat)
    ensures HexValue(c) == if IsHex(c) then Hex(c) else -1
  {
  }

  lemma CodeIs(s: Text, i: nat)
    requires i + 4 <= |s|
    ensures ParseHex4(s, i) == Code(s[i..i + 4])
  {
    hide HexValue, Hex, IsHex;
    var t := s[i..i + 4];
    assert t[0] == s[i] && t[1] == s[i + 1] && t[2] == s[i + 2] && t[3] == s[i + 3];
    HexIs(t[0]);
    HexIs(t[1]);
    HexIs(t[2]);
    HexIs(t[3]);
  }

  /** The encoder inverts the decoder. */
  lemma Utf8Is(t: Text, cp: nat)
    requires Encodes(t, cp) && cp < 0x110000
    ensures Utf8(cp) == t
  {
    hide Utf8;
    match |t|
    case 1 => OneByte(t[0]);
    case 2 => TwoBytes(t[0] - 0xC0, t[1] - 0x80);
    case 3 => ThreeBytes(t[0] - 0xE0, t[1] - 0x80, t[2] - 0x80);
    case _ => FourBytes(t[0] - 0xF0, t[1] - 0x80, t[2] - 0x80, t[3] - 0x80);
  }

  lemma OneByte(a: nat)
    requires a < 0x80
    ensures Utf8(a) == [a]
  {
  }

  lemma TwoBytes(a: nat, b: nat)
    requires a < 32 && b < 64 && 0x80 <= 64 * a + b
    ensures 64 * a + b < 0x110000 && Utf8(64 * a + b) == [0xC0 + a, 0x80 + b]
  {
    var cp := 64 * a + b;
    assert cp / 64 == a && cp % 64 == b;
  }

  lemma ThreeBytes(a: nat, b: nat, c: nat)
    requires a < 16 && b < 64 && c < 64 && 0x800 <= 4096 * a + 64 * b + c
    ensures var cp := 4096 * a + 64 * b + c; cp < 0x110000 && Utf8(cp) == [0xE0 + a, 0x80 + b, 0x80 + c]
  {
    var cp := 4096 * a + 64 * b + c;
    assert cp / 64 == 64 * a + b && cp % 64 == c;
    assert cp / 4096 == a && cp / 64 % 64 == b;
  }

  lemma FourBytes(a: nat, b: nat, c: nat, d: nat)
    requires a < 8 && b < 64 && c < 64 && d < 64 && 0x10000 <= 262144 * a + 4096 * b + 64 * c + d < 0x110000
    ensures Utf8(262144 * a + 4096 * b + 64 * c + d) == [0xF0 + a, 0x80 + b, 0x80 + c, 0x80 + d]
  {
    var cp := 262144 * a + 4096 * b + 64 * c + d;
    assert cp / 64 == 4096 * a + 64 * b + c && cp % 64 == d;
    assert cp / 4096 == 64 * a + b && cp / 64 % 64 == c;
    assert cp / 262144 == a && cp / 4096 % 64 == b;
  }

  /** Ten bits of each half of a pair. */
  lemma PairIs(h: nat, l: nat)
    requires 0xD800 <= h <= 0xDBFF && 0xDC00 <= l <= 0xDFFF
    ensures h % 1024 == h - 0xD800 && l % 1024 == l - 0xDC00
  {
  }

  lemma SliceOf(s: Text, i: nat, n: nat, a: nat, b: nat)
    requires a <= b <= n && i + n <= |s|
    ensures s[i + a..i + b] == s[i..i + n][a..b]
  {
    var t := s[i..i + n];
    assert forall k :: a <= k < b ==> t[k] == s[i + k];
    assert forall k :: 0 <= k < b - a ==> s[i + a..i + b][k] == t[a..b][k];
  }

  lemma UnicodeReads(s: Text, i: nat, p: Piece, end: nat)
    requires p.Unicode? && PieceOk(p) && i + 6 <= end < |s| && s[i..i + 6] == PieceText(p)
    ensures ParseUtf16(s, i, end) == Ok(p.bytes, i + 6)
  {
    hide Encodes, Code, Utf8, ParseHex4;
    SliceOf(s, i, 6, 2, 6);
    assert s[i..i + 6][2..6] == p.digits;
    CodeIs(s, i + 2);
    Utf8Is(p.bytes, Code(p.digits));
  }

  lemma SurrogatesRead(s: Text, i: nat, p: Piece, end: nat)
    requires p.Surrogates? && PieceOk(p) && i + 12 <= end < |s| && s[i..i + 12] == PieceText(p)
    ensures ParseUtf16(s, i, end) == Ok(p.bytes, i + 12)
  {
    hide Encodes, Code, Utf8, ParseHex4;
    var t := s[i..i + 12];
    assert t[2..6] == p.high && t[8..12] == p.low && t[6] == 92 && t[7] == 117;
    SliceOf(s, i, 12, 2, 6);
    SliceOf(s, i, 12, 8, 12);
    assert s[i + 6] == t[6] && s[i + 7] == t[7];
    CodeIs(s, i + 2);
    CodeIs(s, i + 8);
    PairIs(Code(p.high), Code(p.low));
    Utf8Is(p.bytes, 0x10000 + 0x400 * (Code(p.high) - 0xD800) + (Code(p.low) - 0xDC00));
  }

  /** The second loop on one piece. A short escape may reach over the closing quote. */
  lemma PieceReads(s: Text, i: nat, p: Piece, end: nat)
    requires PieceOk(p) && i + |PieceText(p)| <= |s| && s[i..i + |PieceText(p)|] == PieceText(p)
    requires i + |PieceText(p)| <= (if p.Short? then end + 1 else end) && end < |s|
    ensures Unescaped(s, i, end) == Prepend(PieceBytes(p), Unescaped(s, i + |PieceText(p)|, end))
  {
    hide Encodes, Code, ParseUtf16;
    var t := s[i..i + |PieceText(p)|];
    assert t[0] == s[i];
    match p
    case Plain(b) =>
    case Short(letter, b) => assert t[1] == s[i + 1];
    case Unicode(_, _) =>
      assert t[1] == s[i + 1];
      UnicodeReads(s, i, p, end);
    case Surrogates(_, _, _) =>
      assert t[1] == s[i + 1];
      SurrogatesRead(s, i, p, end);
  }

  /** The pieces from `k` on end where the body does, or one after when the last is a short escape. */
  predicate Reach(ps: seq<Piece>, i: nat, n: nat, end: nat) {
    i + n == end || (i + n == end + 1 && |ps| > 0 && ps[|ps| - 1].Short?)
  }

  lemma {:induction false} PiecesRead(s: Text, i: nat, ps: seq<Piece>, k: nat, end: nat)
    requires k <= |ps| && forall j :: 0 <= j < |ps| ==> PieceOk(ps[j])
    requires var n := |Spelled(ps, k)|; i + n <= |s| && s[i..i + n] == Spelled(ps, k) && Reach(ps, i, n, end)
    requires end < |s|
    ensures exists next :: Unescaped(s, i, end) == Ok(Raw(ps, k), next)
    decreases |ps| - k
  {
    hide PieceOk, PieceText, PieceBytes, Unescaped;
    if k == |ps| {
      NothingLeft(s, i, end);
      assert Unescaped(s, i, end) == Ok(Raw(ps, k), i);
    } else {
      var t, u := PieceText(ps[k]), Spelled(ps, k + 1);
      var x := s[i..i + |t + u|];
      assert x == t + u;
      assert s[i..i + |t|] == x[..|t|] == t && s[i + |t|..i + |t| + |u|] == x[|t|..] == u;
      LastReaches(ps, k, u);
      PieceReads(s, i, ps[k], end);
      PiecesRead(s, i + |t|, ps, k + 1, end);
      var next :| Unescaped(s, i + |t|, end) == Ok(Raw(ps, k + 1), next);
      assert Unescaped(s, i, end) == Ok(Raw(ps, k), next);
    }
  }

  lemma NothingLeft(s: Text, i: nat, end: nat)
    requires end <= i && end < |s|
    ensures Unescaped(s, i, end) == Ok([], i)
  {
  }

  lemma LastReaches(ps: seq<Piece>, k: nat, u: Text)
    requires k < |ps| && u == Spelled(ps, k + 1)
    ensures |u| > 0 || k == |ps| - 1
    ensures forall j :: k < j < |ps| ==> |PieceText(ps[j])| > 0
  {
  }

  lemma {:induction false} CutIs(raw: Text, t: Text)
    requires IsCut(raw, t)
    ensures CString(raw) == t
  {
    if |t| > 0 {
      assert raw[0] == t[0] && t[0] in t;
      assert IsCut(raw[1..], t[1..]) by { CutOn(raw, t); }
      CutIs(raw[1..], t[1..]);
    }
  }

  lemma CutOn(raw: Text, t: Text)
    requires IsCut(raw, t) && |t| > 0
    ensures IsCut(raw[1..], t[1..])
  {
    assert forall x :: x in t[1..] ==> x in t;
    assert t[1..] == raw[..|t|][1..] == raw[1..][..|t| - 1];
  }

  /** `parse_string` reads every string of the grammar. */
  lemma StringComplete(s: Text, i: nat, q: Str, rest: Text)
    requires StringReads(q) && From(s, i, StringThen(q, rest))
    ensures ParseString(s, i) == Ok(q.text, |s| - |rest|)
  {
    hide StringEnd, Unescaped, Closed, Spelled, Raw, PieceOk, CString, IsCut;
    var b, t := q.body, [34] + rest;
    FromFirst(s, i, [34] + (b + t));
    FromAfter(s, i, [34], b + t);
    EndFound(s, i + 1, b, rest);
    FromAfter(s, i + 1, b, t);
    FromFirst(s, i + 1 + |b|, t);
    BodyIsSpelled(s, i + 1, q);
    PiecesRead(s, i + 1, q.pieces, 0, i + 1 + |b|);
    CutIs(Raw(q.pieces, 0), q.text);
  }

  lemma BodyIsSpelled(s: Text, i: nat, q: Str)
    requires StringReads(q) && i + |q.body| < |s| && s[i..i + |q.body|] == q.body && s[i + |q.body|] == 34
    ensures var n := |Spelled(q.pieces, 0)|;
      i + n <= |s| && s[i..i + n] == Spelled(q.pieces, 0) && Reach(q.pieces, i, n, i + |q.body|)
  {
    hide Spelled, Raw;
    assert s[i..i + |q.body| + 1] == q.body + [34];
  }

  // ---------- numbers ----------

  lemma {:induction false} LeadingIs(s: Text, i: nat)
    requires i <= |s|
    ensures s[i..NumericEnd(s, i)] == Leading(s[i..])
    decreases |s| - i
  {
    if i < |s| && NumberChar(s[i]) {
      LeadingIs(s, i + 1);
      assert s[i..][1..] == s[i + 1..];
      assert s[i..NumericEnd(s, i)] == [s[i]] + s[i + 1..NumericEnd(s, i + 1)];
    }
  }

  lemma {:induction false} LeadingOf(a: Text, b: Text)
    requires forall k :: 0 <= k < |a| ==> NumberChar(a[k])
    ensures Leading(a + b) == a + Leading(b)
  {
    if |a| > 0 {
      assert (a + b)[1..] == a[1..] + b;
      LeadingOf(a[1..], b);
    } else {
      assert a + b == b;
    }
  }

  lemma NumberComplete(lib: Library, s: Text, i: nat, token: Text, x: real, rest: Text)
    requires NumberReads(lib, token, x, rest) && From(s, i, token + rest)
    ensures ParseNumber(lib, s, i) == Ok(Number(x), |s| - |rest|)
  {
    hide NumericEnd, Leading, NumberChar, Digit;
    LeadingIs(s, i);
    LeadingOf(token, rest);
    FromAfter(s, i, token, rest);
  }

  // ---------- values ----------

  /** The first character tells what the value is. */
  lemma Starts(lib: Library, v: Syntax, rest: Text)
    requires Reads(lib, v, rest)
    ensures var t := Then(v, rest); |t| > 0 && t[0] > 32 && t[0] != 93 && t[0] != 125
    ensures v.Numeric? ==> Then(v, rest)[0] == 45 || Digit(Then(v, rest)[0])
    ensures v.Quoted? ==> Then(v, rest)[0] == 34
    ensures v.Bracketed? ==> Then(v, rest)[0] == 91
    ensures v.Braced? ==> Then(v, rest)[0] == 123
  {
  }

  lemma NotWord(s: Text, i: nat)
    requires i < |s| && s[i] != 110 && s[i] != 102 && s[i] != 116
    ensures !At(s, i, NULL) && !At(s, i, FALSE) && !At(s, i, TRUE)
  {
    if At(s, i, NULL) { AtFirst(s, i, NULL); }
    if At(s, i, FALSE) { AtFirst(s, i, FALSE); }
    if At(s, i, TRUE) { AtFirst(s, i, TRUE); }
  }

  lemma AtFirst(s: Text, i: nat, t: Text)
    requires At(s, i, t) && |t| > 0
    ensures i < |s| && s[i] == t[0]
  {
    assert s[i..i + |t|][0] == s[i];
  }

  /** The first character decides which parser reads the value. */
  lemma Dispatch(lib: Library, s: Text, i: nat, depth: nat)
    requires Scans(lib) && i < |s|
    ensures s[i] == MINUS || IsDigit(s[i]) ==> ParseValue(lib, s, i, depth) == ParseNumber(lib, s, i)
    ensures s[i] == QUOTE ==> ParseValue(lib, s, i, depth) == StringValue(ParseString(s, i))
    ensures s[i] == OPEN ==> ParseValue(lib, s, i, depth) == ParseArray(lib, s, i, depth)
    ensures s[i] == BEGIN ==> ParseValue(lib, s, i, depth) == ParseObject(lib, s, i, depth)
  {
    hide ParseString, ParseNumber, ParseArray, ParseObject, At;
    if s[i] != 110 && s[i] != 102 && s[i] != 116 { NotWord(s, i); }
  }

  lemma WordComplete(lib: Library, s: Text, i: nat, v: Syntax, rest: Text, depth: nat)
    requires Scans(lib) && (v.NullWord? || v.FalseWord? || v.TrueWord?) && From(s, i, Then(v, rest))
    ensures ParseValue(lib, s, i, depth) == Ok(TreeOf(v), |s| - |rest|)
  {
    var w := if v.NullWord? then NULL else if v.FalseWord? then FALSE else TRUE;
    FromAfter(s, i, w, rest);
    assert At(s, i, w);
    AtFirst(s, i, w);
    if At(s, i, NULL) { AtFirst(s, i, NULL); }
    if At(s, i, FALSE) { AtFirst(s, i, FALSE); }
  }

  /** What follows a text is its end. */
  lemma {:induction false} ThenEnds(v: Syntax, rest: Text)
    ensures EndsIn(Then(v, rest), rest)
    decreases v, 3
  {
    hide EndsIn;
    match v
    case NullWord => Ends([110, 117, 108, 108], rest, rest);
    case FalseWord => Ends([102, 97, 108, 115, 101], rest, rest);
    case TrueWord => Ends([116, 114, 117, 101], rest, rest);
    case Numeric(token, _) => Ends(token, rest, rest);
    case Quoted(q) => StringEnds(q, rest, rest);
    case Bracketed(blank, list) =>
      if list.NoElement? {
        Ends([93], rest, rest);
        Ends(blank, [93] + rest, rest);
        Ends([91], blank + ([93] + rest), rest);
      } else {
        ListEnds(list, rest);
        Ends([93], rest, rest);
        EndsOn(ListThen(list, rest), [93] + rest, rest);
        Ends(list.before, ListThen(list, rest), rest);
        Ends([91], list.before + ListThen(list, rest), rest);
      }
    case Braced(blank, fields) =>
      if fields.NoField? {
        Ends([125], rest, rest);
        Ends(blank, [125] + rest, rest);
        Ends([123], blank + ([125] + rest), rest);
      } else {
        FieldsEnds(fields, rest);
        Ends([125], rest, rest);
        EndsOn(FieldsThen(fields, rest), [125] + rest, rest);
        Ends(fields.before, FieldsThen(fields, rest), rest);
        Ends([123], fields.before + FieldsThen(fields, rest), rest);
      }
  }

  predicate EndsIn(t: Text, rest: Text) { |rest| <= |t| && t[|t| - |rest|..] == rest }

  lemma Ends(a: Text, t: Text, rest: Text)
    requires t == rest || EndsIn(t, rest)
    ensures EndsIn(a + t, rest)
  {
    var x := a + t;
    assert x[|x| - |t|..] == t;
    assert x[|x| - |rest|..] == t[|t| - |rest|..];
  }

  lemma EndsOn(t: Text, u: Text, rest: Text)
    requires EndsIn(t, u) && EndsIn(u, rest)
    ensures EndsIn(t, rest)
  {
    assert t[|t| - |rest|..] == t[|t| - |u|..][|u| - |rest|..];
  }

  lemma StringEnds(q: Str, t: Text, rest: Text)
    requires t == rest || EndsIn(t, rest)
    ensures EndsIn(StringThen(q, t), rest)
  {
    hide EndsIn;
    Ends([34], t, rest);
    Ends(q.body, [34] + t, rest);
    Ends([34], q.body + ([34] + t), rest);
  }

  lemma {:induction false} ListEnds(l: List, rest: Text)
    requires l.Element?
    ensures EndsIn(ListThen(l, rest), [93] + rest)
    decreases l, 2
  {
    hide EndsIn;
    var e, z := ListEnd(l.next, rest), [93] + rest;
    ThenEnds(l.value, l.after + e);
    if l.next.Element? {
      ListEnds(l.next, rest);
      Ends(l.next.before, ListThen(l.next, rest), z);
      Ends([44], l.next.before + ListThen(l.next, rest), z);
    }
    Ends(l.after, e, z);
    EndsOn(ListThen(l, rest), l.after + e, z);
  }

  lemma {:induction false} FieldsEnds(f: Fields, rest: Text)
    requires f.Field?
    ensures EndsIn(FieldsThen(f, rest), [125] + rest)
    decreases f, 2
  {
    hide EndsIn;
    var e, z := FieldsEnd(f.next, rest), [125] + rest;
    var v := Then(f.value, f.after + e);
    ThenEnds(f.value, f.after + e);
    if f.next.Field? {
      FieldsEnds(f.next, rest);
      Ends(f.next.before, FieldsThen(f.next, rest), z);
      Ends([44], f.next.before + FieldsThen(f.next, rest), z);
    }
    Ends(f.after, e, z);
    EndsOn(v, f.after + e, z);
    Ends(f.lead, v, z);
    Ends([58], f.lead + v, z);
    Ends(f.colon, [58] + (f.lead + v), z);
    StringEnds(f.name, f.colon + ([58] + (f.lead + v)), z);
  }

  /** After a value comes what follows it. */
  lemma AfterValue(s: Text, i: nat, v: Syntax, rest: Text)
    requires From(s, i, Then(v, rest))
    ensures i <= |s| - |rest| && From(s, |s| - |rest|, rest)
  {
    hide Then;
    ThenEnds(v, rest);
    var t := Then(v, rest);
    assert s[|s| - |rest|..] == t[|t| - |rest|..];
  }

  // ---------- arrays ----------

  lemma ItemsLast(lib: Library, s: Text, k: nat, depth: nat, p: nat, v: Json, n: nat, m: nat)
    requires Scans(lib) && k + 1 <= |s| && SkipWhitespace(s, k + 1) == p && ParseValue(lib, s, p, depth) == Ok(v, n)
    requires SkipWhitespace(s, n) == m < |s| && s[m] == CLOSE
    ensures ParseItems(lib, s, k, depth) == Ok(Item(v, NoItem), m)
  {
    hide ParseValue, SkipWhitespace;
  }

  lemma ItemsMore(lib: Library, s: Text, k: nat, depth: nat, p: nat, v: Json, n: nat, m: nat, items: Items, end: nat)
    requires Scans(lib) && k + 1 <= |s| && SkipWhitespace(s, k + 1) == p && ParseValue(lib, s, p, depth) == Ok(v, n)
    requires SkipWhitespace(s, n) == m < |s| && k < m && s[m] == COMMA && ParseItems(lib, s, m, depth) == Ok(items, end)
    ensures ParseItems(lib, s, k, depth) == Ok(Item(v, items), end)
  {
    hide ParseValue, SkipWhitespace;
  }

  lemma ListEndStarts(next: List, rest: Text)
    ensures ListEnd(next, rest)[0] == if next.NoElement? then 93 else 44
  {
  }

  /** Where the first value of a list is, and what follows it. */
  lemma ListPlaced(lib: Library, s: Text, k: nat, lead: Text, l: List, rest: Text)
    requires l.Element? && Blank(lead) && ListReads(lib, l, rest) && From(s, k + 1, lead + ListThen(l, rest))
    ensures var p, r := k + 1 + |lead|, l.after + ListEnd(l.next, rest); var n := |s| - |r|;
      && SkipWhitespace(s, k + 1) == p && From(s, p, Then(l.value, r)) && p <= n && SkipWhitespace(s, n) == n + |l.after| < |s|
      && From(s, n + |l.after|, ListEnd(l.next, rest))
  {
    hide Then, ListEnd, SkipWhitespace, Blank, Reads;
    var p, r := k + 1 + |lead|, l.after + ListEnd(l.next, rest);
    Starts(lib, l.value, r);
    SkipsTo(s, k + 1, lead, ListThen(l, rest));
    AfterValue(s, p, l.value, r);
    ListEndStarts(l.next, rest);
    SkipsTo(s, |s| - |r|, l.after, ListEnd(l.next, rest));
    FromFirst(s, |s| - |r| + |l.after|, ListEnd(l.next, rest));
  }

  lemma ListGoesOn(s: Text, m: nat, next: List, rest: Text)
    requires From(s, m, ListEnd(next, rest))
    ensures m < |s| && s[m] == if next.NoElement? then 93 else 44
    ensures if next.NoElement? then m == |s| - |rest| - 1 else From(s, m + 1, next.before + ListThen(next, rest))
  {
    FromFirst(s, m, ListEnd(next, rest));
    if next.NoElement? {
      FromLength(s, m, [93] + rest);
    } else {
      FromAfter(s, m, [44], next.before + ListThen(next, rest));
    }
  }

  /** The loop of `parse_array` reads every list of the grammar, up to the bracket. */
  lemma {:induction false} ListComplete(lib: Library, s: Text, k: nat, lead: Text, l: List, rest: Text, depth: nat)
    requires Scans(lib) && l.Element? && Blank(lead) && ListReads(lib, l, rest) && From(s, k + 1, lead + ListThen(l, rest))
    requires depth + ItemsNesting(ItemsOf(l)) <= 1000
    ensures k < |s| - |rest| - 1 < |s| && s[|s| - |rest| - 1] == CLOSE
    ensures ParseItems(lib, s, k, depth) == Ok(ItemsOf(l), |s| - |rest| - 1)
    decreases l, 1
  {
    hide Then, ListEnd, SkipWhitespace, ParseItems, ParseValue, Scans, Reads, From, Blank, Nesting;
    var p, r := k + 1 + |lead|, l.after + ListEnd(l.next, rest);
    var n := |s| - |r|;
    var m := n + |l.after|;
    ListPlaced(lib, s, k, lead, l, rest);
    ValueComplete(lib, s, p, l.value, r, depth);
    ListGoesOn(s, m, l.next, rest);
    if l.next.NoElement? {
      ItemsLast(lib, s, k, depth, p, TreeOf(l.value), n, m);
    } else {
      ListComplete(lib, s, m, l.next.before, l.next, rest, depth);
      ItemsMore(lib, s, k, depth, p, TreeOf(l.value), n, m, ItemsOf(l.next), |s| - |rest| - 1);
    }
  }

  lemma ArrayEmpty(lib: Library, s: Text, i: nat, depth: nat, blank: Text, rest: Text)
    requires Scans(lib) && Blank(blank) && depth < 1000 && From(s, i, [91] + (blank + ([93] + rest)))
    ensures i < |s| && |rest| <= |s| && ParseArray(lib, s, i, depth) == Ok(Array(NoItem), |s| - |rest|)
  {
    hide SkipWhitespace, Blank;
    FromFirst(s, i, [91] + (blank + ([93] + rest)));
    FromAfter(s, i, [91], blank + ([93] + rest));
    SkipsTo(s, i + 1, blank, [93] + rest);
    FromFirst(s, i + 1 + |blank|, [93] + rest);
    FromLength(s, i + 1 + |blank|, [93] + rest);
  }

  lemma ArrayFull(lib: Library, s: Text, i: nat, depth: nat, j: nat, items: Items, m: nat)
    requires Scans(lib) && i + 1 <= j < |s| && SkipWhitespace(s, i + 1) == j && s[j] != CLOSE && depth < 1000
    requires ParseItems(lib, s, j - 1, depth + 1) == Ok(items, m) && m < |s| && s[m] == CLOSE
    ensures ParseArray(lib, s, i, depth) == Ok(Array(items), m + 1)
  {
    hide ParseItems, SkipWhitespace;
  }

  lemma {:induction false} ArrayComplete(lib: Library, s: Text, i: nat, blank: Text, l: List, rest: Text, depth: nat)
    requires Scans(lib) && Reads(lib, Bracketed(blank, l), rest) && depth + 1 + ItemsNesting(ItemsOf(l)) <= 1000
    requires From(s, i, Then(Bracketed(blank, l), rest))
    ensures i < |s| && |rest| <= |s| && ParseArray(lib, s, i, depth) == Ok(Array(ItemsOf(l)), |s| - |rest|)
    decreases l, 3
  {
    if l.NoElement? {
      ArrayEmpty(lib, s, i, depth, blank, rest);
    } else {
      ArrayOfSome(lib, s, i, l, rest, depth);
    }
  }

  lemma {:induction false} ArrayOfSome(lib: Library, s: Text, i: nat, l: List, rest: Text, depth: nat)
    requires Scans(lib) && l.Element? && ListReads(lib, l, rest) && depth + 1 + ItemsNesting(ItemsOf(l)) <= 1000
    requires From(s, i, [91] + (l.before + ListThen(l, rest)))
    ensures i < |s| && |rest| <= |s| && ParseArray(lib, s, i, depth) == Ok(Array(ItemsOf(l)), |s| - |rest|)
    decreases l, 2
  {
    hide SkipWhitespace, Blank, ParseArray, ListThen, ParseItems, ListReads, Scans, ItemsOf, ItemsNesting, From;
    ListStarts(lib, l, rest);
    var j := OpenPlaced(s, i, 91, l.before, ListThen(l, rest));
    ListComplete(lib, s, j - 1, [], l, rest, depth + 1);
    ArrayFull(lib, s, i, depth, j, ItemsOf(l), |s| - |rest| - 1);
  }

  /** Where the first value or name after a bracket or brace is. */
  lemma OpenPlaced(s: Text, i: nat, open: nat, before: Text, t: Text) returns (j: nat)
    requires From(s, i, [open] + (before + t)) && Blank(before) && |t| > 0 && t[0] > 32
    ensures i + 1 <= j < |s| && SkipWhitespace(s, i + 1) == j && s[j] == t[0] && Blank([]) && From(s, j, [] + t)
  {
    hide SkipWhitespace;
    j := i + 1 + |before|;
    FromAfter(s, i, [open], before + t);
    SkipsTo(s, i + 1, before, t);
    FromFirst(s, j, t);
    Nothing(t);
  }

  lemma ListStarts(lib: Library, l: List, rest: Text)
    requires l.Element? && ListReads(lib, l, rest)
    ensures var t := ListThen(l, rest); Blank(l.before) && |t| > 0 && t[0] > 32 && t[0] != 93
  {
    Starts(lib, l.value, l.after + ListEnd(l.next, rest));
  }

  lemma {:induction false} ValueComplete(lib: Library, s: Text, i: nat, v: Syntax, rest: Text, depth: nat)
    requires Scans(lib) && Reads(lib, v, rest) && depth + Nesting(TreeOf(v)) <= 1000 && From(s, i, Then(v, rest))
    ensures |rest| <= |s| && ParseValue(lib, s, i, depth) == Ok(TreeOf(v), |s| - |rest|)
    decreases v, 4
  {
    hide Then, ParseValue, ParseArray, ParseObject, ParseNumber, ParseString, StringReads, NumberReads, ListReads, FieldsRead;
    Starts(lib, v, rest);
    FromFirst(s, i, Then(v, rest));
    Dispatch(lib, s, i, depth);
    AfterValue(s, i, v, rest);
    match v
    case Numeric(token, x) =>
      NumericThen(token, x, rest);
      NumberComplete(lib, s, i, token, x, rest);
    case Quoted(q) =>
      QuotedThen(q, rest);
      StringComplete(s, i, q, rest);
    case Bracketed(blank, list) => ArrayComplete(lib, s, i, blank, list, rest, depth);
    case Braced(blank, fields) => ObjectComplete(lib, s, i, blank, fields, rest, depth);
    case _ => WordComplete(lib, s, i, v, rest, depth);
  }

  lemma NumericThen(token: Text, x: real, rest: Text)
    ensures Then(Numeric(token, x), rest) == token + rest
  {
  }

  lemma QuotedThen(q: Str, rest: Text)
    ensures Then(Quoted(q), rest) == StringThen(q, rest)
  {
  }

  // ---------- objects ----------

  lemma MembersLast(lib: Library, s: Text, k: nat, depth: nat, p: nat, name: Text, a: nat, c: nat, q: nat, v: Json, n: nat, m: nat)
    requires Scans(lib) && k + 1 < |s| && SkipWhitespace(s, k + 1) == p && ParseString(s, p) == Ok(name, a)
    requires SkipWhitespace(s, a) == c < |s| && s[c] == COLON && SkipWhitespace(s, c + 1) == q && ParseValue(lib, s, q, depth) == Ok(v, n)
    requires SkipWhitespace(s, n) == m < |s| && s[m] == END
    ensures ParseMembers(lib, s, k, depth) == Ok(Member(name, v, NoMember), m)
  {
    hide ParseValue, ParseString, SkipWhitespace;
  }

  lemma MembersMore(lib: Library, s: Text, k: nat, depth: nat, p: nat, name: Text, a: nat, c: nat, q: nat, v: Json, n: nat, m: nat,
                    ms: Members, e: nat)
    requires Scans(lib) && k + 1 < |s| && SkipWhitespace(s, k + 1) == p && ParseString(s, p) == Ok(name, a)
    requires SkipWhitespace(s, a) == c < |s| && s[c] == COLON && SkipWhitespace(s, c + 1) == q && ParseValue(lib, s, q, depth) == Ok(v, n)
    requires SkipWhitespace(s, n) == m < |s| && k < m && s[m] == COMMA && ParseMembers(lib, s, m, depth) == Ok(ms, e)
    ensures ParseMembers(lib, s, k, depth) == Ok(Member(name, v, ms), e)
  {
    hide ParseValue, ParseString, SkipWhitespace;
  }

  /** The text after the name of a member. */
  function AfterName(f: Fields, rest: Text): (t: Text)
    requires f.Field?
  {
    f.colon + ([58] + (f.lead + Then(f.value, f.after + FieldsEnd(f.next, rest))))
  }

  /** Where the name is and where the colon. */
  lemma NamePlaced(s: Text, k: nat, lead: Text, f: Fields, rest: Text) returns (a: nat, c: nat)
    requires f.Field? && Blank(lead) && Blank(f.colon) && StringReads(f.name) && From(s, k + 1, lead + FieldsThen(f, rest))
    ensures k + 1 < |s| && SkipWhitespace(s, k + 1) == k + 1 + |lead| && ParseString(s, k + 1 + |lead|) == Ok(f.name.text, a)
    ensures SkipWhitespace(s, a) == c < |s| && s[c] == COLON && From(s, c + 1, f.lead + Then(f.value, f.after + FieldsEnd(f.next, rest)))
    ensures k < a <= c
  {
    hide SkipWhitespace, ParseString, Blank, StringReads, Then, FieldsEnd;
    var t := AfterName(f, rest);
    var p := k + 1 + |lead|;
    SkipsTo(s, k + 1, lead, StringThen(f.name, t));
    FromFirst(s, p, StringThen(f.name, t));
    StringComplete(s, p, f.name, t);
    a := |s| - |t|;
    AfterString(s, p, f.name, t);
    c := ColonPlaced(s, a, f.colon, f.lead + Then(f.value, f.after + FieldsEnd(f.next, rest)));
  }

  lemma ColonPlaced(s: Text, a: nat, blank: Text, t: Text) returns (c: nat)
    requires Blank(blank) && From(s, a, blank + ([58] + t))
    ensures a <= c < |s| && SkipWhitespace(s, a) == c && s[c] == COLON && From(s, c + 1, t)
  {
    hide SkipWhitespace, Blank;
    c := a + |blank|;
    SkipsTo(s, a, blank, [58] + t);
    FromFirst(s, c, [58] + t);
    FromAfter(s, c, [58], t);
  }

  lemma AfterString(s: Text, i: nat, q: Str, t: Text)
    requires From(s, i, StringThen(q, t))
    ensures i < |s| - |t| && From(s, |s| - |t|, t)
  {
    FromAfter(s, i, [34], q.body + ([34] + t));
    FromAfter(s, i + 1, q.body, [34] + t);
    FromAfter(s, i + 1 + |q.body|, [34], t);
  }

  lemma FieldsEndStarts(next: Fields, rest: Text)
    ensures FieldsEnd(next, rest)[0] == if next.NoField? then 125 else 44
  {
  }

  /** Where the value after the colon at `c` is, and what follows it. */
  lemma FieldValuePlaced(lib: Library, s: Text, c: nat, f: Fields, rest: Text)
    requires f.Field? && Blank(f.lead) && Blank(f.after) && Reads(lib, f.value, f.after + FieldsEnd(f.next, rest))
    requires From(s, c + 1, f.lead + Then(f.value, f.after + FieldsEnd(f.next, rest)))
    ensures var q, r := c + 1 + |f.lead|, f.after + FieldsEnd(f.next, rest); var n := |s| - |r|;
      && SkipWhitespace(s, c + 1) == q && From(s, q, Then(f.value, r)) && q <= n && SkipWhitespace(s, n) == n + |f.after| < |s|
      && From(s, n + |f.after|, FieldsEnd(f.next, rest))
  {
    hide Then, FieldsEnd, SkipWhitespace, Blank, Reads;
    var q, r := c + 1 + |f.lead|, f.after + FieldsEnd(f.next, rest);
    Starts(lib, f.value, r);
    SkipsTo(s, c + 1, f.lead, Then(f.value, r));
    AfterValue(s, q, f.value, r);
    FieldsEndStarts(f.next, rest);
    SkipsTo(s, |s| - |r|, f.after, FieldsEnd(f.next, rest));
    FromFirst(s, |s| - |r| + |f.after|, FieldsEnd(f.next, rest));
  }

  lemma FieldsGoOn(s: Text, m: nat, next: Fields, rest: Text)
    requires From(s, m, FieldsEnd(next, rest))
    ensures m < |s| && s[m] == if next.NoField? then 125 else 44
    ensures if next.NoField? then m == |s| - |rest| - 1 else From(s, m + 1, next.before + FieldsThen(next, rest))
  {
    FromFirst(s, m, FieldsEnd(next, rest));
    if next.NoField? {
      FromLength(s, m, [125] + rest);
    } else {
      FromAfter(s, m, [44], next.before + FieldsThen(next, rest));
    }
  }

  lemma FieldParts(lib: Library, f: Fields, rest: Text, depth: nat)
    requires f.Field? && FieldsRead(lib, f, rest) && depth + MembersNesting(MembersOf(f)) <= 1000
    ensures Blank(f.before) && Blank(f.colon) && Blank(f.lead) && Blank(f.after) && StringReads(f.name)
    ensures Reads(lib, f.value, f.after + FieldsEnd(f.next, rest)) && FieldsRead(lib, f.next, rest)
    ensures depth + Nesting(TreeOf(f.value)) <= 1000 && depth + MembersNesting(MembersOf(f.next)) <= 1000
    ensures MembersOf(f) == Member(f.name.text, TreeOf(f.value), MembersOf(f.next))
  {
    hide Reads, StringReads, Blank, Nesting, TreeOf, FieldsEnd;
  }

  /** The loop of `parse_object` reads every list of members of the grammar, up to the brace. */
  lemma {:induction false} FieldsComplete(lib: Library, s: Text, k: nat, lead: Text, f: Fields, rest: Text, depth: nat)
    requires Scans(lib) && f.Field? && Blank(lead) && FieldsRead(lib, f, rest) && From(s, k + 1, lead + FieldsThen(f, rest))
    requires depth + MembersNesting(MembersOf(f)) <= 1000
    ensures k < |s| - |rest| - 1 < |s| && s[|s| - |rest| - 1] == END
    ensures ParseMembers(lib, s, k, depth) == Ok(MembersOf(f), |s| - |rest| - 1)
    decreases f, 1
  {
    hide Then, FieldsEnd, SkipWhitespace, ParseMembers, ParseValue, ParseString, Scans, Reads, From, Blank, Nesting, StringReads;
    hide FieldsRead, MembersOf, MembersNesting, TreeOf, FieldsThen;
    FieldParts(lib, f, rest, depth);
    var a, c := NamePlaced(s, k, lead, f, rest);
    var q, r := c + 1 + |f.lead|, f.after + FieldsEnd(f.next, rest);
    var n := |s| - |r|;
    var m := n + |f.after|;
    FieldValuePlaced(lib, s, c, f, rest);
    ValueComplete(lib, s, q, f.value, r, depth);
    FieldsGoOn(s, m, f.next, rest);
    if f.next.NoField? {
      NoMembers(f.next);
      MembersLast(lib, s, k, depth, k + 1 + |lead|, f.name.text, a, c, q, TreeOf(f.value), n, m);
    } else {
      FieldParts(lib, f.next, rest, depth);
      FieldsComplete(lib, s, m, f.next.before, f.next, rest, depth);
      MembersMore(lib, s, k, depth, k + 1 + |lead|, f.name.text, a, c, q, TreeOf(f.value), n, m, MembersOf(f.next), |s| - |rest| - 1);
    }
  }

  lemma NoMembers(f: Fields)
    requires f.NoField?
    ensures MembersOf(f) == NoMember
  {
  }

  lemma ObjectEmpty(lib: Library, s: Text, i: nat, depth: nat, blank: Text, rest: Text)
    requires Scans(lib) && Blank(blank) && depth < 1000 && From(s, i, [123] + (blank + ([125] + rest)))
    ensures i < |s| && |rest| <= |s| && ParseObject(lib, s, i, depth) == Ok(Object(NoMember), |s| - |rest|)
  {
    hide SkipWhitespace, Blank;
    FromFirst(s, i, [123] + (blank + ([125] + rest)));
    FromAfter(s, i, [123], blank + ([125] + rest));
    SkipsTo(s, i + 1, blank, [125] + rest);
    FromFirst(s, i + 1 + |blank|, [125] + rest);
    FromLength(s, i + 1 + |blank|, [125] + rest);
  }

  lemma ObjectFull(lib: Library, s: Text, i: nat, depth: nat, j: nat, ms: Members, m: nat)
    requires Scans(lib) && i + 1 <= j < |s| && SkipWhitespace(s, i + 1) == j && s[j] != END && depth < 1000
    requires ParseMembers(lib, s, j - 1, depth + 1) == Ok(ms, m) && m < |s| && s[m] == END
    ensures ParseObject(lib, s, i, depth) == Ok(Object(ms), m + 1)
  {
    hide ParseMembers, SkipWhitespace;
  }

  lemma {:induction false} ObjectComplete(lib: Library, s: Text, i: nat, blank: Text, f: Fields, rest: Text, depth: nat)
    requires Scans(lib) && Reads(lib, Braced(blank, f), rest) && depth + 1 + MembersNesting(MembersOf(f)) <= 1000
    requires From(s, i, Then(Braced(blank, f), rest))
    ensures i < |s| && |rest| <= |s| && ParseObject(lib, s, i, depth) == Ok(Object(MembersOf(f)), |s| - |rest|)
    decreases f, 3
  {
    if f.NoField? {
      ObjectEmpty(lib, s, i, depth, blank, rest);
    } else {
      ObjectOfSome(lib, s, i, f, rest, depth);
    }
  }

  lemma {:induction false} ObjectOfSome(lib: Library, s: Text, i: nat, f: Fields, rest: Text, depth: nat)
    requires Scans(lib) && f.Field? && FieldsRead(lib, f, rest) && depth + 1 + MembersNesting(MembersOf(f)) <= 1000
    requires From(s, i, [123] + (f.before + FieldsThen(f, rest)))
    ensures i < |s| && |rest| <= |s| && ParseObject(lib, s, i, depth) == Ok(Object(MembersOf(f)), |s| - |rest|)
    decreases f, 2
  {
    hide SkipWhitespace, Blank, ParseObject, ParseMembers, FieldsRead, Scans, FieldsThen, MembersOf, MembersNesting, From;
    FieldsStart(lib, f, rest);
    var j := OpenPlaced(s, i, 123, f.before, FieldsThen(f, rest));
    FieldsComplete(lib, s, j - 1, [], f, rest, depth + 1);
    ObjectFull(lib, s, i, depth, j, MembersOf(f), |s| - |rest| - 1);
  }

  lemma FieldsStart(lib: Library, f: Fields, rest: Text)
    requires f.Field? && FieldsRead(lib, f, rest)
    ensures Blank(f.before) && |FieldsThen(f, rest)| > 0 && FieldsThen(f, rest)[0] == 34
  {
  }
}
