/** Nothing else is read: whatever cJSON parses is a text of the grammar, so that the grammar says exactly what it reads. */
module JsonSound {
  import opened Json
  import opened JsonParse
  import opened JsonGrammar
  import opened JsonComplete
  import opened JsonRfc

  // ---------- white space ----------

  lemma {:induction false} SkippedBlank(s: Text, i: nat)
    requires i <= |s|
    ensures forall k :: i <= k < SkipBlank(s, i) ==> s[k] <= 32
    decreases |s| - i
  {
    if i < |s| && s[i] <= 32 { SkippedBlank(s, i + 1); }
  }

  /** What is skipped is white space. */
  lemma Skipped(s: Text, i: nat)
    requires i <= |s|
    ensures i <= SkipWhitespace(s, i) <= |s| && Blank(s[i..SkipWhitespace(s, i)])
  {
    SkippedBlank(s, i);
  }

  lemma Cons(s: Text, i: nat)
    requires i < |s|
    ensures s[i..] == [s[i]] + s[i + 1..]
  {
  }

  lemma Split(s: Text, i: nat, j: nat)
    requires i <= j <= |s|
    ensures s[i..] == s[i..j] + s[j..]
  {
  }

  // ---------- strings ----------

  lemma {:induction false} EndClosed(s: Text, i: nat)
    requires StringEnd(s, i) < |s|
    ensures i <= StringEnd(s, i) && s[StringEnd(s, i)] == 34 && Closed(s[i..StringEnd(s, i)])
    decreases |s| - i
  {
    var end := StringEnd(s, i);
    if i < end {
      var n := if s[i] == BACKSLASH then 2 else 1;
      EndClosed(s, i + n);
      assert s[i..end][n..] == s[i + n..end];
    }
  }

  lemma ThreeEncode(cp: nat)
    requires 0x800 <= cp < 0x10000
    ensures Encodes(Utf8(cp), cp)
  {
    var a, b, c := cp / 4096, cp / 64 % 64, cp % 64;
    assert cp / 64 == 64 * a + b && cp == 64 * (cp / 64) + c;
    assert Utf8(cp) == [0xE0 + a, 0x80 + b, 0x80 + c];
  }

  lemma FourEncode(cp: nat)
    requires 0x10000 <= cp < 0x110000
    ensures Encodes(Utf8(cp), cp)
  {
    var a, b, c, d := cp / 262144, cp / 4096 % 64, cp / 64 % 64, cp % 64;
    FourDigits(cp);
    assert Utf8(cp) == [0xF0 + a, 0x80 + b, 0x80 + c, 0x80 + d];
  }

  lemma FourDigits(cp: nat)
    requires cp < 0x110000
    ensures cp / 262144 < 5 && cp == 262144 * (cp / 262144) + 4096 * (cp / 4096 % 64) + 64 * (cp / 64 % 64) + cp % 64
  {
    assert cp / 4096 == 64 * (cp / 262144) + cp / 4096 % 64;
    assert cp / 64 == 64 * (cp / 4096) + cp / 64 % 64;
  }

  lemma Utf8Encodes(cp: nat)
    requires cp < 0x110000
    ensures Encodes(Utf8(cp), cp)
  {
    hide Encodes, Utf8;
    if 0x10000 <= cp {
      FourEncode(cp);
    } else if 0x800 <= cp {
      ThreeEncode(cp);
    } else {
      FewEncode(cp);
    }
  }

  lemma FewEncode(cp: nat)
    requires cp < 0x800
    ensures Encodes(Utf8(cp), cp)
  {
  }

  lemma UnicodeSound(s: Text, i: nat, end: nat) returns (p: Piece)
    requires end < |s| && i + 1 < end && s[i] == 92 && s[i + 1] == 117 && ParseUtf16(s, i, end).Ok?
    ensures var r := ParseUtf16(s, i, end);
      PieceOk(p) && !p.Short? && PieceBytes(p) == r.value && i + |PieceText(p)| == r.next <= end && s[i..r.next] == PieceText(p)
  {
    hide Encodes, Code, Utf8, ParseHex4;
    var r := ParseUtf16(s, i, end);
    var a, b := s[i + 2..i + 6], ParseHex4(s, i + 2);
    CodeIs(s, i + 2);
    if r.next == i + 6 {
      p := Unicode(a, r.value);
      Utf8Encodes(b);
      assert s[i..i + 6] == [92, 117] + a;
    } else {
      var c := s[i + 8..i + 12];
      CodeIs(s, i + 8);
      p := Surrogates(a, c, r.value);
      PairIs(Code(a), Code(c));
      Utf8Encodes(0x10000 + 0x400 * (Code(a) - 0xD800) + (Code(c) - 0xDC00));
      assert s[i..i + 12] == [92, 117] + a + [92, 117] + c;
    }
  }

  /** One turn of the second loop. */
  lemma PieceSound(s: Text, i: nat, end: nat) returns (p: Piece)
    requires i < end < |s| && Unescaped(s, i, end).Ok?
    ensures PieceOk(p) && i + |PieceText(p)| <= (if p.Short? then end + 1 else end) && |PieceText(p)| > 0
    ensures s[i..i + |PieceText(p)|] == PieceText(p)
    ensures Unescaped(s, i, end) == Prepend(PieceBytes(p), Unescaped(s, i + |PieceText(p)|, end))
  {
    hide Encodes, Code, ParseUtf16;
    if s[i] != BACKSLASH {
      p := Plain(s[i]);
      assert s[i..i + 1] == [s[i]];
    } else if s[i + 1] == 117 {
      LongEnough(s, i, end);
      p := UnicodeSound(s, i, end);
    } else {
      p := Short(s[i + 1], Unescape(s[i + 1]));
      TwoAt(s, i);
    }
  }

  lemma TwoAt(s: Text, i: nat)
    requires i + 1 < |s|
    ensures s[i..i + 2] == [s[i], s[i + 1]]
  {
  }

  lemma LongEnough(s: Text, i: nat, end: nat)
    requires end < |s| && ParseUtf16(s, i, end).Ok?
    ensures i + 6 <= end
  {
  }

  lemma SpelledStep(ps: seq<Piece>, k: nat)
    requires k < |ps|
    ensures Spelled(ps, k) == PieceText(ps[k]) + Spelled(ps, k + 1) && Raw(ps, k) == PieceBytes(ps[k]) + Raw(ps, k + 1)
  {
  }

  lemma SpelledDone(ps: seq<Piece>)
    ensures Spelled(ps, |ps|) == [] && Raw(ps, |ps|) == []
  {
  }

  lemma {:induction false} SpelledOn(p: Piece, ps: seq<Piece>, k: nat)
    requires k <= |ps|
    ensures Spelled([p] + ps, k + 1) == Spelled(ps, k) && Raw([p] + ps, k + 1) == Raw(ps, k)
    decreases |ps| - k
  {
    hide Spelled, Raw;
    var qs := [p] + ps;
    if k < |ps| {
      SpelledOn(p, ps, k + 1);
      assert qs[k + 1] == ps[k];
      SpelledStep(qs, k + 1);
      SpelledStep(ps, k);
    } else {
      SpelledDone(qs);
      SpelledDone(ps);
    }
  }

  lemma SpelledCons(p: Piece, ps: seq<Piece>)
    ensures Spelled([p] + ps, 0) == PieceText(p) + Spelled(ps, 0) && Raw([p] + ps, 0) == PieceBytes(p) + Raw(ps, 0)
  {
    SpelledOn(p, ps, 0);
  }

  /** The pieces from `i` on, which end at `fin`: where the body does, or one after it. */
  ghost predicate Pieced(s: Text, i: nat, end: nat, ps: seq<Piece>, fin: nat) {
    && i <= fin <= |s| && Spelled(ps, 0) == s[i..fin] && (forall k :: 0 <= k < |ps| ==> PieceOk(ps[k]))
    && (fin == end || (fin == end + 1 && if |ps| == 0 then i == end + 1 else ps[|ps| - 1].Short?))
  }

  lemma NothingPieced(s: Text, i: nat, end: nat)
    requires end <= i <= end + 1 && end < |s|
    ensures Pieced(s, i, end, [], i) && Unescaped(s, i, end) == Ok([], i) && Raw([], 0) == []
  {
  }

  lemma OneMorePiece(s: Text, i: nat, end: nat, p: Piece, ps: seq<Piece>, fin: nat)
    requires i < end < |s| && PieceOk(p) && i + |PieceText(p)| <= (if p.Short? then end + 1 else end)
    requires s[i..i + |PieceText(p)|] == PieceText(p) && Pieced(s, i + |PieceText(p)|, end, ps, fin)
    ensures Pieced(s, i, end, [p] + ps, fin) && Raw([p] + ps, 0) == PieceBytes(p) + Raw(ps, 0)
  {
    hide PieceOk, PieceText, PieceBytes, Spelled, Raw;
    var j, qs := i + |PieceText(p)|, [p] + ps;
    SpelledCons(p, ps);
    assert s[i..fin] == s[i..j] + s[j..fin];
    assert forall k :: 0 < k < |qs| ==> qs[k] == ps[k - 1];
  }

  lemma {:induction false} PiecesSound(s: Text, i: nat, end: nat) returns (ps: seq<Piece>, fin: nat)
    requires i <= end + 1 && end < |s| && Unescaped(s, i, end).Ok?
    ensures Pieced(s, i, end, ps, fin) && Unescaped(s, i, end).value == Raw(ps, 0)
    decreases end + 1 - i
  {
    hide PieceOk, PieceText, PieceBytes, Spelled, Raw, Unescaped, Pieced;
    if i >= end {
      ps, fin := [], i;
      NothingPieced(s, i, end);
    } else {
      var p := PieceSound(s, i, end);
      var qs;
      qs, fin := PiecesSound(s, i + |PieceText(p)|, end);
      OneMorePiece(s, i, end, p, qs, fin);
      ps := [p] + qs;
    }
  }

  lemma {:induction false} CutOf(raw: Text)
    ensures IsCut(raw, CString(raw))
  {
    if |raw| > 0 && raw[0] != 0 {
      CutOf(raw[1..]);
      var t := CString(raw[1..]);
      assert CString(raw) == [raw[0]] + t;
      assert raw == [raw[0]] + raw[1..];
      assert raw[..|t| + 1] == [raw[0]] + raw[1..][..|t|];
    }
  }

  lemma StringParts(s: Text, i: nat)
    requires ParseString(s, i).Ok?
    ensures i < |s| && s[i] == 34
    ensures var end := StringEnd(s, i + 1);
      && i + 1 <= end < |s| && Unescaped(s, i + 1, end).Ok? && ParseString(s, i).next == end + 1
      && ParseString(s, i).value == CString(Unescaped(s, i + 1, end).value)
  {
    hide StringEnd, Unescaped, CString;
  }

  lemma StringSound(s: Text, i: nat) returns (q: Str)
    requires ParseString(s, i).Ok?
    ensures var r := ParseString(s, i);
      r.next <= |s| && StringReads(q) && q.text == r.value && From(s, i, StringThen(q, s[r.next..]))
  {
    hide ParseString, StringEnd, Unescaped, Closed, Raw, CString, Pieced, StringReads, StringThen, From;
    StringParts(s, i);
    var end := StringEnd(s, i + 1);
    EndClosed(s, i + 1);
    var ps, fin := PiecesSound(s, i + 1, end);
    q := Str(s[i + 1..end], ps, CString(Raw(ps, 0)));
    PiecedReads(s, i + 1, end, ps, fin);
    QuotesAround(s, i, end, q);
  }

  lemma PiecedReads(s: Text, i: nat, end: nat, ps: seq<Piece>, fin: nat)
    requires i <= end < |s| && s[end] == 34 && Closed(s[i..end]) && Pieced(s, i, end, ps, fin)
    ensures StringReads(Str(s[i..end], ps, CString(Raw(ps, 0))))
  {
    hide Closed, Spelled, Raw, CString, IsCut, PieceOk;
    CutOf(Raw(ps, 0));
    if fin == end + 1 { assert s[i..fin] == s[i..end] + [34]; }
  }

  lemma QuotesAround(s: Text, i: nat, end: nat, q: Str)
    requires i + 1 <= end < |s| && s[i] == 34 && s[end] == 34 && q.body == s[i + 1..end]
    ensures From(s, i, StringThen(q, s[end + 1..]))
  {
    Cons(s, i);
    Split(s, i + 1, end);
    Cons(s, end);
  }

  // ---------- numbers ----------

  lemma {:induction false} LeadingSplit(t: Text, n: nat)
    requires n <= |Leading(t)|
    ensures n <= |t| && (forall k :: 0 <= k < n ==> NumberChar(t[k])) && Leading(t) == t[..n] + Leading(t[n..])
  {
    if n > 0 {
      LeadingSplit(t[1..], n - 1);
      assert t[1..][n - 1..] == t[n..];
      assert t[..n] == [t[0]] + t[1..][..n - 1];
      assert forall k :: 0 < k < n ==> t[k] == t[1..][k - 1];
    } else {
      assert t[..0] == [] && t[0..] == t;
    }
  }

  lemma NumberSound(lib: Library, s: Text, i: nat) returns (token: Text)
    requires Scans(lib) && i < |s| && (s[i] == 45 || Digit(s[i])) && ParseNumber(lib, s, i).Ok?
    ensures var r := ParseNumber(lib, s, i);
      && i < r.next <= |s| && r.value.Number? && NumberReads(lib, token, r.value.value, s[r.next..]) && From(s, i, token + s[r.next..])
  {
    hide NumericEnd, Leading, NumberChar;
    var scan := lib.strtod(s[i..NumericEnd(s, i)]);
    var t := s[i..];
    LeadingIs(s, i);
    LeadingSplit(t, scan.used);
    token := t[..scan.used];
    assert t[scan.used..] == s[i + scan.used..];
    assert t == token + t[scan.used..];
  }

  // ---------- values ----------

  /** What was parsed at `i` up to `next` is the text of `v`, within the nesting limit. */
  ghost predicate Traced(lib: Library, s: Text, i: nat, depth: nat, v: Syntax, tree: Json, next: nat) {
    && i <= next <= |s| && From(s, i, Then(v, s[next..])) && Reads(lib, v, s[next..])
    && TreeOf(v) == tree && depth + Nesting(tree) <= 1000
  }

  /** Which parser read the value. */
  lemma Kinds(lib: Library, s: Text, i: nat, depth: nat)
    requires Scans(lib) && ParseValue(lib, s, i, depth).Ok?
    ensures i < |s| && s[i] > 32
    ensures var r := ParseValue(lib, s, i, depth);
      || (At(s, i, NULL) && r == Ok(Null, i + 4)) || (At(s, i, FALSE) && r == Ok(False, i + 5)) || (At(s, i, TRUE) && r == Ok(True, i + 4))
      || (s[i] == QUOTE && r == StringValue(ParseString(s, i)))
      || ((s[i] == MINUS || IsDigit(s[i])) && r == ParseNumber(lib, s, i))
      || (s[i] == OPEN && r == ParseArray(lib, s, i, depth)) || (s[i] == BEGIN && r == ParseObject(lib, s, i, depth))
  {
    hide ParseString, ParseNumber, ParseArray, ParseObject;
    if At(s, i, NULL) { AtFirst(s, i, NULL); }
    if At(s, i, FALSE) { AtFirst(s, i, FALSE); }
    if At(s, i, TRUE) { AtFirst(s, i, TRUE); }
  }

  lemma WordSound(lib: Library, s: Text, i: nat, depth: nat, v: Syntax, w: Text, tree: Json)
    requires depth <= 1000 && At(s, i, w)
    requires || (v == NullWord && w == NULL && tree == Null) || (v == FalseWord && w == FALSE && tree == False)
             || (v == TrueWord && w == TRUE && tree == True)
    ensures Traced(lib, s, i, depth, v, tree, i + |w|)
  {
    Split(s, i, i + |w|);
  }

  lemma StringTraced(lib: Library, s: Text, i: nat, depth: nat) returns (v: Syntax)
    requires depth <= 1000 && ParseString(s, i).Ok?
    ensures Traced(lib, s, i, depth, v, String(ParseString(s, i).value), ParseString(s, i).next)
  {
    hide ParseString, StringReads;
    var q := StringSound(s, i);
    v := Quoted(q);
  }

  lemma NumberTraced(lib: Library, s: Text, i: nat, depth: nat) returns (v: Syntax)
    requires Scans(lib) && depth <= 1000 && i < |s| && (s[i] == 45 || Digit(s[i])) && ParseNumber(lib, s, i).Ok?
    ensures var r := ParseNumber(lib, s, i); r.next <= |s| && Traced(lib, s, i, depth, v, r.value, r.next)
  {
    hide ParseNumber, NumberReads;
    var token := NumberSound(lib, s, i);
    v := Numeric(token, ParseNumber(lib, s, i).value.value);
  }

  lemma {:induction false} ValueSound(lib: Library, s: Text, i: nat, depth: nat) returns (v: Syntax)
    requires Scans(lib) && depth <= 1000 && ParseValue(lib, s, i, depth).Ok?
    ensures var r := ParseValue(lib, s, i, depth); Traced(lib, s, i, depth, v, r.value, r.next)
    decreases |s| - i, 3
  {
    hide ParseValue, ParseString, ParseNumber, ParseArray, ParseObject, Traced, At;
    Kinds(lib, s, i, depth);
    var r := ParseValue(lib, s, i, depth);
    if At(s, i, NULL) && r == Ok(Null, i + 4) {
      v := NullWord;
      WordSound(lib, s, i, depth, v, NULL, Null);
    } else if At(s, i, FALSE) && r == Ok(False, i + 5) {
      v := FalseWord;
      WordSound(lib, s, i, depth, v, FALSE, False);
    } else if At(s, i, TRUE) && r == Ok(True, i + 4) {
      v := TrueWord;
      WordSound(lib, s, i, depth, v, TRUE, True);
    } else if s[i] == QUOTE {
      v := StringTraced(lib, s, i, depth);
    } else if s[i] == OPEN {
      v := ArraySound(lib, s, i, depth);
    } else if s[i] == BEGIN {
      v := ObjectSound(lib, s, i, depth);
    } else {
      v := NumberTraced(lib, s, i, depth);
    }
  }

  // ---------- arrays ----------

  /** What the loop of `parse_array` read from the character after `k` up to the bracket at `end`. */
  ghost predicate ListTraced(lib: Library, s: Text, k: nat, depth: nat, l: List, items: Items, end: nat) {
    && l.Element? && k + 1 <= end < |s| && s[end] == 93
    && From(s, k + 1, l.before + ListThen(l, s[end + 1..])) && ListReads(lib, l, s[end + 1..])
    && ItemsOf(l) == items && depth + ItemsNesting(items) <= 1000
  }

  /** One turn of the loop. */
  lemma ItemsParts(lib: Library, s: Text, k: nat, depth: nat)
    requires Scans(lib) && ParseItems(lib, s, k, depth).Ok? && Has(s, ParseItems(lib, s, k, depth).next, CLOSE)
    ensures k + 1 <= |s|
    ensures var p, r := SkipWhitespace(s, k + 1), ParseItems(lib, s, k, depth); var x := ParseValue(lib, s, p, depth);
      && x.Ok? && x.next <= |s|
      && var m := SkipWhitespace(s, x.next);
         && k < m < |s|
         && if s[m] == COMMA then
              var y := ParseItems(lib, s, m, depth); y.Ok? && y.next == r.next && r.value == Item(x.value, y.value)
            else r.next == m && s[m] == CLOSE && r.value == Item(x.value, NoItem)
  {
    hide ParseValue, SkipWhitespace;
  }

  /** A value with what is before and after it. */
  lemma ElementTraced(lib: Library, s: Text, k: nat, depth: nat, v: Syntax, tree: Json, p: nat, n: nat, m: nat,
                      next: List, items: Items, end: nat)
    requires k + 1 <= p <= n <= m < |s| && Blank(s[k + 1..p]) && Blank(s[n..m]) && Traced(lib, s, p, depth, v, tree, n)
    requires m <= end < |s| && s[end] == 93 && From(s, m, ListEnd(next, s[end + 1..])) && ListReads(lib, next, s[end + 1..])
    requires ItemsOf(next) == items && depth + ItemsNesting(items) <= 1000
    ensures ListTraced(lib, s, k, depth, Element(s[k + 1..p], v, s[n..m], next), Item(tree, items), end)
  {
    hide Then, ListEnd, Reads, Blank, Nesting;
    Split(s, n, m);
    Split(s, k + 1, p);
  }

  lemma {:induction false} ListSound(lib: Library, s: Text, k: nat, depth: nat) returns (l: List)
    requires Scans(lib) && depth <= 1000 && ParseItems(lib, s, k, depth).Ok? && Has(s, ParseItems(lib, s, k, depth).next, CLOSE)
    ensures var r := ParseItems(lib, s, k, depth); ListTraced(lib, s, k, depth, l, r.value, r.next)
    decreases |s| - k, 1
  {
    hide ParseValue, ParseItems, SkipWhitespace, Traced, ListTraced, Then;
    var p, r := SkipWhitespace(s, k + 1), ParseItems(lib, s, k, depth);
    ItemsParts(lib, s, k, depth);
    var x := ParseValue(lib, s, p, depth);
    var m := SkipWhitespace(s, x.next);
    Skipped(s, k + 1);
    Skipped(s, x.next);
    var v := ValueSound(lib, s, p, depth);
    Forward(lib, s, p, depth, v, x.value, x.next);
    if s[m] == COMMA {
      var next := ListSound(lib, s, m, depth);
      CommaTraced(lib, s, m, depth, next, ParseItems(lib, s, m, depth).value, r.next);
      ElementTraced(lib, s, k, depth, v, x.value, p, x.next, m, next, ParseItems(lib, s, m, depth).value, r.next);
      l := Element(s[k + 1..p], v, s[x.next..m], next);
    } else {
      Cons(s, m);
      ElementTraced(lib, s, k, depth, v, x.value, p, x.next, m, NoElement, NoItem, m);
      l := Element(s[k + 1..p], v, s[x.next..m], NoElement);
    }
  }

  lemma Forward(lib: Library, s: Text, i: nat, depth: nat, v: Syntax, tree: Json, next: nat)
    requires Traced(lib, s, i, depth, v, tree, next)
    ensures i <= next <= |s|
  {
  }

  lemma CommaTraced(lib: Library, s: Text, m: nat, depth: nat, l: List, items: Items, end: nat)
    requires m < |s| && s[m] == 44 && ListTraced(lib, s, m, depth, l, items, end)
    ensures m <= end < |s| && s[end] == 93 && From(s, m, ListEnd(l, s[end + 1..])) && ListReads(lib, l, s[end + 1..])
    ensures ItemsOf(l) == items && depth + ItemsNesting(items) <= 1000
  {
    hide ListReads, ListThen;
    Cons(s, m);
  }

  lemma ArrayParts(lib: Library, s: Text, i: nat, depth: nat)
    requires Scans(lib) && i < |s| && ParseArray(lib, s, i, depth).Ok?
    ensures depth < 1000
    ensures var j, r := SkipWhitespace(s, i + 1), ParseArray(lib, s, i, depth);
      && i + 1 <= j < |s|
      && if s[j] == CLOSE then r == Ok(Array(NoItem), j + 1)
         else
           var x := ParseItems(lib, s, j - 1, depth + 1);
           x.Ok? && Has(s, x.next, CLOSE) && r == Ok(Array(x.value), x.next + 1)
  {
    hide ParseItems;
  }

  lemma {:induction false} ArraySound(lib: Library, s: Text, i: nat, depth: nat) returns (v: Syntax)
    requires Scans(lib) && i < |s| && s[i] == OPEN && ParseArray(lib, s, i, depth).Ok?
    ensures var r := ParseArray(lib, s, i, depth); Traced(lib, s, i, depth, v, r.value, r.next)
    decreases |s| - i, 2
  {
    hide ParseArray, ParseItems, SkipWhitespace, ListTraced;
    ArrayParts(lib, s, i, depth);
    var j := SkipWhitespace(s, i + 1);
    Skipped(s, i + 1);
    if s[j] == CLOSE {
      v := Bracketed(s[i + 1..j], NoElement);
      EmptyTraced(lib, s, i, depth, j);
    } else {
      var l := ListSound(lib, s, j - 1, depth + 1);
      var x := ParseItems(lib, s, j - 1, depth + 1);
      FullTraced(lib, s, i, depth, j, l, x.value, x.next);
      v := Bracketed([], l.(before := s[i + 1..j] + l.before));
    }
  }

  lemma EmptyTraced(lib: Library, s: Text, i: nat, depth: nat, j: nat)
    requires depth < 1000 && i + 1 <= j < |s| && s[i] == 91 && s[j] == 93 && Blank(s[i + 1..j])
    ensures Traced(lib, s, i, depth, Bracketed(s[i + 1..j], NoElement), Array(NoItem), j + 1)
  {
    Cons(s, i);
    Split(s, i + 1, j);
    Cons(s, j);
  }

  lemma BlankBoth(a: Text, b: Text)
    requires Blank(a) && Blank(b)
    ensures Blank(a + b)
  {
  }

  lemma FullTraced(lib: Library, s: Text, i: nat, depth: nat, j: nat, l: List, items: Items, end: nat)
    requires depth < 1000 && i + 1 <= j < |s| && s[i] == 91 && Blank(s[i + 1..j]) && ListTraced(lib, s, j - 1, depth + 1, l, items, end)
    ensures l.Element?
    ensures Traced(lib, s, i, depth, Bracketed([], l.(before := s[i + 1..j] + l.before)), Array(items), end + 1)
  {
    hide ListReads, ListThen, Blank, Reads;
    var l', rest := l.(before := s[i + 1..j] + l.before), s[end + 1..];
    Cons(s, i);
    Split(s, i + 1, j);
    Assoc(s[i + 1..j], l.before, ListThen(l, rest));
    SameList(lib, l, s[i + 1..j], rest);
    Nothing([]);
    ArrayReads(lib, l', rest);
  }

  lemma SameList(lib: Library, l: List, blank: Text, rest: Text)
    requires l.Element? && ListReads(lib, l, rest) && Blank(blank)
    ensures var l' := l.(before := blank + l.before);
      ListThen(l', rest) == ListThen(l, rest) && ListReads(lib, l', rest) && ItemsOf(l') == ItemsOf(l)
  {
    hide Blank;
    BlankBoth(blank, l.before);
  }

  lemma ArrayReads(lib: Library, l: List, rest: Text)
    requires ListReads(lib, l, rest) && l.Element?
    ensures Reads(lib, Bracketed([], l), rest) && Then(Bracketed([], l), rest) == [91] + (l.before + ListThen(l, rest))
  {
  }

  // ---------- objects ----------

  /** What the loop of `parse_object` read from the character after `k` up to the brace at `end`. */
  ghost predicate FieldsTraced(lib: Library, s: Text, k: nat, depth: nat, f: Fields, ms: Members, end: nat) {
    && f.Field? && k + 1 <= end < |s| && s[end] == 125
    && From(s, k + 1, f.before + FieldsThen(f, s[end + 1..])) && FieldsRead(lib, f, s[end + 1..])
    && MembersOf(f) == ms && depth + MembersNesting(ms) <= 1000
  }

  /** One turn of the loop. */
  lemma MembersParts(lib: Library, s: Text, k: nat, depth: nat)
    requires Scans(lib) && ParseMembers(lib, s, k, depth).Ok? && Has(s, ParseMembers(lib, s, k, depth).next, END)
    ensures k + 1 < |s|
    ensures var p, r := SkipWhitespace(s, k + 1), ParseMembers(lib, s, k, depth); var t := ParseString(s, p);
      && t.Ok?
      && var c := SkipWhitespace(s, t.next);
         && k < c < |s| && s[c] == COLON
         && var q := SkipWhitespace(s, c + 1); var x := ParseValue(lib, s, q, depth);
            && x.Ok? && x.next <= |s|
            && var m := SkipWhitespace(s, x.next);
               && k < m < |s|
               && if s[m] == COMMA then
                    var y := ParseMembers(lib, s, m, depth); y.Ok? && y.next == r.next && r.value == Member(t.value, x.value, y.value)
                  else r.next == m && s[m] == END && r.value == Member(t.value, x.value, NoMember)
  {
    hide ParseValue, ParseString, SkipWhitespace;
  }

  /** A name, a colon and a value, with what is around them. */
  lemma FieldTraced(lib: Library, s: Text, k: nat, depth: nat, p: nat, q: Str, a: nat, c: nat, b: nat, v: Syntax, tree: Json,
                    n: nat, m: nat, next: Fields, ms: Members, end: nat)
    requires k + 1 <= p <= a <= c < b <= n <= m < |s| && s[c] == 58
    requires Blank(s[k + 1..p]) && Blank(s[a..c]) && Blank(s[c + 1..b]) && Blank(s[n..m])
    requires StringReads(q) && From(s, p, StringThen(q, s[a..])) && Traced(lib, s, b, depth, v, tree, n)
    requires m <= end < |s| && s[end] == 125 && From(s, m, FieldsEnd(next, s[end + 1..])) && FieldsRead(lib, next, s[end + 1..])
    requires MembersOf(next) == ms && depth + MembersNesting(ms) <= 1000
    ensures FieldsTraced(lib, s, k, depth, Field(s[k + 1..p], q, s[a..c], s[c + 1..b], v, s[n..m], next), Member(q.text, tree, ms), end)
  {
    hide Then, FieldsEnd, Reads, Blank, Nesting, StringThen, StringReads;
    Split(s, n, m);
    Split(s, c + 1, b);
    Cons(s, c);
    Split(s, a, c);
    Split(s, k + 1, p);
  }

  lemma {:induction false} FieldsSound(lib: Library, s: Text, k: nat, depth: nat) returns (f: Fields)
    requires Scans(lib) && depth <= 1000 && ParseMembers(lib, s, k, depth).Ok? && Has(s, ParseMembers(lib, s, k, depth).next, END)
    ensures var r := ParseMembers(lib, s, k, depth); FieldsTraced(lib, s, k, depth, f, r.value, r.next)
    decreases |s| - k, 1
  {
    hide ParseValue, ParseMembers, ParseString, SkipWhitespace, Traced, FieldsTraced, Then, StringReads, StringThen, Blank;
    hide FieldsEnd, FieldsRead, MembersOf, MembersNesting, From;
    var p, r := SkipWhitespace(s, k + 1), ParseMembers(lib, s, k, depth);
    MembersParts(lib, s, k, depth);
    var t := ParseString(s, p);
    var c := SkipWhitespace(s, t.next);
    var b := SkipWhitespace(s, c + 1);
    var x := ParseValue(lib, s, b, depth);
    var m := SkipWhitespace(s, x.next);
    Skipped(s, k + 1);
    var q := StringSound(s, p);
    Skipped(s, t.next);
    Skipped(s, c + 1);
    Skipped(s, x.next);
    var v := ValueSound(lib, s, b, depth);
    Forward(lib, s, b, depth, v, x.value, x.next);
    if s[m] == COMMA {
      var next := FieldsSound(lib, s, m, depth);
      var y := ParseMembers(lib, s, m, depth);
      CommaField(lib, s, m, depth, next, y.value, r.next);
      FieldTraced(lib, s, k, depth, p, q, t.next, c, b, v, x.value, x.next, m, next, y.value, r.next);
      f := Field(s[k + 1..p], q, s[t.next..c], s[c + 1..b], v, s[x.next..m], next);
    } else {
      BraceField(lib, s, m, depth);
      FieldTraced(lib, s, k, depth, p, q, t.next, c, b, v, x.value, x.next, m, NoField, NoMember, m);
      f := Field(s[k + 1..p], q, s[t.next..c], s[c + 1..b], v, s[x.next..m], NoField);
    }
  }

  lemma BraceField(lib: Library, s: Text, m: nat, depth: nat)
    requires m < |s| && s[m] == 125 && depth <= 1000
    ensures From(s, m, FieldsEnd(NoField, s[m + 1..])) && FieldsRead(lib, NoField, s[m + 1..])
    ensures MembersOf(NoField) == NoMember && depth + MembersNesting(NoMember) <= 1000
  {
    Cons(s, m);
  }

  lemma CommaField(lib: Library, s: Text, m: nat, depth: nat, f: Fields, ms: Members, end: nat)
    requires m < |s| && s[m] == 44 && FieldsTraced(lib, s, m, depth, f, ms, end)
    ensures m <= end < |s| && s[end] == 125 && From(s, m, FieldsEnd(f, s[end + 1..])) && FieldsRead(lib, f, s[end + 1..])
    ensures MembersOf(f) == ms && depth + MembersNesting(ms) <= 1000
  {
    hide FieldsRead, FieldsThen;
    Cons(s, m);
  }

  lemma ObjectParts(lib: Library, s: Text, i: nat, depth: nat)
    requires Scans(lib) && i < |s| && ParseObject(lib, s, i, depth).Ok?
    ensures depth < 1000
    ensures var j, r := SkipWhitespace(s, i + 1), ParseObject(lib, s, i, depth);
      && i + 1 <= j < |s|
      && if s[j] == END then r == Ok(Object(NoMember), j + 1)
         else
           var x := ParseMembers(lib, s, j - 1, depth + 1);
           x.Ok? && Has(s, x.next, END) && r == Ok(Object(x.value), x.next + 1)
  {
    hide ParseMembers;
  }

  lemma {:induction false} ObjectSound(lib: Library, s: Text, i: nat, depth: nat) returns (v: Syntax)
    requires Scans(lib) && i < |s| && s[i] == BEGIN && ParseObject(lib, s, i, depth).Ok?
    ensures var r := ParseObject(lib, s, i, depth); Traced(lib, s, i, depth, v, r.value, r.next)
    decreases |s| - i, 2
  {
    hide ParseObject, ParseMembers, SkipWhitespace, FieldsTraced;
    ObjectParts(lib, s, i, depth);
    var j := SkipWhitespace(s, i + 1);
    Skipped(s, i + 1);
    if s[j] == END {
      v := Braced(s[i + 1..j], NoField);
      EmptyObjectTraced(lib, s, i, depth, j);
    } else {
      var f := FieldsSound(lib, s, j - 1, depth + 1);
      var x := ParseMembers(lib, s, j - 1, depth + 1);
      FullObjectTraced(lib, s, i, depth, j, f, x.value, x.next);
      v := Braced([], f.(before := s[i + 1..j] + f.before));
    }
  }

  lemma EmptyObjectTraced(lib: Library, s: Text, i: nat, depth: nat, j: nat)
    requires depth < 1000 && i + 1 <= j < |s| && s[i] == 123 && s[j] == 125 && Blank(s[i + 1..j])
    ensures Traced(lib, s, i, depth, Braced(s[i + 1..j], NoField), Object(NoMember), j + 1)
  {
    Cons(s, i);
    Split(s, i + 1, j);
    Cons(s, j);
  }

  lemma FullObjectTraced(lib: Library, s: Text, i: nat, depth: nat, j: nat, f: Fields, ms: Members, end: nat)
    requires depth < 1000 && i + 1 <= j < |s| && s[i] == 123 && Blank(s[i + 1..j]) && FieldsTraced(lib, s, j - 1, depth + 1, f, ms, end)
    ensures f.Field?
    ensures Traced(lib, s, i, depth, Braced([], f.(before := s[i + 1..j] + f.before)), Object(ms), end + 1)
  {
    hide FieldsRead, FieldsThen, Blank, Reads;
    var f', rest := f.(before := s[i + 1..j] + f.before), s[end + 1..];
    Cons(s, i);
    Split(s, i + 1, j);
    Assoc(s[i + 1..j], f.before, FieldsThen(f, rest));
    SameFields(lib, f, s[i + 1..j], rest);
    Nothing([]);
    ObjectReads(lib, f', rest);
  }

  lemma SameFields(lib: Library, f: Fields, blank: Text, rest: Text)
    requires f.Field? && FieldsRead(lib, f, rest) && Blank(blank)
    ensures var f' := f.(before := blank + f.before);
      FieldsThen(f', rest) == FieldsThen(f, rest) && FieldsRead(lib, f', rest) && MembersOf(f') == MembersOf(f)
  {
    hide Blank, StringReads;
    BlankBoth(blank, f.before);
  }

  lemma ObjectReads(lib: Library, f: Fields, rest: Text)
    requires FieldsRead(lib, f, rest) && f.Field?
    ensures Reads(lib, Braced([], f), rest) && Then(Braced([], f), rest) == [123] + (f.before + FieldsThen(f, rest))
  {
  }

  // ---------- whole texts ----------

  /** The string `text` with its NUL is perhaps a byte order mark, white space, a value within the nesting limit, and `rest`. */
  ghost predicate Accepts(lib: Library, text: Text, mark: Text, lead: Text, v: Syntax, rest: Text) {
    && text + [0] == mark + (lead + Then(v, rest)) && (mark == [] || mark == [0xEF, 0xBB, 0xBF]) && Blank(lead)
    && |rest| > 0 && Reads(lib, v, rest) && Nesting(TreeOf(v)) <= 1000
  }

  lemma AcceptedIsParsed(lib: Library, text: Text, mark: Text, lead: Text, v: Syntax, rest: Text)
    requires Scans(lib) && Accepts(lib, text, mark, lead, v, rest)
    ensures |rest| <= |text| + 1 && Parse(lib, text) == Ok(TreeOf(v), |text| + 1 - |rest|)
  {
    hide SkipWhitespace, ParseValue, Then, Reads, Blank, Nesting;
    MarkFound(lib, mark, lead, v, rest);
    FromMark(mark, lead + Then(v, rest));
    WholeReads(lib, text + [0], |mark|, lead, v, rest);
  }

  /** No value ends with a NUL. */
  lemma LastByte(lib: Library, v: Syntax)
    requires Reads(lib, v, [])
    ensures var t := Then(v, []); |t| > 0 && t[|t| - 1] != 0
  {
    match v
    case Bracketed(blank, list) =>
      if list.Element? { ListEnds(list, []); }
    case Braced(blank, fields) =>
      if fields.Field? { FieldsEnds(fields, []); }
    case _ =>
  }

  lemma ParsedIsAccepted(lib: Library, text: Text) returns (mark: Text, lead: Text, v: Syntax, rest: Text)
    requires Scans(lib) && Parse(lib, text).Ok?
    ensures Parse(lib, text).next <= |text|
    ensures Accepts(lib, text, mark, lead, v, rest) && TreeOf(v) == Parse(lib, text).value && |rest| == |text| + 1 - Parse(lib, text).next
  {
    hide SkipWhitespace, ParseValue, Then, Reads, Blank, Nesting;
    var s := text + [0];
    var start := if 4 < |s| && s[..3] == BOM then 3 else 0;
    var i := SkipWhitespace(s, start);
    Skipped(s, start);
    mark, lead := s[..start], s[start..i];
    v := ValueSound(lib, s, i, 0);
    rest := s[Parse(lib, text).next..];
    Split(s, start, i);
    assert s == s[..start] + s[start..];
    if |rest| == 0 { LastByte(lib, v); }
  }

  /** `cJSON_Parse` reads exactly the texts of the grammar, as the tree they stand for, up to the end of the value. */
  lemma ParsesExactly(lib: Library, text: Text, tree: Json, next: nat)
    requires Scans(lib)
    ensures Parse(lib, text) == Ok(tree, next) <==>
      exists mark, lead, v, rest :: Accepts(lib, text, mark, lead, v, rest) && TreeOf(v) == tree && |rest| == |text| + 1 - next
  {
    hide Parse, Accepts, TreeOf;
    if Parse(lib, text) == Ok(tree, next) {
      var mark, lead, v, rest := ParsedIsAccepted(lib, text);
    }
    forall mark, lead, v, rest | Accepts(lib, text, mark, lead, v, rest) && TreeOf(v) == tree && |rest| == |text| + 1 - next
      ensures Parse(lib, text) == Ok(tree, next)
    {
      AcceptedIsParsed(lib, text, mark, lead, v, rest);
    }
  }
}
