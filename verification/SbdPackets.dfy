/** The packets of short burst data as bytes: what each form spells, what it says, and that no other packet is read. */
module SbdPackets {
  import opened Options
  import opened SbdReassembly

  /** The end of a packet: data alone, or data with its length and its number before it and perhaps more behind it. */
  datatype Content = Plain(body: Bytes) | Numbered(no: nat, body: Bytes, rest: Bytes)

  /** A packet. What the letters stand for is not looked at. */
  datatype Form =
    | Page(before: Bytes, count: nat, after: Bytes, body: Bytes)
    | First(a: nat, b: nat, count: nat, c: nat, content: Content)
    | FirstLong(kind: nat, a: nat, b: nat, count: nat, c: nat, d: nat, e: nat, content: Content)
    | Later(kind: nat, content: Content)
    | Uplink(kind: nat, content: Content)
    | UplinkHeaded(kind: nat, mark: nat, a: nat, b: nat, content: Content)

  function ContentBytes(x: Content): (d: Bytes) {
    match x
    case Plain(body) => body
    case Numbered(no, body, rest) => [0x10, |body|, no] + body + rest
  }

  function FormBytes(f: Form): (d: Bytes) {
    match f
    case Page(a, count, b, body) => [0x06, 0x00, 0x20] + a + [count] + b + body
    case First(a, b, count, c, x) => [0x76, 0x08, 0x20, a, b, count, c] + ContentBytes(x)
    case FirstLong(kind, a, b, count, c, d, e, x) => [0x76, 0x08, kind, a, b, count, c, d, e] + ContentBytes(x)
    case Later(kind, x) => [0x76, kind] + ContentBytes(x)
    case Uplink(kind, x) => [0x76, kind] + ContentBytes(x)
    case UplinkHeaded(kind, mark, a, b, x) => [0x76, kind, mark, a, b] + ContentBytes(x)
  }

  /** Data that looks numbered is numbered, unless nothing follows the number. */
  predicate ContentOk(x: Content) {
    match x
    case Plain(body) => |body| <= 3 || body[0] != 0x10
    case Numbered(_, body, rest) => |body| + |rest| > 0
  }

  predicate Marked(d: Bytes) { |d| >= 3 && d[0] in {0x50, 0x51} }

  predicate FormOk(f: Form, ul: bool) {
    match f
    case Page(a, _, b, body) => |a| == 14 && |b| == 13 && |body| > 0
    case First(_, _, _, _, x) => !ul && ContentOk(x)
    case FirstLong(kind, _, _, _, _, _, _, x) => !ul && kind != 0x20 && ContentOk(x)
    case Later(kind, x) => !ul && kind in {0x09, 0x0a, 0x0b} && ContentOk(x) && |ContentBytes(x)| >= 3
    case Uplink(kind, x) => ul && kind in {0x0c, 0x0d, 0x0e} && ContentOk(x) && |ContentBytes(x)| >= 3 && !Marked(ContentBytes(x))
    case UplinkHeaded(kind, mark, _, _, x) => ul && kind in {0x0c, 0x0d, 0x0e} && mark in {0x50, 0x51} && ContentOk(x)
  }

  function ContentSays(x: Content, count: int): (f: Fragment) {
    match x
    case Plain(body) => Fragment(0, count, body)
    case Numbered(no, body, _) => Fragment(no, count, body)
  }

  /** The number, the count and the data. */
  function FormSays(f: Form): (r: Fragment) {
    match f
    case Page(_, count, _, body) => Fragment(if count == 0 then 0 else 1, count, body)
    case First(_, _, count, _, x) => ContentSays(x, count)
    case FirstLong(_, _, _, count, _, _, _, x) => ContentSays(x, count)
    case Later(_, x) => ContentSays(x, -1)
    case Uplink(_, x) => ContentSays(x, -1)
    case UplinkHeaded(_, _, _, _, x) => ContentSays(x, -1)
  }

  // ---------- every form is read ----------

  lemma ContentReads(x: Content, ul: bool, count: int)
    requires ContentOk(x) && !(ul && Marked(ContentBytes(x)))
    ensures Body(ContentBytes(x), ul, count) == Some(ContentSays(x, count))
  {
    var d := ContentBytes(x);
    if x.Numbered? {
      assert d[3..3 + |x.body|] == x.body;
    }
  }

  /** After the mark of an uplink packet. */
  lemma HeadedReads(mark: nat, a: nat, b: nat, x: Content, count: int)
    requires ContentOk(x) && mark in {0x50, 0x51}
    ensures Body([mark, a, b] + ContentBytes(x), true, count) == Some(ContentSays(x, count))
  {
    var d, e := [mark, a, b] + ContentBytes(x), ContentBytes(x);
    assert d[3..] == e;
    ContentReads(x, false, count);
  }

  lemma PageReads(a: Bytes, count: nat, b: Bytes, body: Bytes, ul: bool)
    requires |a| == 14 && |b| == 13 && |body| > 0
    ensures Header(FormBytes(Page(a, count, b, body)), ul) == Some(Fragment(if count == 0 then 0 else 1, count, body))
  {
    var d := FormBytes(Page(a, count, b, body));
    var e := d[2..];
    assert e == [0x20] + a + [count] + b + body;
    assert e[15] == count && e[29..] == body;
  }

  lemma FirstReads(f: Form, ul: bool)
    requires (f.First? || f.FirstLong?) && FormOk(f, ul)
    ensures Header(FormBytes(f), ul) == Some(FormSays(f))
  {
    hide Body;
    var d := FormBytes(f);
    var e := d[2..];
    if f.First? {
      assert e[5..] == ContentBytes(f.content);
    } else {
      assert e[7..] == ContentBytes(f.content);
    }
    ContentReads(f.content, ul, f.count);
  }

  lemma LaterReads(f: Form, ul: bool)
    requires (f.Later? || f.Uplink? || f.UplinkHeaded?) && FormOk(f, ul)
    ensures Header(FormBytes(f), ul) == Some(FormSays(f))
  {
    hide Body;
    var d := FormBytes(f);
    if f.UplinkHeaded? {
      assert d[2..] == [f.mark, f.a, f.b] + ContentBytes(f.content);
      HeadedReads(f.mark, f.a, f.b, f.content, -1);
    } else {
      assert d[2..] == ContentBytes(f.content);
      ContentReads(f.content, ul, -1);
    }
  }

  /** Reading a packet gives what its form says. */
  lemma PacketReads(f: Form, ul: bool)
    requires FormOk(f, ul)
    ensures Header(FormBytes(f), ul) == Some(FormSays(f))
  {
    hide Header, FormBytes;
    match f
    case Page(a, count, b, body) => PageReads(a, count, b, body, ul);
    case First(_, _, _, _, _) => FirstReads(f, ul);
    case FirstLong(_, _, _, _, _, _, _, _) => FirstReads(f, ul);
    case _ => LaterReads(f, ul);
  }

  // ---------- nothing else is ----------

  lemma ContentOf(d: Bytes, ul: bool, count: int) returns (x: Content)
    requires Body(d, ul, count).Some? && !(ul && Marked(d))
    ensures ContentOk(x) && ContentBytes(x) == d
  {
    if |d| > 3 && d[0] == 0x10 {
      x := Numbered(d[2], d[3..3 + d[1]], d[3 + d[1]..]);
      assert ContentBytes(x) == d;
    } else {
      x := Plain(d);
    }
  }

  lemma PageOf(d: Bytes, ul: bool) returns (f: Form)
    requires |d| >= 5 && d[0] == 0x06 && Header(d, ul).Some?
    ensures FormOk(f, ul) && FormBytes(f) == d
  {
    f := Page(d[3..17], d[17], d[18..31], d[31..]);
    assert FormBytes(f) == d;
  }

  lemma FirstOf(d: Bytes, ul: bool) returns (f: Form)
    requires |d| >= 5 && d[0] == 0x76 && d[1] == 0x08 && Header(d, ul).Some?
    ensures FormOk(f, ul) && FormBytes(f) == d
  {
    hide Body;
    var e := d[2..];
    if e[0] == 0x20 {
      var x := ContentOf(e[5..], ul, e[3]);
      f := First(d[3], d[4], d[5], d[6], x);
      assert e[5..] == d[7..];
    } else {
      var x := ContentOf(e[7..], ul, e[3]);
      f := FirstLong(d[2], d[3], d[4], d[5], d[6], d[7], d[8], x);
      assert e[7..] == d[9..];
    }
    assert FormBytes(f) == d;
  }

  lemma LaterOf(d: Bytes, ul: bool) returns (f: Form)
    requires |d| >= 5 && d[0] == 0x76 && d[1] != 0x08 && Header(d, ul).Some?
    ensures FormOk(f, ul) && FormBytes(f) == d
  {
    var e := d[2..];
    if ul && Marked(e) {
      assert Body(e[3..], false, -1).Some?;
      var x := ContentOf(e[3..], false, -1);
      f := UplinkHeaded(d[1], d[2], d[3], d[4], x);
      assert e[3..] == d[5..];
    } else {
      var x := ContentOf(e, ul, -1);
      f := if ul then Uplink(d[1], x) else Later(d[1], x);
    }
    assert FormBytes(f) == d;
  }

  lemma FormOf(d: Bytes, ul: bool) returns (f: Form)
    requires Header(d, ul).Some?
    ensures FormOk(f, ul) && FormBytes(f) == d
  {
    if d[0] == 0x06 {
      f := PageOf(d, ul);
    } else if d[1] == 0x08 {
      f := FirstOf(d, ul);
    } else {
      f := LaterOf(d, ul);
    }
  }

  /** A packet is read exactly when it is the bytes of a form, and a form is all there is to it. */
  lemma ReadsExactlyForms(d: Bytes, ul: bool)
    ensures Header(d, ul).Some? <==> exists f :: FormOk(f, ul) && FormBytes(f) == d
    ensures forall f :: FormOk(f, ul) && FormBytes(f) == d ==> Header(d, ul) == Some(FormSays(f))
  {
    hide Header, FormBytes, FormOk, FormSays;
    forall f | FormOk(f, ul) && FormBytes(f) == d
      ensures Header(d, ul) == Some(FormSays(f))
    {
      PacketReads(f, ul);
    }
    if Header(d, ul).Some? {
      var f := FormOf(d, ul);
    }
  }
}
