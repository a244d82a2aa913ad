/** The parser of cJSON.c as it runs: a buffer with a moving offset and the current depth. */
module JsonReader {
  import opened Json
  import opened JsonParse

  /** What a parser reports: success with the value, the offset after it and the depth it began with. */
  ghost predicate Reports<T>(r: Parsed<T>, ok: bool, value: T, offset: nat, depth: nat, depth0: nat) {
    match r
    case Fail => !ok
    case Ok(v, next) => ok && value == v && offset == next && depth == depth0
  }

  /** The elements read so far in front of the rest. */
  function Listed(vs: seq<Json>, rest: Items): (items: Items)
    decreases |vs|
  {
    if |vs| == 0 then rest else Listed(vs[..|vs| - 1], Item(vs[|vs| - 1], rest))
  }

  function ListedAll(vs: seq<Json>, r: Parsed<Items>): (r': Parsed<Items>) {
    match r case Fail => Fail case Ok(items, end) => Ok(Listed(vs, items), end)
  }

  lemma ListedMore(vs: seq<Json>, v: Json, rest: Items)
    ensures Listed(vs + [v], rest) == Listed(vs, Item(v, rest))
  {
    assert (vs + [v])[..|vs|] == vs;
  }

  datatype Named = Named(name: Text, value: Json)

  function ListedNames(vs: seq<Named>, rest: Members): (ms: Members)
    decreases |vs|
  {
    if |vs| == 0 then rest else ListedNames(vs[..|vs| - 1], Member(vs[|vs| - 1].name, vs[|vs| - 1].value, rest))
  }

  function ListedAllNames(vs: seq<Named>, r: Parsed<Members>): (r': Parsed<Members>) {
    match r case Fail => Fail case Ok(ms, end) => Ok(ListedNames(vs, ms), end)
  }

  lemma NoNames(r: Parsed<Members>)
    ensures ListedAllNames([], r) == r
  {
  }

  lemma ListedMoreNames(vs: seq<Named>, v: Named, rest: Members)
    ensures ListedNames(vs + [v], rest) == ListedNames(vs, Member(v.name, v.value, rest))
  {
    assert (vs + [v])[..|vs|] == vs;
  }

  class ParseBuffer {
    const lib: Library
    const content: Text
    var offset: nat
    var depth: nat

    constructor (lib: Library, content: Text)
      ensures this.lib == lib && this.content == content && offset == 0 && depth == 0
    {
      this.lib, this.content, offset, depth := lib, content, 0, 0;
    }

    /** `buffer_skip_whitespace` */
    method Skip()
      modifies `offset
      ensures offset == SkipWhitespace(content, old(offset))
    {
      if offset >= |content| {
        return;
      }
      while offset < |content| && content[offset] <= 32
        invariant offset <= |content| && SkipBlank(content, offset) == SkipBlank(content, old(offset))
      {
        offset := offset + 1;
      }
      if offset == |content| {
        offset := offset - 1;
      }
    }

    /** `parse_number` */
    method ReadNumber() returns (ok: bool, item: Json)
      requires offset <= |content|
      modifies `offset
      ensures Reports(ParseNumber(lib, content, old(offset)), ok, item, offset, depth, old(depth))
    {
      item := Null;
      var i := offset;
      while i < |content| && IsNumeric(content[i])
        invariant offset <= i <= |content| && NumericEnd(content, i) == NumericEnd(content, offset)
      {
        i := i + 1;
      }
      var scan := lib.strtod(content[offset..i]);
      if scan.used == 0 {
        return false, item;
      }
      offset := offset + scan.used;
      return true, Number(scan.value);
    }

    /** The first loop of `parse_string`. */
    method FindEnd() returns (end: nat)
      ensures end == StringEnd(content, offset + 1)
    {
      end := offset + 1;
      while end < |content| && content[end] != QUOTE
        invariant StringEnd(content, end) == StringEnd(content, offset + 1)
        decreases |content| - end
      {
        end := if content[end] == BACKSLASH then end + 2 else end + 1;
      }
    }

    /** The second loop of `parse_string`: the text up to the quote at `end`. */
    method Decode(end: nat) returns (ok: bool, out: Text)
      requires end < |content|
      ensures var r := Unescaped(content, offset + 1, end); ok == r.Ok? && (ok ==> out == r.value)
    {
      var i := offset + 1;
      out := [];
      ghost var all := Unescaped(content, i, end);
      assert Prepend([], all) == all by { if all.Ok? { assert [] + all.value == all.value; } }
      while i < end
        invariant Prepend(out, Unescaped(content, i, end)) == all
        decreases end - i
      {
        var piece := [content[i]];
        var next := i + 1;
        if content[i] == BACKSLASH {
          if content[i + 1] == 117 {
            var r := ParseUtf16(content, i, end);
            if r.Fail? {
              return false, [];
            }
            piece, next := r.value, r.next;
          } else if Unescape(content[i + 1]) != 0 {
            piece, next := [Unescape(content[i + 1])], i + 2;
          } else {
            return false, [];
          }
        }
        PrependTwice(out, piece, Unescaped(content, next, end));
        out := out + piece;
        i := next;
      }
      assert out + [] == out;
      return true, out;
    }

    /** `parse_string` */
    method ReadString() returns (ok: bool, text: Text)
      modifies `offset
      ensures Reports(ParseString(content, old(offset)), ok, text, offset, depth, old(depth))
    {
      text := [];
      if offset >= |content| || content[offset] != QUOTE {
        return false, text;
      }
      var end := FindEnd();
      if end >= |content| {
        return false, text;
      }
      ok, text := Decode(end);
      if ok {
        text := CString(text);
        offset := end + 1;
      }
    }

    predicate Looking(c: nat)
      reads `offset
    {
      offset < |content| && content[offset] == c
    }

    /** `parse_value` */
    method ReadValue() returns (ok: bool, item: Json)
      requires Scans(lib)
      modifies `offset, `depth
      ensures Reports(ParseValue(lib, content, old(offset), old(depth)), ok, item, offset, depth, old(depth))
      decreases |content| - offset, 2
    {
      item := Null;
      if At(content, offset, NULL) {
        offset := offset + 4;
        return true, Null;
      }
      if At(content, offset, FALSE) {
        offset := offset + 5;
        return true, False;
      }
      if At(content, offset, TRUE) {
        offset := offset + 4;
        return true, True;
      }
      if offset >= |content| {
        return false, item;
      }
      var c := content[offset];
      if c == QUOTE {
        var text;
        ok, text := ReadString();
        item := String(text);
      } else if c == MINUS || IsDigit(c) {
        ok, item := ReadNumber();
      } else if c == OPEN {
        ok, item := ReadArray();
      } else if c == BEGIN {
        ok, item := ReadObject();
      } else {
        ok := false;
      }
    }

    /** `parse_array` */
    method ReadArray() returns (ok: bool, item: Json)
      requires Scans(lib) && offset < |content|
      modifies `offset, `depth
      ensures Reports(ParseArray(lib, content, old(offset), old(depth)), ok, item, offset, depth, old(depth))
      decreases |content| - offset, 1
    {
      hide ParseItems, ParseMembers, Scans, SkipWhitespace;
      item := Null;
      if depth >= CJSON_NESTING_LIMIT {
        return false, item;
      }
      depth := depth + 1;
      offset := offset + 1;
      Skip();
      if Looking(CLOSE) {
        depth, offset := depth - 1, offset + 1;
        return true, Array(NoItem);
      }
      if offset >= |content| {
        return false, item;
      }
      offset := offset - 1;
      var items;
      ok, items := ReadItems();
      if !ok || !Looking(CLOSE) {
        return false, item;
      }
      depth, offset := depth - 1, offset + 1;
      return true, Array(items);
    }

    /** Its loop over the elements. */
    method ReadItems() returns (ok: bool, items: Items)
      requires Scans(lib) && offset + 1 <= |content|
      modifies `offset, `depth
      ensures Reports(ParseItems(lib, content, old(offset), old(depth)), ok, items, offset, depth, old(depth))
      decreases |content| - offset, 0
    {
      hide ParseValue, Scans, SkipWhitespace;
      ghost var k0 := offset;
      items := NoItem;
      var vs: seq<Json> := [];
      var more := true;
      assert ListedAll([], ParseItems(lib, content, k0, depth)) == ParseItems(lib, content, k0, depth);
      while more
        invariant depth == old(depth) && k0 <= offset && (more ==> offset + 1 <= |content|)
        invariant ParseItems(lib, content, k0, depth) ==
          if more then ListedAll(vs, ParseItems(lib, content, offset, depth)) else Ok(Listed(vs, NoItem), offset)
        decreases more, |content| - offset
      {
        ghost var k := offset;
        offset := offset + 1;
        Skip();
        var v;
        ok, v := ReadValue();
        if !ok {
          return false, items;
        }
        Skip();
        more := Looking(COMMA);
        forall rest
          ensures Listed(vs + [v], rest) == Listed(vs, Item(v, rest))
        {
          ListedMore(vs, v, rest);
        }
        vs := vs + [v];
      }
      return true, Listed(vs, NoItem);
    }

    /** `parse_object` */
    method ReadObject() returns (ok: bool, item: Json)
      requires Scans(lib) && offset < |content|
      modifies `offset, `depth
      ensures Reports(ParseObject(lib, content, old(offset), old(depth)), ok, item, offset, depth, old(depth))
      decreases |content| - offset, 1
    {
      hide ParseItems, ParseMembers, Scans, SkipWhitespace;
      item := Null;
      if depth >= CJSON_NESTING_LIMIT {
        return false, item;
      }
      depth := depth + 1;
      offset := offset + 1;
      Skip();
      if Looking(END) {
        depth, offset := depth - 1, offset + 1;
        return true, Object(NoMember);
      }
      if offset >= |content| {
        return false, item;
      }
      offset := offset - 1;
      var members;
      ok, members := ReadMembers();
      if !ok || !Looking(END) {
        return false, item;
      }
      depth, offset := depth - 1, offset + 1;
      return true, Object(members);
    }

    /** Its loop over the members. */
    method ReadMembers() returns (ok: bool, members: Members)
      requires Scans(lib)
      modifies `offset, `depth
      ensures Reports(ParseMembers(lib, content, old(offset), old(depth)), ok, members, offset, depth, old(depth))
      decreases |content| - offset, 0
    {
      hide ParseValue, ParseString, Scans, SkipWhitespace, ListedNames;
      ghost var k0 := offset;
      members := NoMember;
      var vs: seq<Named> := [];
      var more := true;
      NoNames(ParseMembers(lib, content, k0, depth));
      while more
        invariant depth == old(depth) && k0 <= offset
        invariant ParseMembers(lib, content, k0, depth) ==
          if more then ListedAllNames(vs, ParseMembers(lib, content, offset, depth)) else Ok(ListedNames(vs, NoMember), offset)
        decreases more, |content| - offset
      {
        if offset + 1 >= |content| {
          return false, members;
        }
        offset := offset + 1;
        Skip();
        var name, v;
        ok, name := ReadString();
        if !ok {
          return false, members;
        }
        Skip();
        if !Looking(COLON) {
          return false, members;
        }
        offset := offset + 1;
        Skip();
        ok, v := ReadValue();
        if !ok {
          return false, members;
        }
        Skip();
        more := Looking(COMMA);
        forall rest
          ensures ListedNames(vs + [Named(name, v)], rest) == ListedNames(vs, Member(name, v, rest))
        {
          ListedMoreNames(vs, Named(name, v), rest);
        }
        vs := vs + [Named(name, v)];
      }
      return true, ListedNames(vs, NoMember);
    }
  }

  lemma PrependTwice(a: Text, b: Text, r: Parsed<Text>)
    ensures Prepend(a, Prepend(b, r)) == Prepend(a + b, r)
  {
    if r.Ok? { assert a + (b + r.value) == (a + b) + r.value; }
  }
}
