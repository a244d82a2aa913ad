/** The printer of cJSON.c as it runs: a buffer that grows, with the current depth. */
module JsonPrinter {
  import opened Json

  lemma {:induction false} PlainText(s: Text, from: nat)
    requires from <= |s| && forall k :: from <= k < |s| ==> Escaped(s[k]) == [s[k]]
    ensures EscapedText(s, from) == s[from..]
    decreases |s| - from
  {
    if from < |s| { PlainText(s, from + 1); }
  }

  /** How many characters escaping adds for one. */
  function Extra(c: nat): (n: nat)
    ensures n + 1 == |Escaped(c)| && (n == 0 ==> Escaped(c) == [c])
  {
    if ShortEscape(c) != 0 then 1 else if c < 32 then 5 else 0
  }

  /** How many characters escaping adds for the first `k`. */
  function Escapes(s: Text, k: nat): (n: nat)
    requires k <= |s|
  {
    if k == 0 then 0 else Escapes(s, k - 1) + Extra(s[k - 1])
  }

  /** The length counted first is that of the text written. */
  lemma {:induction false} CountedLength(s: Text, i: nat)
    requires i <= |s|
    ensures |EscapedText(s, i)| + Escapes(s, i) == |s| - i + Escapes(s, |s|)
    decreases |s| - i
  {
    if i < |s| { CountedLength(s, i + 1); }
  }

  lemma {:induction false} NoEscapes(s: Text, k: nat)
    requires k <= |s| && Escapes(s, k) == 0
    ensures forall i :: 0 <= i < k ==> Escaped(s[i]) == [s[i]]
  {
    if k > 0 { NoEscapes(s, k - 1); }
  }

  lemma EscapeWritten(was: Text, piece: Text, now: Text, s: Text, i: nat)
    requires i < |s| && now == was + piece && piece == Escaped(s[i])
    ensures now + EscapedText(s, i + 1) == was + EscapedText(s, i)
  {
    EscapedGrows(s, i);
  }

  /** A printed prefix and what is left to print. */
  lemma EscapedGrows(s: Text, i: nat)
    requires i < |s|
    ensures EscapedText(s, i) == Escaped(s[i]) + EscapedText(s, i + 1)
  {
  }

  lemma Pieces3(t: Text, a: Text, b: Text, c: Text)
    ensures t + a + b + c == t + (a + b + c)
  {
  }

  lemma Pieces5(t: Text, a: Text, b: Text, c: Text, d: Text, e: Text)
    ensures t + a + b + c + d + e == t + (a + b + c + d + e)
  {
  }

  lemma Pieces8(t: Text, a: Text, b: Text, c: Text, d: Text, e: Text, f: Text, g: Text, h: Text)
    ensures t + a + b + c + d + e + f + g + h == t + (a + b + c + d + e + f + g + h)
  {
  }

  lemma ItemPieces(t: Text, v: Text, comma: Text, space: Text, rest: Text)
    ensures t + v + comma + space + rest == t + (v + (comma + space + rest))
  {
  }

  lemma NoPiece(t: Text)
    ensures t + [] == t
  {
  }

  class PrintBuffer {
    const lib: Library
    const format: bool
    var text: Text
    var depth: nat

    constructor (lib: Library, format: bool)
      ensures this.lib == lib && this.format == format && text == [] && depth == 0
    {
      this.lib, this.format, text, depth := lib, format, [], 0;
    }

    method Append(t: Text)
      modifies `text
      ensures text == old(text) + t
    {
      text := text + t;
    }

    method AppendIfFormatted(t: Text)
      modifies `text
      ensures text == old(text) + Wherever(format, t)
    {
      if format {
        text := text + t;
      }
    }

    /**
     `print_string_ptr`: escapes are counted first, which gives the room for the string and the place of its closing
     quote, and a string without any is copied whole.
     */
    method PrintString(s: Text)
      modifies `text
      ensures text == old(text) + StringText(s)
    {
      var escapeCharacters := 0;
      for i := 0 to |s|
        invariant escapeCharacters == Escapes(s, i)
      {
        escapeCharacters := escapeCharacters + Extra(s[i]);
      }
      CountedLength(s, 0);
      var outputLength := |s| + escapeCharacters;
      var output := new nat[outputLength + 3](_ => 0);
      if escapeCharacters == 0 {
        NoEscapes(s, |s|);
        PlainText(s, 0);
        assert s[0..] == s;
        output[0] := QUOTE;
        forall k | 0 <= k < |s| { output[1 + k] := s[k]; }
        assert output[1..outputLength + 1] == s;
      } else {
        output[0] := QUOTE;
        PrintEscaped(s, output);
      }
      hide EscapedText, Escapes;
      Finish(output, outputLength, EscapedText(s, 0));
      text := text + output[..outputLength + 2];
    }

    /** The closing quote and the NUL. */
    method Finish(output: array<nat>, length: nat, ghost t: Text)
      requires output.Length == length + 3 && output[0] == QUOTE && output[1..length + 1] == t
      modifies output
      ensures output[..length + 2] == [QUOTE] + t + [QUOTE]
    {
      output[length + 1] := QUOTE;
      output[length + 2] := 0;
      assert output[..length + 2] == [output[0]] + output[1..length + 1] + [output[length + 1]];
    }

    /** Its copying loop, from the cell after the opening quote on. */
    method PrintEscaped(s: Text, output: array<nat>)
      requires output.Length == |EscapedText(s, 0)| + 3
      modifies output
      ensures output[0] == old(output[0]) && output[1..output.Length - 2] == EscapedText(s, 0)
    {
      var pointer := 1;
      var i := 0;
      while i < |s|
        invariant i <= |s| && 1 <= pointer && pointer + |EscapedText(s, i)| == output.Length - 2
        invariant output[0] == old(output[0]) && output[1..pointer] + EscapedText(s, i) == EscapedText(s, 0)
      {
        EscapedGrows(s, i);
        ghost var was := output[1..pointer];
        ghost var at := pointer;
        pointer := WriteEscape(s[i], output, pointer);
        EscapeWritten(was, output[at..pointer], output[1..pointer], s, i);
        i := i + 1;
      }
    }

    /** One character of it; what is formatted also ends with a NUL, which the next character overwrites. */
    method WriteEscape(c: nat, output: array<nat>, pointer: nat) returns (next: nat)
      requires 1 <= pointer && pointer + |Escaped(c)| < output.Length
      modifies output
      ensures next == pointer + |Escaped(c)|
      ensures output[0] == old(output[0])
      ensures output[1..next] == old(output[1..pointer]) + output[pointer..next] && output[pointer..next] == Escaped(c)
    {
      if c > 31 && c != QUOTE && c != BACKSLASH {
        output[pointer] := c;
        next := pointer + 1;
      } else if ShortEscape(c) != 0 {
        output[pointer], output[pointer + 1] := BACKSLASH, ShortEscape(c);
        next := pointer + 2;
      } else {
        output[pointer], output[pointer + 1] := BACKSLASH, 117;
        output[pointer + 2], output[pointer + 3] := ZERO, ZERO;
        output[pointer + 4], output[pointer + 5] := HexDigit(c / 16), HexDigit(c % 16);
        output[pointer + 6] := 0;
        next := pointer + 6;
      }
    }

    /** `print_value`: it fails exactly when the nesting is too deep. */
    method PrintValue(v: Json) returns (ok: bool)
      modifies `text, `depth
      ensures ok == (old(depth) + Nesting(v) <= CJSON_NESTING_LIMIT || Nesting(v) == 0)
      ensures ok ==> text == old(text) + ValueText(lib, v, old(depth), format) && depth == old(depth)
      decreases v, 1
    {
      match v {
        case Null => Append(NULL); ok := true;
        case False => Append(FALSE); ok := true;
        case True => Append(TRUE); ok := true;
        case Number(x) => Append(NumberText(lib, x)); ok := true;
        case String(s) => PrintString(s); ok := true;
        case Array(items) => ok := PrintArray(items);
        case Object(ms) => ok := PrintObject(ms);
      }
    }

    /** `print_array` */
    method PrintArray(items: Items) returns (ok: bool)
      modifies `text, `depth
      ensures ok == (old(depth) + 1 + ItemsNesting(items) <= CJSON_NESTING_LIMIT)
      ensures ok ==> text == old(text) + ([OPEN] + ItemsText(lib, items, old(depth) + 1, format) + [CLOSE]) && depth == old(depth)
      decreases items, 2
    {
      if depth >= CJSON_NESTING_LIMIT {
        return false;
      }
      hide ItemsText, ItemsNesting;
      ghost var was, t := text, ItemsText(lib, items, depth + 1, format);
      Append([OPEN]);
      depth := depth + 1;
      ok := PrintItems(items);
      if ok {
        Append([CLOSE]);
        depth := depth - 1;
        Pieces3(was, [OPEN], t, [CLOSE]);
      }
    }

    /** Its loop over the elements. */
    method PrintItems(items: Items) returns (ok: bool)
      requires depth <= CJSON_NESTING_LIMIT
      modifies `text, `depth
      ensures ok == (old(depth) + ItemsNesting(items) <= CJSON_NESTING_LIMIT)
      ensures ok ==> text == old(text) + ItemsText(lib, items, old(depth), format) && depth == old(depth)
      decreases items, 1
    {
      var cur := items;
      while cur != NoItem
        invariant depth == old(depth) && text + ItemsText(lib, cur, depth, format) == old(text) + ItemsText(lib, items, depth, format)
        invariant depth + ItemsNesting(items) <= CJSON_NESTING_LIMIT <==> depth + ItemsNesting(cur) <= CJSON_NESTING_LIMIT
        invariant cur == items || cur < items
        decreases cur
      {
        ok := PrintItem(cur);
        if !ok {
          return false;
        }
        cur := cur.next;
      }
      NoPiece(text);
      return true;
    }

    /** One element, and the comma if another follows. */
    method PrintItem(cur: Items) returns (ok: bool)
      requires cur != NoItem && depth <= CJSON_NESTING_LIMIT
      modifies `text, `depth
      ensures ok == (old(depth) + Nesting(cur.value) <= CJSON_NESTING_LIMIT)
      ensures ok ==> depth == old(depth)
      ensures ok ==> text + ItemsText(lib, cur.next, depth, format) == old(text) + ItemsText(lib, cur, depth, format)
      decreases cur, 0
    {
      ghost var t, v, rest := text, ValueText(lib, cur.value, depth, format), ItemsText(lib, cur.next, depth, format);
      ok := PrintValue(cur.value);
      if ok {
        if cur.next != NoItem {
          Append([COMMA]);
          AppendIfFormatted([SPACE]);
          hide ValueText, Wherever;
          ItemPieces(t, v, [COMMA], Wherever(format, [SPACE]), rest);
        } else {
          NoPiece(v);
        }
      }
    }

    /** `print_object` */
    method PrintObject(ms: Members) returns (ok: bool)
      modifies `text, `depth
      ensures ok == (old(depth) + 1 + MembersNesting(ms) <= CJSON_NESTING_LIMIT)
      ensures ok ==> text == old(text) + ValueText(lib, Object(ms), old(depth), format) && depth == old(depth)
      decreases ms, 2
    {
      hide MembersText, Wherever, Tabs, MembersNesting;
      if depth >= CJSON_NESTING_LIMIT {
        return false;
      }
      ghost var t := text;
      Append([BEGIN]);
      depth := depth + 1;
      AppendIfFormatted([NEWLINE]);
      ok := PrintMembers(ms);
      if ok {
        AppendIfFormatted(Tabs(depth - 1));
        Append([END]);
        depth := depth - 1;
        Pieces5(t, [BEGIN], Wherever(format, [NEWLINE]), MembersText(lib, ms, depth + 1, format), Wherever(format, Tabs(depth)), [END]);
      }
    }

    /** Its loop over the members. */
    method PrintMembers(ms: Members) returns (ok: bool)
      requires depth <= CJSON_NESTING_LIMIT
      modifies `text, `depth
      ensures ok == (old(depth) + MembersNesting(ms) <= CJSON_NESTING_LIMIT)
      ensures ok ==> text == old(text) + MembersText(lib, ms, old(depth), format) && depth == old(depth)
      decreases ms, 1
    {
      var cur := ms;
      while cur != NoMember
        invariant depth == old(depth) && text + MembersText(lib, cur, depth, format) == old(text) + MembersText(lib, ms, depth, format)
        invariant depth + MembersNesting(ms) <= CJSON_NESTING_LIMIT <==> depth + MembersNesting(cur) <= CJSON_NESTING_LIMIT
        invariant cur == ms || cur < ms
        decreases cur
      {
        ok := PrintMember(cur);
        if !ok {
          return false;
        }
        cur := cur.next;
      }
      NoPiece(text);
      return true;
    }

    /** One member, and the comma if another follows. */
    method PrintMember(cur: Members) returns (ok: bool)
      requires cur != NoMember && depth <= CJSON_NESTING_LIMIT
      modifies `text, `depth
      ensures ok == (old(depth) + Nesting(cur.value) <= CJSON_NESTING_LIMIT)
      ensures ok ==> depth == old(depth)
      ensures ok ==> text + MembersText(lib, cur.next, depth, format) == old(text) + MembersText(lib, cur, depth, format)
      decreases cur, 0
    {
      ghost var t, d := text, depth;
      hide ValueText, StringText, Wherever, Tabs;
      AppendIfFormatted(Tabs(depth));
      PrintString(cur.name);
      Append([COLON]);
      AppendIfFormatted([TAB]);
      ok := PrintValue(cur.value);
      if ok {
        NoPiece(text);
        if cur.next != NoMember {
          Append([COMMA]);
        }
        AppendIfFormatted([NEWLINE]);
        Pieces8(t, Wherever(format, Tabs(d)), StringText(cur.name), [COLON], Wherever(format, [TAB]),
                ValueText(lib, cur.value, d, format), if cur.next == NoMember then [] else [COMMA],
                Wherever(format, [NEWLINE]), MembersText(lib, cur.next, d, format));
      }
    }
  }
}
