/** `descramble_payload` of ida_decode.c as it runs, on buffers. */
module PayloadDecoder {
  import opened Gf2
  import opened Bch
  import opened Words
  import opened Options
  import opened Chase
  import opened Payload

  /** `de_interleave_n` and, for reliabilities, `de_interleave_llr_n`. */
  method DeInterleaveN<T>(input: seq<T>, nSym: nat, out1: array<T>, out2: array<T>)
    requires 2 * nSym <= |input| && 2 * (nSym / 2) <= out1.Length && 2 * (nSym / 2) <= out2.Length && out1 != out2
    modifies out1, out2
    ensures out1[..2 * (nSym / 2)] == Half1(input, nSym)
    ensures out2[..2 * (nSym / 2)] == Half2(input, nSym)
  {
    DeInterleaveFrom(input, nSym, nSym - 1, 1, out1);
    assert out1[..2 * (nSym / 2)] == Half1(input, nSym);
    DeInterleaveFrom(input, nSym, nSym - 2, 0, out2);
    assert out2[..2 * (nSym / 2)] == Half2(input, nSym);
  }

  /** One of its loops: every second symbol from `first` down to `last`. */
  method DeInterleaveFrom<T>(input: seq<T>, nSym: nat, first: int, last: int, out: array<T>)
    requires 2 * nSym <= |input| && 2 * (nSym / 2) <= out.Length && nSym - 2 <= first < nSym && first - last == nSym - 2
    modifies out
    ensures forall i :: 0 <= i < 2 * (nSym / 2) ==> out[i] == input[2 * (first - 2 * (i / 2)) + i % 2]
    ensures forall i :: 2 * (nSym / 2) <= i < out.Length ==> out[i] == old(out[i])
  {
    var p := 0;
    var s := first;
    while s >= last
      invariant 0 <= p <= 2 * (nSym / 2) && p % 2 == 0 && s == first - p
      invariant forall i :: 0 <= i < p ==> out[i] == input[2 * (first - 2 * (i / 2)) + i % 2]
      invariant forall i :: 2 * (nSym / 2) <= i < out.Length ==> out[i] == old(out[i])
    {
      out[p] := input[2 * s];
      out[p + 1] := input[2 * s + 1];
      p := p + 2;
      s := s - 2;
    }
  }

  /** The contents of a buffer of reliabilities, if there is one. */
  ghost function Held(l: array?<real>): (llr: Option<seq<real>>)
    reads l
  {
    if l == null then None else Some(l[..])
  }

  /** One codeword of a de-interleaved block. */
  method TakeCodeword(code: Code, combined: array<nat>, lcombined: array?<real>, from: nat, useChase: nat,
                      table: array<Entry>, maxBch: nat, bchStream: array<nat>, len: nat, fixedErrs: nat, failed: bool)
      returns (len': nat, fixedErrs': nat, failed': bool)
    requires Setup(code, table[..], useChase, maxBch).Valid() && useChase <= IDA_CHASE_FLIP_MAX
    requires from + code.n <= combined.Length && (lcombined != null ==> lcombined.Length == combined.Length)
    requires len <= maxBch <= bchStream.Length && bchStream != combined
    modifies bchStream
    ensures len' <= maxBch
    ensures Stream(bchStream[..len'], fixedErrs', failed') ==
      old(StepAt(Setup(code, table[..], useChase, maxBch), Stream(bchStream[..len], fixedErrs, failed),
                 combined[..], Held(lcombined), from))
  {
    hide Decode, Value, Candidates;
    len', fixedErrs', failed' := len, fixedErrs, failed;
    if failed || len + code.Data() > maxBch {
      return;
    }
    var outData := new nat[code.Data()];
    assert combined[from..][..code.n] == combined[..][from..from + code.n];
    ValuePrefix(combined[from..], combined[..][from..from + code.n], code.n);
    var errs, fixed := ChaseBchDa(code, combined, lcombined, from, useChase, table, outData);
    if errs < 0 {
      failed' := true;
      return;
    }
    fixedErrs' := fixedErrs + fixed;
    len' := Append(bchStream, len, outData);
  }

  /** `memcpy(bch_stream + bch_len, ...)` */
  method Append(bchStream: array<nat>, len: nat, outData: array<nat>) returns (len': nat)
    requires len + outData.Length <= bchStream.Length && bchStream != outData
    modifies bchStream
    ensures len' == len + outData.Length && bchStream[..len'] == old(bchStream[..len]) + outData[..]
  {
    forall i | 0 <= i < outData.Length {
      bchStream[len + i] := outData[i];
    }
    len' := len + outData.Length;
  }

  /** Both halves of a block in one buffer. */
  method Combine<T(0)>(block: seq<T>, nSym: nat) returns (combined: array<T>)
    requires nSym % 2 == 0 && |block| == 2 * nSym
    ensures fresh(combined) && combined[..] == Combined(block, nSym)
  {
    var half1 := new T[nSym];
    var half2 := new T[nSym];
    DeInterleaveN(block, nSym, half1, half2);
    combined := new T[2 * nSym];
    forall i | 0 <= i < nSym { combined[i] := half1[i]; }
    forall i | 0 <= i < nSym { combined[nSym + i] := half2[i]; }
    assert combined[..] == half1[..] + half2[..];
    assert half1[..2 * (nSym / 2)] == half1[..] && half2[..2 * (nSym / 2)] == half2[..];
  }

  method CombineLlr(llr: Option<seq<real>>, nSym: nat) returns (lcombined: array?<real>)
    requires nSym % 2 == 0 && (llr.Some? ==> |llr.value| == 2 * nSym)
    ensures lcombined != null ==> fresh(lcombined)
    ensures Held(lcombined) == CombinedLlr(llr, nSym)
  {
    match llr {
      case None => lcombined := null;
      case Some(l) => lcombined := Combine(l, nSym);
    }
  }

  /** `order[c] * 31` */
  function Offset(c: nat, n: nat): (from: nat)
    ensures from <= 3 * n
  {
    if c == 0 then 3 * n else if c == 1 then n else if c == 2 then 2 * n else 0
  }

  /** The first `k` codewords of a block. */
  ghost function Steps(u: Setup, s: Stream, c: Bits, l: Option<seq<real>>, k: nat): (s': Stream)
    requires u.Valid() && |c| == 4 * u.code.n && (l.Some? ==> |l.value| == |c|)
  {
    if k == 0 then s else StepAt(u, Steps(u, s, c, l, k - 1), c, l, Offset(k - 1, u.code.n))
  }

  lemma FourSteps(u: Setup, s: Stream, c: Bits, l: Option<seq<real>>)
    requires u.Valid() && |c| == 4 * u.code.n && (l.Some? ==> |l.value| == |c|)
    ensures var n := u.code.n;
      Steps(u, s, c, l, 4) == StepAt(u, StepAt(u, StepAt(u, StepAt(u, s, c, l, 3 * n), c, l, n), c, l, 2 * n), c, l, 0)
  {
    hide StepAt;
    var n := u.code.n;
    assert Steps(u, s, c, l, 1) == StepAt(u, s, c, l, 3 * n);
    assert Steps(u, s, c, l, 2) == StepAt(u, Steps(u, s, c, l, 1), c, l, n);
    assert Steps(u, s, c, l, 3) == StepAt(u, Steps(u, s, c, l, 2), c, l, 2 * n);
  }

  /** A full block. */
  method TakeBlock(code: Code, block: seq<nat>, llr: Option<seq<real>>, useChase: nat, table: array<Entry>,
                   maxBch: nat, bchStream: array<nat>, len: nat, fixedErrs: nat, failed: bool)
      returns (len': nat, fixedErrs': nat, failed': bool)
    requires Setup(code, table[..], useChase, maxBch).Valid() && useChase <= IDA_CHASE_FLIP_MAX
    requires |block| == 4 * code.n && (llr.Some? ==> |llr.value| == 4 * code.n)
    requires len <= maxBch <= bchStream.Length
    modifies bchStream
    ensures len' <= maxBch
    ensures Stream(bchStream[..len'], fixedErrs', failed') ==
      old(BlockStep(Setup(code, table[..], useChase, maxBch), Stream(bchStream[..len], fixedErrs, failed), block, llr))
  {
    ghost var u := Setup(code, table[..], useChase, maxBch);
    ghost var s := Stream(bchStream[..len], fixedErrs, failed);
    var combined := Combine(block, 2 * code.n);
    var lcombined := CombineLlr(llr, 2 * code.n);
    ghost var c, l := combined[..], Held(lcombined);
    len', fixedErrs', failed' := len, fixedErrs, failed;
    for k := 0 to 4
      invariant len' <= maxBch && combined[..] == c && Held(lcombined) == l && table[..] == u.table
      invariant Stream(bchStream[..len'], fixedErrs', failed') == Steps(u, s, c, l, k)
    {
      len', fixedErrs', failed' :=
        TakeCodeword(code, combined, lcombined, Offset(k, code.n), useChase, table, maxBch, bchStream, len', fixedErrs', failed');
    }
    FourSteps(u, s, c, l);
  }

  /** The halves without their first cells, the second half first. */
  method DropFirst<T(0)>(h1: array<T>, h2: array<T>, m: nat) returns (combined: array<T>)
    requires 2 <= m <= h1.Length && m <= h2.Length
    ensures fresh(combined) && combined[..] == h2[..m][1..] + h1[..m][1..]
  {
    combined := new T[2 * (m - 1)];
    var clen := 0;
    for i := 1 to m
      invariant clen == i - 1
      invariant forall k :: 0 <= k < clen ==> combined[k] == h2[k + 1]
    {
      combined[clen] := h2[i];
      clen := clen + 1;
    }
    for i := 1 to m
      invariant clen == m - 1 + i - 1
      invariant forall k :: 0 <= k < m - 1 ==> combined[k] == h2[k + 1]
      invariant forall k :: m - 1 <= k < clen ==> combined[k] == h1[k - (m - 1) + 1]
    {
      combined[clen] := h1[i];
      clen := clen + 1;
    }
  }

  /** The last block de-interleaved: an odd number of symbols leaves the last cell of each half as it was. */
  method CombineTail<T(0)>(b: seq<T>, m: nat) returns (combined: array<T>, ghost junk1: T, ghost junk2: T)
    requires 2 <= m <= 64 && 2 * m <= |b|
    ensures fresh(combined) && combined[..] == TailCombined(b, m, junk1, junk2)
  {
    hide Half1, Half2;
    var h1 := new T[64];
    var h2 := new T[64];
    DeInterleaveN(b, m, h1, h2);
    junk1, junk2 := h1[m - 1], h2[m - 1];
    assert h1[..m] == if m % 2 == 0 then Half1(b, m) else Half1(b, m) + [junk1];
    assert h2[..m] == if m % 2 == 0 then Half2(b, m) else Half2(b, m) + [junk2];
    combined := DropFirst(h1, h2, m);
  }

  /** The loop over the codewords of the last block. */
  method TakeTail(code: Code, combined: array<nat>, lcombined: array?<real>, useChase: nat, table: array<Entry>,
                  maxBch: nat, bchStream: array<nat>, len: nat, fixedErrs: nat)
      returns (len': nat, fixedErrs': nat)
    requires Setup(code, table[..], useChase, maxBch).Valid() && useChase <= IDA_CHASE_FLIP_MAX
    requires lcombined != null ==> lcombined.Length == combined.Length
    requires len <= maxBch <= bchStream.Length && bchStream != combined
    modifies bchStream
    ensures len' <= maxBch
    ensures var s := old(TailSteps(Setup(code, table[..], useChase, maxBch), Stream(bchStream[..len], fixedErrs, false),
                                   combined[..], Held(lcombined), 0));
      bchStream[..len'] == s.bits && fixedErrs' == s.fixed
  {
    hide TailSteps, StepAt;
    ghost var u := Setup(code, table[..], useChase, maxBch);
    ghost var c, l := combined[..], Held(lcombined);
    ghost var end := TailSteps(u, Stream(bchStream[..len], fixedErrs, false), c, l, 0);
    var failed := false;
    var pos := 0;
    len', fixedErrs' := len, fixedErrs;
    while pos + code.n <= combined.Length
      invariant len' <= maxBch && combined[..] == c && Held(lcombined) == l && table[..] == u.table
      invariant TailSteps(u, Stream(bchStream[..len'], fixedErrs', failed), c, l, pos) == end
      decreases combined.Length - pos
    {
      TailStepsMore(u, Stream(bchStream[..len'], fixedErrs', failed), c, l, pos);
      len', fixedErrs', failed :=
        TakeCodeword(code, combined, lcombined, pos, useChase, table, maxBch, bchStream, len', fixedErrs', failed);
      pos := pos + code.n;
    }
    TailStepsDone(u, Stream(bchStream[..len'], fixedErrs', failed), c, l, pos);
  }

  lemma TailStepsMore(u: Setup, s: Stream, c: Bits, l: Option<seq<real>>, pos: nat)
    requires u.Valid() && (l.Some? ==> |l.value| == |c|) && pos + u.code.n <= |c|
    ensures TailSteps(u, s, c, l, pos) == TailSteps(u, StepAt(u, s, c, l, pos), c, l, pos + u.code.n)
  {
  }

  lemma TailStepsDone(u: Setup, s: Stream, c: Bits, l: Option<seq<real>>, pos: nat)
    requires u.Valid() && (l.Some? ==> |l.value| == |c|) && pos + u.code.n > |c|
    ensures TailSteps(u, s, c, l, pos) == s
  {
  }

  /** Decoding the bits from `at` on with the state `s` is decoding everything. */
  ghost predicate Ongoing(u: Setup, s: Stream, data: seq<nat>, llr: Option<seq<real>>, at: nat)
    requires u.Valid() && (llr.Some? ==> |llr.value| == |data|) && at <= |data|
  {
    forall junk ::
      Descramble(u, s, data[at..], Part(llr, at, |data|), junk) == Descramble(u, EMPTY, data, llr, junk)
  }

  lemma OngoingStart(u: Setup, data: seq<nat>, llr: Option<seq<real>>)
    requires u.Valid() && (llr.Some? ==> |llr.value| == |data|)
    ensures Ongoing(u, EMPTY, data, llr, 0)
  {
    hide Descramble;
    assert data[0..] == data;
    assert Part(llr, 0, |data|) == llr by {
      if llr.Some? { assert llr.value[0..|data|] == llr.value; }
    }
  }

  lemma OngoingStep(u: Setup, s: Stream, data: seq<nat>, llr: Option<seq<real>>, at: nat)
    requires u.Valid() && (llr.Some? ==> |llr.value| == |data|) && at + 4 * u.code.n <= |data|
    requires Ongoing(u, s, data, llr, at)
    ensures var to := at + 4 * u.code.n; Ongoing(u, BlockStep(u, s, data[at..to], Part(llr, at, to)), data, llr, to)
  {
    hide BlockStep, TailStep;
    var size := 4 * u.code.n;
    var to := at + size;
    var rest, lrest := data[at..], Part(llr, at, |data|);
    assert rest[..size] == data[at..to] && rest[size..] == data[to..];
    assert Part(lrest, 0, size) == Part(llr, at, to) && Part(lrest, size, |rest|) == Part(llr, to, |data|) by {
      if llr.Some? {
        assert llr.value[at..|data|][0..size] == llr.value[at..to];
        assert llr.value[at..|data|][size..|rest|] == llr.value[to..|data|];
      }
    }
    forall junk
      ensures Descramble(u, BlockStep(u, s, data[at..to], Part(llr, at, to)), data[to..], Part(llr, to, |data|), junk) ==
        Descramble(u, EMPTY, data, llr, junk)
    {
      assert Descramble(u, s, rest, lrest, junk) ==
        Descramble(u, BlockStep(u, s, rest[..size], Part(lrest, 0, size)), rest[size..], Part(lrest, size, |rest|), junk);
    }
  }

  /** The last partial block. */
  method TakeRest(code: Code, rest: seq<nat>, llr: Option<seq<real>>, useChase: nat, table: array<Entry>,
                  maxBch: nat, bchStream: array<nat>, len: nat, fixedErrs: nat, failed: bool)
      returns (len': nat, fixedErrs': nat, ghost junk: Junk)
    requires Setup(code, table[..], useChase, maxBch).Valid() && useChase <= IDA_CHASE_FLIP_MAX
    requires |rest| < 4 * code.n && (llr.Some? ==> |llr.value| == |rest|) && len <= maxBch <= bchStream.Length
    modifies bchStream
    ensures len' <= maxBch
    ensures var s := old(TailStep(Setup(code, table[..], useChase, maxBch), Stream(bchStream[..len], fixedErrs, failed),
                                  rest, llr, junk));
      bchStream[..len'] == s.bits && fixedErrs' == s.fixed
  {
    hide TailSteps, TailCombined;
    len', fixedErrs', junk := len, fixedErrs, Junk(0, 0, 0.0, 0.0);
    var m := |rest| / 2;
    if !failed && |rest| >= 4 && len + 2 * (m - 1) <= maxBch {
      var combined, junk1, junk2 := CombineTail(rest, m);
      var lcombined: array?<real> := null;
      junk := Junk(junk1, junk2, 0.0, 0.0);
      if llr.Some? {
        var lc, l1, l2 := CombineTail(llr.value, m);
        lcombined := lc;
        junk := Junk(junk1, junk2, l1, l2);
      }
      len', fixedErrs' := TakeTail(code, combined, lcombined, useChase, table, maxBch, bchStream, len, fixedErrs);
    }
  }

  /** `descramble_payload` */
  method DescramblePayload(code: Code, data: seq<nat>, llr: Option<seq<real>>, useChase: nat, table: array<Entry>,
                           maxBch: nat, bchStream: array<nat>)
      returns (bchLen: nat, fixedErrs: nat, ghost junk: Junk)
    requires Setup(code, table[..], useChase, maxBch).Valid() && useChase <= IDA_CHASE_FLIP_MAX
    requires (llr.Some? ==> |llr.value| == |data|) && maxBch <= bchStream.Length
    modifies bchStream
    ensures bchLen <= maxBch
    ensures var s := old(Descramble(Setup(code, table[..], useChase, maxBch), EMPTY, data, llr, junk));
      bchStream[..bchLen] == s.bits && fixedErrs == s.fixed
  {
    hide BlockStep, TailStep;
    ghost var u := Setup(code, table[..], useChase, maxBch);
    var failed, at, size := false, 0, 4 * code.n;
    bchLen, fixedErrs := 0, 0;
    assert Stream(bchStream[..0], 0, false) == EMPTY;
    OngoingStart(u, data, llr);
    while at + size <= |data|
      invariant at <= |data| && bchLen <= maxBch && table[..] == u.table
      invariant Ongoing(u, Stream(bchStream[..bchLen], fixedErrs, failed), data, llr, at)
      decreases |data| - at
    {
      OngoingStep(u, Stream(bchStream[..bchLen], fixedErrs, failed), data, llr, at);
      bchLen, fixedErrs, failed := TakeBlock(code, data[at..at + size], Part(llr, at, at + size), useChase, table,
                                             maxBch, bchStream, bchLen, fixedErrs, failed);
      at := at + size;
    }
    ghost var s := Stream(bchStream[..bchLen], fixedErrs, failed);
    bchLen, fixedErrs, junk := TakeRest(code, data[at..], Part(llr, at, |data|), useChase, table,
                                        maxBch, bchStream, bchLen, fixedErrs, failed);
    assert Descramble(u, s, data[at..], Part(llr, at, |data|), junk) == Descramble(u, EMPTY, data, llr, junk);
  }
}
