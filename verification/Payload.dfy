/**
 The payload of a data burst (ida_decode.c): blocks of four interleaved codewords and a shorter last block.
 Sizes follow from the length n of a codeword: a block has 4n bits (124), that is 2n symbols of two bits.
 */
module Payload {
  import opened Gf2
  import opened Gf2Division
  import opened Bch
  import opened Words
  import opened Options
  import opened Chase
  import BchDistance

  // ---------- interleaving ----------

  /** `de_interleave_n`, first output: the symbols m-1, m-3, ... of `b`. */
  function Half1<T>(b: seq<T>, m: nat): (h: seq<T>)
    requires 2 * m <= |b|
    ensures |h| == 2 * (m / 2)
  {
    seq(2 * (m / 2), i requires 0 <= i < 2 * (m / 2) => b[2 * (m - 1 - 2 * (i / 2)) + i % 2])
  }

  /** Second output: the symbols m-2, m-4, ... */
  function Half2<T>(b: seq<T>, m: nat): (h: seq<T>)
    requires 2 * m <= |b|
    ensures |h| == 2 * (m / 2)
  {
    seq(2 * (m / 2), i requires 0 <= i < 2 * (m / 2) => b[2 * (m - 2 - 2 * (i / 2)) + i % 2])
  }

  /** The bits of two halves put where `de_interleave_n` takes them from. */
  function Interleave<T>(h1: seq<T>, h2: seq<T>): (b: seq<T>)
    requires |h1| == |h2| && |h1| % 2 == 0
    ensures |b| == 2 * |h1|
  {
    var m := |h1|;
    seq(2 * m, x requires 0 <= x < 2 * m =>
      if x / 2 % 2 == 1 then h1[m - 1 - x / 2 + x % 2] else h2[m - 2 - x / 2 + x % 2])
  }

  lemma DeInterleaveUndoes<T>(h1: seq<T>, h2: seq<T>)
    requires |h1| == |h2| && |h1| % 2 == 0
    ensures Half1(Interleave(h1, h2), |h1|) == h1
    ensures Half2(Interleave(h1, h2), |h1|) == h2
  {
    var m, b := |h1|, Interleave(h1, h2);
    forall i | 0 <= i < m
      ensures Half1(b, m)[i] == h1[i] && Half2(b, m)[i] == h2[i]
    {
      var x, y := 2 * (m - 1 - 2 * (i / 2)) + i % 2, 2 * (m - 2 - 2 * (i / 2)) + i % 2;
      assert x / 2 == m - 1 - 2 * (i / 2) && x % 2 == i % 2;
      assert y / 2 == m - 2 - 2 * (i / 2) && y % 2 == i % 2;
    }
  }

  /** Nothing is lost or used twice: every even number of symbols is the interleaving of its halves. */
  lemma InterleaveUndoes<T>(b: seq<T>, m: nat)
    requires |b| == 2 * m && m % 2 == 0
    ensures Interleave(Half1(b, m), Half2(b, m)) == b
  {
    hide Interleave, Half1, Half2;
    var c := Interleave(Half1(b, m), Half2(b, m));
    assert |c| == 2 * m;
    forall x | 0 <= x < 2 * m
      ensures c[x] == b[x]
    {
      SymbolBack(b, m, x / 2, x % 2);
      assert x == 2 * (x / 2) + x % 2;
    }
  }

  lemma SymbolBack<T>(b: seq<T>, m: nat, s: nat, r: nat)
    requires |b| == 2 * m && m % 2 == 0 && s < m && r < 2
    ensures Interleave(Half1(b, m), Half2(b, m))[2 * s + r] == b[2 * s + r]
  {
    hide Half1, Half2;
    SymbolPlace(s, r);
    if s % 2 == 1 { OddBack(b, m, s, r); } else { EvenBack(b, m, s, r); }
  }

  lemma SymbolPlace(s: nat, r: nat)
    requires r < 2
    ensures (2 * s + r) / 2 == s && (2 * s + r) % 2 == r
  {
  }

  lemma OddBack<T>(b: seq<T>, m: nat, s: nat, r: nat)
    requires |b| == 2 * m && m % 2 == 0 && s < m && r < 2 && s % 2 == 1
    ensures Half1(b, m)[m - 1 - s + r] == b[2 * s + r]
  {
    var i := m - 1 - s + r;
    assert i / 2 == (m - 1 - s) / 2 && i % 2 == r;
  }

  lemma EvenBack<T>(b: seq<T>, m: nat, s: nat, r: nat)
    requires |b| == 2 * m && m % 2 == 0 && s < m && r < 2 && s % 2 == 0
    ensures Half2(b, m)[m - 2 - s + r] == b[2 * s + r]
  {
    var i := m - 2 - s + r;
    assert i / 2 == (m - 2 - s) / 2 && i % 2 == r;
  }

  // ---------- descrambling ----------

  /** The decoded bits so far, how many codewords were repaired, and whether one could not be. */
  datatype Stream = Stream(bits: Bits, fixed: nat, failed: bool)

  const EMPTY := Stream([], 0, false)

  /** What a decoder is set up with. */
  datatype Setup = Setup(code: Code, table: seq<Entry>, useChase: nat, max: nat) {
    ghost predicate Valid() {
      code.Valid() && |table| == Pow2(code.syn) && useChase <= code.n
    }
  }

  /** The reliabilities of part of the bits. */
  function Part(llr: Option<seq<real>>, from: nat, to: nat): (l: Option<seq<real>>)
    requires from <= to && (llr.Some? ==> to <= |llr.value|)
    ensures l.Some? ==> |l.value| == to - from
  {
    match llr case None => None case Some(l) => Some(l[from..to])
  }

  /** One codeword: nothing more is taken after a failure or when the data would not fit. */
  ghost function Step(u: Setup, s: Stream, bits: Bits, llr: Option<seq<real>>): (s': Stream)
    requires u.Valid() && |bits| == u.code.n && (llr.Some? ==> |llr.value| == u.code.n)
  {
    if s.failed || |s.bits| + u.code.Data() > u.max then s
    else
      match Decode(u.code.poly, u.code.n, u.table, Value(bits, u.code.n), Candidates(llr, u.useChase))
      case Failed => s.(failed := true)
      case Found(_, fixed, word) => Stream(s.bits + DataOf(u.code, word), s.fixed + fixed, false)
  }

  /** The codeword at bit `from` of a de-interleaved block. */
  ghost function StepAt(u: Setup, s: Stream, bits: Bits, llr: Option<seq<real>>, from: nat): (s': Stream)
    requires u.Valid() && from + u.code.n <= |bits| && (llr.Some? ==> |llr.value| == |bits|)
  {
    Step(u, s, bits[from..from + u.code.n], Part(llr, from, from + u.code.n))
  }

  /** The two halves of a block one after the other. */
  function Combined<T>(b: seq<T>, m: nat): (c: seq<T>)
    requires 2 * m <= |b|
  {
    Half1(b, m) + Half2(b, m)
  }

  function CombinedLlr(llr: Option<seq<real>>, m: nat): (c: Option<seq<real>>)
    requires llr.Some? ==> 2 * m <= |llr.value|
  {
    match llr case None => None case Some(l) => Some(Combined(l, m))
  }

  /** A full block: its codewords in the order 3, 1, 2, 0. */
  ghost function BlockStep(u: Setup, s: Stream, block: Bits, llr: Option<seq<real>>): (s': Stream)
    requires u.Valid() && |block| == 4 * u.code.n && (llr.Some? ==> |llr.value| == 4 * u.code.n)
  {
    var n := u.code.n;
    var c, l := Combined(block, 2 * n), CombinedLlr(llr, 2 * n);
    StepAt(u, StepAt(u, StepAt(u, StepAt(u, s, c, l, 3 * n), c, l, n), c, l, 2 * n), c, l, 0)
  }

  /** The codewords one after the other from bit `from` on. */
  ghost function TailSteps(u: Setup, s: Stream, c: Bits, l: Option<seq<real>>, from: nat): (s': Stream)
    requires u.Valid() && (l.Some? ==> |l.value| == |c|)
    decreases |c| - from
  {
    if from + u.code.n > |c| then s else TailSteps(u, StepAt(u, s, c, l, from), c, l, from + u.code.n)
  }

  /** What the cells hold that de-interleaving an odd number of symbols leaves unset, in each half. */
  datatype Junk = Junk(bit1: nat, bit2: nat, llr1: real, llr2: real)

  /** The last block without the first bit of each half, the second half first. */
  function TailCombined<T>(b: seq<T>, m: nat, junk1: T, junk2: T): (c: seq<T>)
    requires 2 <= m && 2 * m <= |b|
    ensures |c| == 2 * (m - 1)
  {
    var h1 := if m % 2 == 0 then Half1(b, m) else Half1(b, m) + [junk1];
    var h2 := if m % 2 == 0 then Half2(b, m) else Half2(b, m) + [junk2];
    h2[1..] + h1[1..]
  }

  /** Where bit `i` of each half comes from. */
  lemma HalfCells<T>(b: seq<T>, m: nat, i: nat)
    requires 2 * m <= |b| && i < 2 * (m / 2)
    ensures 0 <= 2 * (m - 2 - 2 * (i / 2)) + i % 2 && 2 * (m - 1 - 2 * (i / 2)) + i % 2 < |b|
    ensures Half1(b, m)[i] == b[2 * (m - 1 - 2 * (i / 2)) + i % 2]
    ensures Half2(b, m)[i] == b[2 * (m - 2 - 2 * (i / 2)) + i % 2]
  {
  }

  /** The same in the last block; with an odd number of symbols the last cell of each half is not set. */
  lemma TailCells<T>(b: seq<T>, m: nat, junk1: T, junk2: T, i: nat)
    requires 2 <= m && 2 * m <= |b| && 0 < i < m
    ensures var c := TailCombined(b, m, junk1, junk2);
      if i < 2 * (m / 2)
      then c[i - 1] == Half2(b, m)[i] && c[m - 1 + i - 1] == Half1(b, m)[i]
      else c[i - 1] == junk2 && c[m - 1 + i - 1] == junk1
  {
    hide Half1, Half2;
    assert m % 2 == 0 ==> 2 * (m / 2) == m;
    assert m % 2 == 1 ==> 2 * (m / 2) == m - 1;
  }

  function TailLlr(llr: Option<seq<real>>, m: nat, junk: Junk): (c: Option<seq<real>>)
    requires 2 <= m && (llr.Some? ==> 2 * m <= |llr.value|)
    ensures c.Some? ==> |c.value| == 2 * (m - 1)
  {
    match llr case None => None case Some(l) => Some(TailCombined(l, m, junk.llr1, junk.llr2))
  }

  ghost function TailStep(u: Setup, s: Stream, b: Bits, llr: Option<seq<real>>, junk: Junk): (s': Stream)
    requires u.Valid() && (llr.Some? ==> |llr.value| == |b|)
  {
    var m := |b| / 2;
    if s.failed || |b| < 4 || |s.bits| + 2 * (m - 1) > u.max then s
    else
      TailSteps(u, s, TailCombined(b, m, junk.bit1, junk.bit2), TailLlr(llr, m, junk), 0)
  }

  /** `descramble_payload` from the state `s` on. */
  ghost function Descramble(u: Setup, s: Stream, data: Bits, llr: Option<seq<real>>, junk: Junk): (s': Stream)
    requires u.Valid() && (llr.Some? ==> |llr.value| == |data|)
    decreases |data|
  {
    var size := 4 * u.code.n;
    if |data| < size then TailStep(u, s, data, llr, junk)
    else
      Descramble(u, BlockStep(u, s, data[..size], Part(llr, 0, size)), data[size..], Part(llr, size, |data|), junk)
  }
}
