/**
 What descrambling gives for any bits at all: the data of the codewords of the payload in their order, up to the first
 that cannot be decoded or for which there is no room.
 */
module PayloadPrefix {
  import opened Gf2
  import opened Words
  import opened Options
  import opened Chase
  import opened Payload

  /** A received word and its reliabilities. */
  datatype Item = Item(bits: Bits, llr: Option<seq<real>>) {
    predicate Fits(n: nat) { |bits| == n && (llr.Some? ==> |llr.value| == n) }
  }

  predicate AllFit(xs: seq<Item>, n: nat) { forall i :: 0 <= i < |xs| ==> xs[i].Fits(n) }

  ghost function Decoding(u: Setup, x: Item): (r: Decoded)
    requires u.Valid() && x.Fits(u.code.n)
  {
    Decode(u.code.poly, u.code.n, u.table, Value(x.bits, u.code.n), Candidates(x.llr, u.useChase))
  }

  /** Chunk `k` of the two halves of a block, or of the bits of a last block. */
  function Chunk(c: Bits, l: Option<seq<real>>, k: nat, n: nat): (x: Item)
    requires (k + 1) * n <= |c| && (l.Some? ==> |l.value| == |c|)
    ensures x.Fits(n)
  {
    Item(c[k * n..(k + 1) * n], Part(l, k * n, (k + 1) * n))
  }

  lemma FourChunks(n: nat)
    ensures 1 * n <= 4 * n && 2 * n <= 4 * n && 3 * n <= 4 * n
  {
  }

  /** The codewords of a block in the order 3, 1, 2, 0. */
  function BlockItems(n: nat, block: Bits, llr: Option<seq<real>>): (xs: seq<Item>)
    requires |block| == 4 * n && (llr.Some? ==> |llr.value| == 4 * n)
    ensures |xs| == 4 && AllFit(xs, n)
  {
    FourChunks(n);
    var c, l := Combined(block, 2 * n), CombinedLlr(llr, 2 * n);
    [Chunk(c, l, 3, n), Chunk(c, l, 1, n), Chunk(c, l, 2, n), Chunk(c, l, 0, n)]
  }

  /** The codewords of all full blocks. */
  function FullItems(n: nat, data: Bits, llr: Option<seq<real>>): (xs: seq<Item>)
    requires n > 0 && (llr.Some? ==> |llr.value| == |data|)
    ensures AllFit(xs, n)
    decreases |data|
  {
    if |data| < 4 * n then []
    else BlockItems(n, data[..4 * n], Part(llr, 0, 4 * n)) + FullItems(n, data[4 * n..], Part(llr, 4 * n, |data|))
  }

  /** What is left after them. */
  function Rest<T>(n: nat, data: seq<T>): (r: seq<T>)
    requires n > 0
    ensures |r| < 4 * n && |r| <= |data|
    decreases |data|
  {
    if |data| < 4 * n then data else Rest(n, data[4 * n..])
  }

  function RestLlr(n: nat, llr: Option<seq<real>>): (r: Option<seq<real>>)
    requires n > 0
  {
    match llr case None => None case Some(l) => Some(Rest(n, l))
  }

  /** The codewords that lie one after the other from `from` on. */
  function RunItems(n: nat, c: Bits, l: Option<seq<real>>, from: nat): (xs: seq<Item>)
    requires n > 0 && (l.Some? ==> |l.value| == |c|)
    ensures AllFit(xs, n)
    decreases |c| - from
  {
    if from + n > |c| then []
    else [Item(c[from..from + n], Part(l, from, from + n))] + RunItems(n, c, l, from + n)
  }

  // ---------- the law ----------

  /** The data of the first `k` words. */
  ghost function AllData(u: Setup, xs: seq<Item>, k: nat): (bits: Bits)
    requires u.Valid() && AllFit(xs, u.code.n) && k <= |xs| && forall j :: 0 <= j < k ==> Decoding(u, xs[j]).Found?
    ensures |bits| == k * u.code.Data()
  {
    if k == 0 then [] else AllData(u, xs, k - 1) + DataOf(u.code, Decoding(u, xs[k - 1]).word)
  }

  /** How many of them were repaired. */
  ghost function AllFixed(u: Setup, xs: seq<Item>, k: nat): (f: nat)
    requires u.Valid() && AllFit(xs, u.code.n) && k <= |xs| && forall j :: 0 <= j < k ==> Decoding(u, xs[j]).Found?
  {
    if k == 0 then 0 else AllFixed(u, xs, k - 1) + Decoding(u, xs[k - 1]).fixed
  }

  /** From `s` on the first `k` words are taken, and no more because there are none, the next is not decoded, or there is no room. */
  ghost predicate TakesPrefix(u: Setup, s: Stream, xs: seq<Item>, k: nat, r: Stream)
    requires u.Valid() && AllFit(xs, u.code.n)
  {
    && k <= |xs| && (forall j :: 0 <= j < k ==> Decoding(u, xs[j]).Found?)
    && r.bits == s.bits + AllData(u, xs, k) && r.fixed == s.fixed + AllFixed(u, xs, k) && (k > 0 ==> |r.bits| <= u.max)
    && if r.failed then k < |xs| && |r.bits| + u.code.Data() <= u.max && Decoding(u, xs[k]).Failed?
       else k < |xs| ==> |r.bits| + u.code.Data() > u.max
  }

  ghost function Fold(u: Setup, s: Stream, xs: seq<Item>): (r: Stream)
    requires u.Valid() && AllFit(xs, u.code.n)
  {
    if |xs| == 0 then s
    else
      var x := xs[|xs| - 1];
      Step(u, Fold(u, s, xs[..|xs| - 1]), x.bits, x.llr)
  }

  lemma {:induction false} AllDataOf(u: Setup, xs: seq<Item>, ys: seq<Item>, k: nat)
    requires u.Valid() && AllFit(xs, u.code.n) && AllFit(ys, u.code.n) && k <= |xs| && k <= |ys| && xs[..k] == ys[..k]
    requires forall j :: 0 <= j < k ==> Decoding(u, xs[j]).Found?
    ensures forall j :: 0 <= j < k ==> Decoding(u, ys[j]).Found?
    ensures AllData(u, xs, k) == AllData(u, ys, k) && AllFixed(u, xs, k) == AllFixed(u, ys, k)
  {
    hide Decoding;
    assert forall j :: 0 <= j < k ==> xs[j] == xs[..k][j] == ys[..k][j] == ys[j];
    if k > 0 {
      assert xs[..k - 1] == xs[..k][..k - 1] == ys[..k - 1];
      AllDataOf(u, xs, ys, k - 1);
    }
  }

  lemma FoldMore(u: Setup, s: Stream, xs: seq<Item>, k: nat, r: Stream) returns (k': nat)
    requires u.Valid() && AllFit(xs, u.code.n) && |xs| > 0 && TakesPrefix(u, s, xs[..|xs| - 1], k, r)
    ensures TakesPrefix(u, s, xs, k', Step(u, r, xs[|xs| - 1].bits, xs[|xs| - 1].llr))
  {
    hide Decode, Value, Candidates, DataOf, AllData, AllFixed;
    var front, x := xs[..|xs| - 1], xs[|xs| - 1];
    assert forall j :: 0 <= j < |front| ==> front[j] == xs[j];
    AllDataOf(u, front, xs, k);
    k' := k;
    if k == |front| && !r.failed && |r.bits| + u.code.Data() <= u.max && Decoding(u, x).Found? {
      k' := k + 1;
      OneMore(u, s, xs, k);
    }
  }

  lemma OneMore(u: Setup, s: Stream, xs: seq<Item>, k: nat)
    requires u.Valid() && AllFit(xs, u.code.n) && k < |xs| && forall j :: 0 <= j <= k ==> Decoding(u, xs[j]).Found?
    ensures s.bits + AllData(u, xs, k + 1) == (s.bits + AllData(u, xs, k)) + DataOf(u.code, Decoding(u, xs[k]).word)
    ensures AllFixed(u, xs, k + 1) == AllFixed(u, xs, k) + Decoding(u, xs[k]).fixed
  {
    hide Decoding, DataOf;
    assert AllData(u, xs, k + 1) == AllData(u, xs, k) + DataOf(u.code, Decoding(u, xs[k]).word);
  }

  lemma {:induction false} FoldTakesPrefix(u: Setup, s: Stream, xs: seq<Item>) returns (k: nat)
    requires u.Valid() && AllFit(xs, u.code.n) && !s.failed
    ensures TakesPrefix(u, s, xs, k, Fold(u, s, xs))
  {
    hide TakesPrefix, Step;
    if |xs| == 0 {
      k := 0;
      NoneTaken(u, s, xs);
    } else {
      k := FoldTakesPrefix(u, s, xs[..|xs| - 1]);
      k := FoldMore(u, s, xs, k, Fold(u, s, xs[..|xs| - 1]));
    }
  }

  lemma NoneTaken(u: Setup, s: Stream, xs: seq<Item>)
    requires u.Valid() && |xs| == 0 && !s.failed
    ensures TakesPrefix(u, s, xs, 0, s)
  {
    assert s.bits + [] == s.bits;
  }

  // ---------- descrambling follows it ----------

  lemma {:induction false} FoldAppend(u: Setup, s: Stream, xs: seq<Item>, ys: seq<Item>)
    requires u.Valid() && AllFit(xs, u.code.n) && AllFit(ys, u.code.n)
    ensures AllFit(xs + ys, u.code.n) && Fold(u, s, xs + ys) == Fold(u, Fold(u, s, xs), ys)
  {
    hide Step;
    if |ys| == 0 {
      assert xs + ys == xs;
    } else {
      var front := ys[..|ys| - 1];
      FoldAppend(u, s, xs, front);
      assert (xs + ys)[..|xs + ys| - 1] == xs + front;
    }
  }

  lemma FoldOne(u: Setup, s: Stream, x: Item)
    requires u.Valid() && x.Fits(u.code.n)
    ensures Fold(u, s, [x]) == Step(u, s, x.bits, x.llr)
  {
    hide Step;
    assert [x][..0] == [];
  }

  lemma FoldFour(u: Setup, s: Stream, a: Item, b: Item, c: Item, d: Item)
    requires u.Valid() && a.Fits(u.code.n) && b.Fits(u.code.n) && c.Fits(u.code.n) && d.Fits(u.code.n)
    ensures Fold(u, s, [a, b, c, d]) ==
      Step(u, Step(u, Step(u, Step(u, s, a.bits, a.llr), b.bits, b.llr), c.bits, c.llr), d.bits, d.llr)
  {
    hide Step;
    assert [a, b, c, d][..3] == [a, b, c] && [a, b, c][..2] == [a, b] && [a, b][..1] == [a];
    FoldOne(u, s, a);
    assert Fold(u, s, [a, b]) == Step(u, Fold(u, s, [a]), b.bits, b.llr);
    assert Fold(u, s, [a, b, c]) == Step(u, Fold(u, s, [a, b]), c.bits, c.llr);
  }

  lemma BlockIsFold(u: Setup, s: Stream, block: Bits, llr: Option<seq<real>>)
    requires u.Valid() && |block| == 4 * u.code.n && (llr.Some? ==> |llr.value| == 4 * u.code.n)
    ensures BlockStep(u, s, block, llr) == Fold(u, s, BlockItems(u.code.n, block, llr))
  {
    hide Step, Combined, Fold;
    var n, xs := u.code.n, BlockItems(u.code.n, block, llr);
    FoldFour(u, s, xs[0], xs[1], xs[2], xs[3]);
    assert 3 * n + n == 4 * n && 1 * n + n == 2 * n && 2 * n + n == 3 * n && 0 * n == 0;
  }

  lemma {:induction false} TailIsFold(u: Setup, s: Stream, c: Bits, l: Option<seq<real>>, from: nat)
    requires u.Valid() && (l.Some? ==> |l.value| == |c|)
    ensures TailSteps(u, s, c, l, from) == Fold(u, s, RunItems(u.code.n, c, l, from))
    decreases |c| - from
  {
    hide Step;
    var n := u.code.n;
    if from + n <= |c| {
      var x := Item(c[from..from + n], Part(l, from, from + n));
      TailIsFold(u, StepAt(u, s, c, l, from), c, l, from + n);
      FoldAppend(u, s, [x], RunItems(n, c, l, from + n));
      FoldOne(u, s, x);
    }
  }

  lemma RestOn(n: nat, llr: Option<seq<real>>, len: nat)
    requires n > 0 && 4 * n <= len && (llr.Some? ==> |llr.value| == len)
    ensures RestLlr(n, Part(llr, 4 * n, len)) == RestLlr(n, llr)
  {
    if llr.Some? { assert llr.value[4 * n..len] == llr.value[4 * n..]; }
  }

  lemma {:induction false} DescrambleIsFold(u: Setup, s: Stream, data: Bits, llr: Option<seq<real>>, junk: Junk)
    requires u.Valid() && (llr.Some? ==> |llr.value| == |data|)
    ensures RestLlr(u.code.n, llr).Some? ==> |RestLlr(u.code.n, llr).value| == |Rest(u.code.n, data)|
    ensures Descramble(u, s, data, llr, junk) ==
      TailStep(u, Fold(u, s, FullItems(u.code.n, data, llr)), Rest(u.code.n, data), RestLlr(u.code.n, llr), junk)
    decreases |data|
  {
    hide TailStep, BlockStep, BlockItems;
    var n := u.code.n;
    if |data| >= 4 * n {
      var size := 4 * n;
      var b, l := data[..size], Part(llr, 0, size);
      RestOn(n, llr, |data|);
      BlockIsFold(u, s, b, l);
      DescrambleIsFold(u, BlockStep(u, s, b, l), data[size..], Part(llr, size, |data|), junk);
      FoldAppend(u, s, BlockItems(n, b, l), FullItems(n, data[size..], Part(llr, size, |data|)));
    }
  }

  /** The codewords of the last block: none when it has fewer than four bits. */
  function LastItems(n: nat, data: Bits, llr: Option<seq<real>>, junk: Junk): (xs: seq<Item>)
    requires n > 0 && (llr.Some? ==> |llr.value| == |data|)
    ensures AllFit(xs, n)
  {
    var m := |data| / 2;
    if |data| < 4 then [] else RunItems(n, TailCombined(data, m, junk.bit1, junk.bit2), TailLlr(llr, m, junk), 0)
  }

  /**
   For every payload: `k` codewords of the full blocks are taken, then `j` of the last block unless one before was not
   decoded or the buffer has no room for all the bits of the last block; each count stops where it must.
   */
  lemma DescrambleLaw(u: Setup, data: Bits, llr: Option<seq<real>>, junk: Junk) returns (k: nat, mid: Stream, j: nat)
    requires u.Valid() && (llr.Some? ==> |llr.value| == |data|)
    ensures var n := u.code.n; var rest, l, r := Rest(n, data), RestLlr(n, llr), Descramble(u, EMPTY, data, llr, junk);
      && (l.Some? ==> |l.value| == |rest|)
      && TakesPrefix(u, EMPTY, FullItems(n, data, llr), k, mid)
      && if mid.failed || |rest| < 4 || |mid.bits| + 2 * (|rest| / 2 - 1) > u.max then r == mid
         else TakesPrefix(u, mid, LastItems(n, rest, l, junk), j, r)
  {
    hide TakesPrefix, Fold, Descramble, FullItems, Rest, TailSteps, TailCombined, RunItems;
    var n := u.code.n;
    var rest, l := Rest(n, data), RestLlr(n, llr);
    mid, j := Fold(u, EMPTY, FullItems(n, data, llr)), 0;
    k := FoldTakesPrefix(u, EMPTY, FullItems(n, data, llr));
    DescrambleIsFold(u, EMPTY, data, llr, junk);
    if !(mid.failed || |rest| < 4 || |mid.bits| + 2 * (|rest| / 2 - 1) > u.max) {
      var m := |rest| / 2;
      TailIsFold(u, mid, TailCombined(rest, m, junk.bit1, junk.bit2), TailLlr(l, m, junk), 0);
      j := FoldTakesPrefix(u, mid, LastItems(n, rest, l, junk));
    }
  }
}
