/** Descrambling undoes encoding and interleaving, with up to two wrong bits in each codeword. */
module PayloadTheorem {
  import opened Gf2
  import opened Gf2Division
  import opened Bch
  import opened Words
  import opened Options
  import opened Chase
  import opened Payload
  import BchDistance

  // ---------- one codeword ----------

  /** The codeword whose data part is `d`. */
  function Encode(code: Code, d: nat): (c: nat)
    requires code.poly > 0
  {
    Shl(d, code.syn) + Rem(code.poly, Shl(d, code.syn))
  }

  lemma EncodeIsCodeword(code: Code, d: nat)
    requires code.Valid()
    ensures IsCodeword(code.poly, Encode(code, d)) && Shr(Encode(code, d), code.syn) == d
  {
    hide Rem, Xor, Shl, Pow2, Shr;
    var p, x := code.poly, Shl(d, code.syn);
    var r := Rem(p, x);
    RemBelow(p, x);
    calc {
      Rem(p, x + r);
      { XorConcat(d, 0, 0, r, code.syn); XorZero(d); XorZero(r); ShlZero(code.syn); }
      Rem(p, Xor(x, r));
      { RemLinear(p, x, r); }
      Xor(r, Rem(p, r));
      { RemSmall(p, r); XorSelf(r); }
      0;
    }
    ShrUndoesShl(d, r, code.syn);
  }

  lemma {:induction false} ShlBelow(d: nat, r: nat, a: nat, k: nat)
    requires d < Pow2(a) && r < Pow2(k)
    ensures Shl(d, k) + r < Pow2(a + k)
  {
    if k > 0 { ShlBelow(d, r / 2, a, k - 1); }
  }

  /** What is received for the data word `d` when the bits `e` are wrong. */
  function Received(code: Code, d: nat, e: Errors): (v: nat)
    requires code.poly > 0
  {
    Xor(Encode(code, d), Word(e))
  }

  lemma ReceivedFits(code: Code, d: nat, e: Errors)
    requires code.Valid() && d < Pow2(code.Data()) && Within(e, code.n)
    ensures Received(code, d, e) < Pow2(code.n)
  {
    RemBelow(code.poly, Shl(d, code.syn));
    ShlBelow(d, Rem(code.poly, Shl(d, code.syn)), code.Data(), code.syn);
    WordBelow(e, code.n);
    XorBelow(Encode(code, d), Word(e), code.n);
  }

  lemma WordBelow(e: Errors, n: nat)
    requires Within(e, n)
    ensures Word(e) < Pow2(n)
  {
    match e {
      case Clean =>
      case One(b) => Pow2Grows(b + 1, n);
      case Two(b1, b2) =>
        Pow2Grows(b1 + 1, b2);
        Pow2Grows(b2 + 1, n);
    }
  }

  ghost predicate Corrects(u: Setup) {
    u.Valid() && Serves(u.code.poly, u.code.n, 2, u.table) && Separates(u.code.poly, u.code.n)
  }

  /** The decoder sees through up to two errors, whatever the reliabilities. */
  lemma DecodeReceived(u: Setup, d: nat, e: Errors, ps: seq<nat>)
    requires Corrects(u) && Within(e, u.code.n) && InRange(ps, u.code.n)
    ensures Decode(u.code.poly, u.code.n, u.table, Received(u.code, d, e), ps) ==
      Found(Weight(e), if e == Clean then 0 else 1, Encode(u.code, d))
  {
    var p, n, v, c := u.code.poly, u.code.n, Received(u.code, d, e), Encode(u.code, d);
    EncodeIsCodeword(u.code, d);
    LookupAnswers(p, n, 2, u.table, v);
    CorrectsTwoErrors(p, n, c, e, Lookup(p, u.table, v));
    CleanShows(p, n, u.table, v);
  }

  /** The lookup reports no error exactly when the remainder is zero. */
  lemma CleanShows(p: nat, n: nat, t: seq<Entry>, w: nat)
    requires p > 0 && Sound(p, n, t)
    ensures Lookup(p, t, w).errs == 0 <==> Rem(p, w) == 0
  {
    var r := Rem(p, w);
    if r != 0 && r < |t| {
      assert Explained(p, n, r, t[r]);
    }
  }

  // ---------- the stream ----------

  /** One data word and the errors its codeword meets. */
  datatype Sent = Sent(d: nat, e: Errors)

  ghost predicate Sendable(code: Code, w: Sent) {
    code.Valid() && w.d < Pow2(code.Data()) && Within(w.e, code.n)
  }

  ghost predicate AllSendable(code: Code, ws: seq<Sent>) {
    forall i :: 0 <= i < |ws| ==> Sendable(code, ws[i])
  }

  /** The bits on the air for one word. */
  function OnAir(code: Code, w: Sent): (bits: Bits)
    requires code.poly > 0
    ensures |bits| == code.n
  {
    BitsOf(Received(code, w.d, w.e), code.n)
  }

  /** The stream with the data of `w` added, if it fits. */
  function Take(u: Setup, s: Stream, w: Sent): (s': Stream)
    requires u.code.syn <= u.code.n
  {
    if |s.bits| + u.code.Data() > u.max then s
    else Stream(s.bits + BitsOf(w.d, u.code.Data()), s.fixed + (if w.e == Clean then 0 else 1), false)
  }

  lemma StepTakes(u: Setup, s: Stream, w: Sent, llr: Option<seq<real>>)
    requires Corrects(u) && Sendable(u.code, w) && !s.failed && (llr.Some? ==> |llr.value| == u.code.n)
    ensures Step(u, s, OnAir(u.code, w), llr) == Take(u, s, w)
  {
    ReceivedFits(u.code, w.d, w.e);
    ValueOfBits(Received(u.code, w.d, w.e), u.code.n);
    CandidatesInRange(llr, u.useChase, u.code.n);
    DecodeReceived(u, w.d, w.e, Candidates(llr, u.useChase));
    EncodeIsCodeword(u.code, w.d);
  }

  lemma CandidatesInRange(llr: Option<seq<real>>, k: nat, n: nat)
    requires k <= n && (llr.Some? ==> |llr.value| == n)
    ensures InRange(Candidates(llr, k), n)
  {
  }

  // ---------- blocks ----------

  /** Four codewords as one block on the air. */
  function BlockFrame(code: Code, w0: Sent, w1: Sent, w2: Sent, w3: Sent): (b: Bits)
    requires code.poly > 0
    ensures |b| == 4 * code.n
  {
    Interleave(OnAir(code, w3) + OnAir(code, w1), OnAir(code, w2) + OnAir(code, w0))
  }

  function TakeBlock(u: Setup, s: Stream, w0: Sent, w1: Sent, w2: Sent, w3: Sent): (s': Stream)
    requires u.code.syn <= u.code.n
    ensures !s.failed ==> !s'.failed
  {
    Take(u, Take(u, Take(u, Take(u, s, w0), w1), w2), w3)
  }

  lemma StepAtTakes(u: Setup, s: Stream, c: Bits, llr: Option<seq<real>>, from: nat, w: Sent)
    requires Corrects(u) && Sendable(u.code, w) && !s.failed
    requires from + u.code.n <= |c| && (llr.Some? ==> |llr.value| == |c|)
    requires c[from..from + u.code.n] == OnAir(u.code, w)
    ensures StepAt(u, s, c, llr, from) == Take(u, s, w)
  {
    StepTakes(u, s, w, Part(llr, from, from + u.code.n));
  }

  lemma Slices(a: Bits, b: Bits, c: Bits, d: Bits, n: nat)
    requires |a| == n && |b| == n && |c| == n && |d| == n
    ensures var x := (a + b) + (c + d); x[0..n] == a && x[n..2 * n] == b && x[2 * n..3 * n] == c && x[3 * n..4 * n] == d
  {
  }

  lemma BlockTakes(u: Setup, s: Stream, w0: Sent, w1: Sent, w2: Sent, w3: Sent, llr: Option<seq<real>>)
    requires Corrects(u) && !s.failed && (llr.Some? ==> |llr.value| == 4 * u.code.n)
    requires Sendable(u.code, w0) && Sendable(u.code, w1) && Sendable(u.code, w2) && Sendable(u.code, w3)
    ensures BlockStep(u, s, BlockFrame(u.code, w0, w1, w2, w3), llr) == TakeBlock(u, s, w0, w1, w2, w3)
  {
    var n, b := u.code.n, BlockFrame(u.code, w0, w1, w2, w3);
    BlockBits(u.code, w0, w1, w2, w3);
    Slices(OnAir(u.code, w3), OnAir(u.code, w1), OnAir(u.code, w2), OnAir(u.code, w0), n);
    CombinedTakes(u, s, w0, w1, w2, w3, Combined(b, 2 * n), CombinedLlr(llr, 2 * n));
  }

  lemma BlockBits(code: Code, w0: Sent, w1: Sent, w2: Sent, w3: Sent)
    requires code.poly > 0
    ensures Combined(BlockFrame(code, w0, w1, w2, w3), 2 * code.n) ==
      (OnAir(code, w3) + OnAir(code, w1)) + (OnAir(code, w2) + OnAir(code, w0))
  {
    CombinedUndoes(OnAir(code, w3) + OnAir(code, w1), OnAir(code, w2) + OnAir(code, w0), 2 * code.n);
  }

  lemma CombinedUndoes(h1: Bits, h2: Bits, m: nat)
    requires |h1| == |h2| == m && m % 2 == 0
    ensures Combined(Interleave(h1, h2), m) == h1 + h2
  {
    DeInterleaveUndoes(h1, h2);
  }

  lemma CombinedTakes(u: Setup, s: Stream, w0: Sent, w1: Sent, w2: Sent, w3: Sent, c: Bits, l: Option<seq<real>>)
    requires Corrects(u) && !s.failed && |c| == 4 * u.code.n && (l.Some? ==> |l.value| == |c|)
    requires Sendable(u.code, w0) && Sendable(u.code, w1) && Sendable(u.code, w2) && Sendable(u.code, w3)
    requires c[0..u.code.n] == OnAir(u.code, w3) && c[u.code.n..2 * u.code.n] == OnAir(u.code, w1)
    requires c[2 * u.code.n..3 * u.code.n] == OnAir(u.code, w2) && c[3 * u.code.n..4 * u.code.n] == OnAir(u.code, w0)
    ensures var n := u.code.n;
      StepAt(u, StepAt(u, StepAt(u, StepAt(u, s, c, l, 3 * n), c, l, n), c, l, 2 * n), c, l, 0) ==
      TakeBlock(u, s, w0, w1, w2, w3)
  {
    var n := u.code.n;
    StepAtTakes(u, s, c, l, 3 * n, w0);
    var s0 := Take(u, s, w0);
    StepAtTakes(u, s0, c, l, n, w1);
    var s1 := Take(u, s0, w1);
    StepAtTakes(u, s1, c, l, 2 * n, w2);
    StepAtTakes(u, Take(u, s1, w2), c, l, 0, w3);
  }

  /** The codewords from `i` on, one after the other. */
  function Aired(code: Code, ws: seq<Sent>, i: nat): (bits: Bits)
    requires code.poly > 0
    decreases |ws| - i
  {
    if i >= |ws| then [] else OnAir(code, ws[i]) + Aired(code, ws, i + 1)
  }

  /** The last block: the bits `t`, an odd number in each half, after two bits that are dropped. */
  function TailFrame(t: Bits, pad1: nat, pad2: nat): (b: Bits)
    requires |t| % 4 == 2
    ensures |b| == |t| + 2
  {
    HalvesOf(|t|);
    var h := |t| / 2;
    Interleave([pad1] + t[h..], [pad2] + t[..h])
  }

  lemma HalvesOf(n: nat)
    requires n % 4 == 2
    ensures n == 2 * (n / 2) && (n / 2 + 1) % 2 == 0
  {
    var q := n / 4;
    assert n == 4 * q + 2;
    assert n / 2 == 2 * q + 1;
  }

  lemma TailBits(t: Bits, pad1: nat, pad2: nat, junk1: nat, junk2: nat)
    requires |t| % 4 == 2
    ensures TailCombined(TailFrame(t, pad1, pad2), |t| / 2 + 1, junk1, junk2) == t
  {
    hide Interleave, TailCombined;
    var h := |t| / 2;
    TailHalves(t[..h], t[h..], pad1, pad2, h + 1, junk1, junk2);
    assert t[..h] + t[h..] == t;
  }

  lemma TailHalves(a: Bits, b: Bits, pad1: nat, pad2: nat, m: nat, junk1: nat, junk2: nat)
    requires |a| == |b| == m - 1 && m % 2 == 0 && m >= 2
    ensures TailCombined(Interleave([pad1] + b, [pad2] + a), m, junk1, junk2) == a + b
  {
    hide Interleave, Half1, Half2;
    DeInterleaveUndoes([pad1] + b, [pad2] + a);
    WithoutPad(pad1, b);
    WithoutPad(pad2, a);
  }

  lemma WithoutPad(pad: nat, a: Bits)
    ensures ([pad] + a)[1..] == a
  {
  }

  /** The words from `i` on, as far as there is room. */
  function TakeEach(u: Setup, s: Stream, ws: seq<Sent>, i: nat): (s': Stream)
    requires u.code.syn <= u.code.n
    decreases |ws| - i
  {
    if i >= |ws| then s else TakeEach(u, Take(u, s, ws[i]), ws, i + 1)
  }

  /** A last block of `size` bits is left out when the buffer has no room for as many. */
  function TakeTail(u: Setup, s: Stream, ws: seq<Sent>, i: nat, size: nat): (s': Stream)
    requires u.code.syn <= u.code.n
  {
    if |s.bits| + size > u.max then s else TakeEach(u, s, ws, i)
  }

  /** The codewords of the last block one after the other; the bits after them are too few for another. */
  lemma {:induction false} TailStepsTake(u: Setup, s: Stream, ws: seq<Sent>, i: nat, fill: Bits, t: Bits, l: Option<seq<real>>, from: nat)
    requires Corrects(u) && !s.failed && AllSendable(u.code, ws) && |fill| < u.code.n && (l.Some? ==> |l.value| == |t|)
    requires from <= |t| && t[from..] == Aired(u.code, ws, i) + fill
    ensures TailSteps(u, s, t, l, from) == TakeEach(u, s, ws, i)
    decreases |ws| - i
  {
    hide OnAir, Sendable, Corrects, StepAt, Take;
    var n := u.code.n;
    assert u.Valid() && u.code.syn < n by { CorrectsValid(u); }
    if i < |ws| {
      var w, rest := OnAir(u.code, ws[i]), Aired(u.code, ws, i + 1) + fill;
      FirstOf(t, from, w, rest, Aired(u.code, ws, i + 1), fill);
      assert Sendable(u.code, ws[i]);
      StepAtTakes(u, s, t, l, from, ws[i]);
      TakeKeepsOn(u, s, ws[i]);
      TailStepsTake(u, Take(u, s, ws[i]), ws, i + 1, fill, t, l, from + n);
    }
  }

  lemma CorrectsValid(u: Setup)
    requires Corrects(u)
    ensures u.Valid() && u.code.syn < u.code.n
  {
  }

  lemma TakeKeepsOn(u: Setup, s: Stream, w: Sent)
    requires u.code.syn <= u.code.n && !s.failed
    ensures !Take(u, s, w).failed
  {
  }

  lemma FirstOf(t: Bits, from: nat, w: Bits, rest: Bits, a: Bits, fill: Bits)
    requires from <= |t| && rest == a + fill && t[from..] == (w + a) + fill
    ensures from + |w| <= |t| && t[from..from + |w|] == w && t[from + |w|..] == rest
  {
    assert (w + a) + fill == w + rest;
    var x := t[from..];
    assert t[from..from + |w|] == x[..|w|] && t[from + |w|..] == x[|w|..];
  }

  lemma TailTakes(u: Setup, s: Stream, ws: seq<Sent>, i: nat, fill: Bits, t: Bits, b: Bits, llr: Option<seq<real>>, junk: Junk)
    requires Corrects(u) && !s.failed && AllSendable(u.code, ws) && |fill| < u.code.n
    requires t == Aired(u.code, ws, i) + fill && |t| % 4 == 2 && |b| == |t| + 2 && (llr.Some? ==> |llr.value| == |b|)
    requires TailCombined(b, |t| / 2 + 1, junk.bit1, junk.bit2) == t
    ensures TailStep(u, s, b, llr, junk) == TakeTail(u, s, ws, i, |t|)
  {
    hide TailCombined, TailSteps, OnAir, Sendable, AllSendable, Aired, Corrects;
    CorrectsValid(u);
    var m := |t| / 2 + 1;
    assert |b| / 2 == m && 2 * (m - 1) == |t|;
    if |s.bits| + |t| <= u.max {
      assert t[0..] == t;
      TailStepsTake(u, s, ws, i, fill, t, TailLlr(llr, m, junk), 0);
    }
  }

  // ---------- whole payloads ----------

  /**
   The words from `i` on: full blocks of four, and a last block of fewer with the bits `fill` behind them. The last
   block is possible when its bits make an odd number in each half.
   */
  function Frame(code: Code, ws: seq<Sent>, i: nat, fill: Bits, pad1: nat, pad2: nat): (b: Bits)
    requires code.poly > 0
    decreases |ws| - i
  {
    if i + 4 <= |ws| then BlockFrame(code, ws[i], ws[i + 1], ws[i + 2], ws[i + 3]) + Frame(code, ws, i + 4, fill, pad1, pad2)
    else
      var t := Aired(code, ws, i) + fill;
      if |t| % 4 == 2 then TailFrame(t, pad1, pad2) else []
  }

  /** The last block holds up to three words and less than a word more, and is no full block; or there is none. */
  predicate LastOk(code: Code, ws: seq<Sent>, i: nat, fill: Bits)
    requires code.poly > 0
    decreases |ws| - i
  {
    if i + 4 <= |ws| then LastOk(code, ws, i + 4, fill)
    else
      var size := |Aired(code, ws, i) + fill|;
      size == 0 || (size % 4 == 2 && |fill| < code.n && size + 2 < 4 * code.n)
  }

  /** What the output buffer has room for. */
  function TakeFrame(u: Setup, s: Stream, ws: seq<Sent>, i: nat, fill: Bits): (s': Stream)
    requires u.code.syn <= u.code.n && u.code.poly > 0
    decreases |ws| - i
  {
    if i + 4 <= |ws| then TakeFrame(u, TakeBlock(u, s, ws[i], ws[i + 1], ws[i + 2], ws[i + 3]), ws, i + 4, fill)
    else TakeTail(u, s, ws, i, |Aired(u.code, ws, i) + fill|)
  }

  lemma NoTail(u: Setup, s: Stream, ws: seq<Sent>, i: nat, fill: Bits, llr: Option<seq<real>>, junk: Junk)
    requires u.Valid() && |Aired(u.code, ws, i) + fill| == 0 && (llr.Some? ==> |llr.value| == 0)
    ensures Descramble(u, s, [], llr, junk) == TakeTail(u, s, ws, i, 0)
  {
  }

  lemma LastTakes(u: Setup, s: Stream, ws: seq<Sent>, i: nat, fill: Bits, pad1: nat, pad2: nat, llr: Option<seq<real>>, junk: Junk)
    requires Corrects(u) && AllSendable(u.code, ws) && !s.failed && i + 4 > |ws| && LastOk(u.code, ws, i, fill)
    requires llr.Some? ==> |llr.value| == |Frame(u.code, ws, i, fill, pad1, pad2)|
    ensures Descramble(u, s, Frame(u.code, ws, i, fill, pad1, pad2), llr, junk) == TakeFrame(u, s, ws, i, fill)
  {
    hide TailCombined, Interleave, Aired, TailSteps, AllSendable, TakeTail, TailStep, Corrects;
    CorrectsValid(u);
    var t := Aired(u.code, ws, i) + fill;
    if |t| == 0 {
      NoTail(u, s, ws, i, fill, llr, junk);
    } else {
      TailBits(t, pad1, pad2, junk.bit1, junk.bit2);
      TailTakes(u, s, ws, i, fill, t, TailFrame(t, pad1, pad2), llr, junk);
    }
  }

  /** For every size of the output buffer, the payload is decoded as far as there is room. */
  lemma {:induction false} DescrambleTakes(u: Setup, s: Stream, ws: seq<Sent>, i: nat, fill: Bits, pad1: nat, pad2: nat,
                                           llr: Option<seq<real>>, junk: Junk)
    requires Corrects(u) && AllSendable(u.code, ws) && !s.failed && LastOk(u.code, ws, i, fill)
    requires llr.Some? ==> |llr.value| == |Frame(u.code, ws, i, fill, pad1, pad2)|
    ensures Descramble(u, s, Frame(u.code, ws, i, fill, pad1, pad2), llr, junk) == TakeFrame(u, s, ws, i, fill)
    decreases |ws| - i
  {
    hide TailCombined, Interleave, TakeBlock, TakeTail, TailFrame, Aired, TailStep, Corrects;
    CorrectsValid(u);
    var n, data := u.code.n, Frame(u.code, ws, i, fill, pad1, pad2);
    if i + 4 <= |ws| {
      var b, rest := BlockFrame(u.code, ws[i], ws[i + 1], ws[i + 2], ws[i + 3]), Frame(u.code, ws, i + 4, fill, pad1, pad2);
      var s' := TakeBlock(u, s, ws[i], ws[i + 1], ws[i + 2], ws[i + 3]);
      assert data[..4 * n] == b && data[4 * n..] == rest;
      BlockTakes(u, s, ws[i], ws[i + 1], ws[i + 2], ws[i + 3], Part(llr, 0, 4 * n));
      DescrambleTakes(u, s', ws, i + 4, fill, pad1, pad2, Part(llr, 4 * n, |data|), junk);
    } else {
      LastTakes(u, s, ws, i, fill, pad1, pad2, llr, junk);
    }
  }

  /** The data of the words from `i` on. */
  function DataBits(code: Code, ws: seq<Sent>, i: nat): (bits: Bits)
    requires code.syn <= code.n
    decreases |ws| - i
  {
    if i >= |ws| then [] else BitsOf(ws[i].d, code.Data()) + DataBits(code, ws, i + 1)
  }

  function Dirty(w: Sent): (k: nat) { if w.e == Clean then 0 else 1 }

  /** How many of them have errors. */
  function Repaired(ws: seq<Sent>, i: nat): (k: nat)
    decreases |ws| - i
  {
    if i >= |ws| then 0 else Dirty(ws[i]) + Repaired(ws, i + 1)
  }

  /** The output buffer takes all of it: the last block asks for room for all its bits. */
  predicate Fits(u: Setup, used: nat, ws: seq<Sent>, i: nat, fill: Bits)
    requires u.code.syn <= u.code.n && u.code.poly > 0
    decreases |ws| - i
  {
    if i + 4 <= |ws| then used + 4 * u.code.Data() <= u.max && Fits(u, used + 4 * u.code.Data(), ws, i + 4, fill)
    else used + |Aired(u.code, ws, i) + fill| <= u.max
  }

  /** The stream `s` followed by all the words from `i` on. */
  function Followed(u: Setup, s: Stream, ws: seq<Sent>, i: nat): (s': Stream)
    requires u.code.syn <= u.code.n
  {
    Stream(s.bits + DataBits(u.code, ws, i), s.fixed + Repaired(ws, i), false)
  }

  lemma FollowedByOne(u: Setup, s: Stream, ws: seq<Sent>, i: nat)
    requires u.code.syn <= u.code.n && i < |ws| && |s.bits| + u.code.Data() <= u.max
    ensures Followed(u, s, ws, i) == Followed(u, Take(u, s, ws[i]), ws, i + 1)
    ensures |Take(u, s, ws[i]).bits| == |s.bits| + u.code.Data()
  {
    var d := BitsOf(ws[i].d, u.code.Data());
    assert s.bits + (d + DataBits(u.code, ws, i + 1)) == (s.bits + d) + DataBits(u.code, ws, i + 1);
  }

  lemma FollowedByTwo(u: Setup, s: Stream, ws: seq<Sent>, i: nat)
    requires u.code.syn <= u.code.n && i + 1 < |ws| && |s.bits| + 2 * u.code.Data() <= u.max
    ensures var s' := Take(u, Take(u, s, ws[i]), ws[i + 1]);
      Followed(u, s, ws, i) == Followed(u, s', ws, i + 2) && |s'.bits| == |s.bits| + 2 * u.code.Data()
  {
    FollowedByOne(u, s, ws, i);
    FollowedByOne(u, Take(u, s, ws[i]), ws, i + 1);
  }

  lemma {:induction false} TakesEach(u: Setup, s: Stream, ws: seq<Sent>, i: nat)
    requires u.code.syn <= u.code.n && u.code.poly > 0 && i <= |ws| && !s.failed && |s.bits| + |Aired(u.code, ws, i)| <= u.max
    ensures TakeEach(u, s, ws, i) == Followed(u, s, ws, i)
    decreases |ws| - i
  {
    if i < |ws| {
      FollowedByOne(u, s, ws, i);
      TakesEach(u, Take(u, s, ws[i]), ws, i + 1);
    } else {
      NothingFollows(u, s, ws);
    }
  }

  lemma {:induction false} TakesAll(u: Setup, s: Stream, ws: seq<Sent>, i: nat, fill: Bits)
    requires u.code.syn <= u.code.n && u.code.poly > 0 && i <= |ws| && !s.failed && Fits(u, |s.bits|, ws, i, fill)
    ensures TakeFrame(u, s, ws, i, fill) == Followed(u, s, ws, i)
    decreases |ws| - i
  {
    hide Take, Aired;
    if i + 4 <= |ws| {
      FollowedByTwo(u, s, ws, i);
      FollowedByTwo(u, Take(u, Take(u, s, ws[i]), ws[i + 1]), ws, i + 2);
      TakesAll(u, TakeBlock(u, s, ws[i], ws[i + 1], ws[i + 2], ws[i + 3]), ws, i + 4, fill);
    } else {
      TakesEach(u, s, ws, i);
    }
  }

  lemma NothingFollows(u: Setup, s: Stream, ws: seq<Sent>)
    requires u.code.syn <= u.code.n && !s.failed
    ensures Followed(u, s, ws, |ws|) == s
  {
  }

  lemma DataCodeValid()
    ensures DA.Valid()
  {
    assert BitLength(3545 / 2 / 2) == 10;
  }

  /** Bit `i` of a half of a block of 62 symbols: pairs of bits from its end, in every other symbol from `top` down. */
  function PlaceOf(top: nat, i: nat): (p: nat)
    requires i < 62 && (top == 60 || top == 61)
    ensures p < 124
  {
    2 * (top - 2 * (i / 2)) + i % 2
  }

  /** Where the bits of the four words of a block are: words 3 and 1 in the odd symbols, words 2 and 0 in the even ones. */
  lemma BlockPlaces(w0: Sent, w1: Sent, w2: Sent, w3: Sent, j: nat)
    requires j < 31
    ensures var b := BlockFrame(DA, w0, w1, w2, w3);
      && b[PlaceOf(61, j)] == OnAir(DA, w3)[j] && b[PlaceOf(61, 31 + j)] == OnAir(DA, w1)[j]
      && b[PlaceOf(60, j)] == OnAir(DA, w2)[j] && b[PlaceOf(60, 31 + j)] == OnAir(DA, w0)[j]
  {
    hide OnAir, Interleave;
    var h1, h2 := OnAir(DA, w3) + OnAir(DA, w1), OnAir(DA, w2) + OnAir(DA, w0);
    var b, i := Interleave(h1, h2), 31 + j;
    DeInterleaveUndoes(h1, h2);
    assert Half1(b, 62)[j] == h1[j] && Half2(b, 62)[j] == h2[j];
    assert Half1(b, 62)[i] == h1[i] && Half2(b, 62)[i] == h2[i];
  }

  /** And of a last block, whose first bits in each half are dropped: the first half of its bits is in the even symbols. */
  lemma TailPlaces(t: Bits, pad1: nat, pad2: nat, i: nat)
    requires |t| % 4 == 2 && 0 < i <= |t| / 2
    ensures var b, m := TailFrame(t, pad1, pad2), |t| / 2 + 1;
      && b[2 * (m - 2 - 2 * (i / 2)) + i % 2] == t[i - 1]
      && b[2 * (m - 1 - 2 * (i / 2)) + i % 2] == t[|t| / 2 + i - 1]
  {
    hide Interleave;
    var h := |t| / 2;
    var h1, h2 := [pad1] + t[h..], [pad2] + t[..h];
    var b := Interleave(h1, h2);
    DeInterleaveUndoes(h1, h2);
    assert Half1(b, h + 1)[i] == h1[i] && Half2(b, h + 1)[i] == h2[i];
  }

  /** The payload codec round trip, for any number of words. */
  lemma PayloadRoundTrip(u: Setup, ws: seq<Sent>, fill: Bits, pad1: nat, pad2: nat, llr: Option<seq<real>>, junk: Junk)
    requires u.code == DA && u.Valid() && Serves(DA.poly, DA.n, 2, u.table)
    requires AllSendable(DA, ws) && LastOk(DA, ws, 0, fill) && Fits(u, 0, ws, 0, fill)
    requires llr.Some? ==> |llr.value| == |Frame(DA, ws, 0, fill, pad1, pad2)|
    ensures Descramble(u, EMPTY, Frame(DA, ws, 0, fill, pad1, pad2), llr, junk) ==
      Stream(DataBits(DA, ws, 0), Repaired(ws, 0), false)
  {
    hide Serves, Separates, Descramble, Frame, DataBits, Repaired, AllSendable, Fits, TakeFrame, LastOk;
    BchDistance.CodesSeparate();
    DescrambleTakes(u, EMPTY, ws, 0, fill, pad1, pad2, llr, junk);
    TakesAll(u, EMPTY, ws, 0, fill);
  }
}
