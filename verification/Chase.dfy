/**
 Chase decoding (`chase_bch_da` in ida_decode.c): when the table cannot correct a word, flip subsets of
 its least reliable bits and try again.
 */
module Chase {
  import opened Gf2
  import opened Gf2Division
  import opened Bch
  import opened Words
  import opened Options
  import BchDistance

  // ---------- the least reliable positions ----------

  /** The index of the smallest reliability among `m` and the cells from `j` on. */
  function MinIndex(llr: seq<real>, pos: seq<nat>, m: nat, j: nat): (r: nat)
    requires InRange(pos, |llr|) && m < j <= |pos|
    ensures r < |pos| && (r == m || j <= r)
    decreases |pos| - j
  {
    if j == |pos| then m
    else MinIndex(llr, pos, if llr[pos[j]] < llr[pos[m]] then j else m, j + 1)
  }

  predicate InRange(pos: seq<nat>, n: nat) { forall i :: 0 <= i < |pos| ==> pos[i] < n }

  predicate Distinct(pos: seq<nat>) { forall i, j :: 0 <= i < j < |pos| ==> pos[i] != pos[j] }

  predicate Covers(pos: seq<nat>, n: nat) { forall x :: 0 <= x < n ==> x in pos }

  function Swapped(pos: seq<nat>, i: nat, m: nat): (r: seq<nat>)
    requires i < |pos| && m < |pos|
  {
    pos[i := pos[m]][m := pos[i]]
  }

  /** All positions, after `i` rounds of the selection sort. */
  function Selected(llr: seq<real>, i: nat): (pos: seq<nat>)
    requires i <= |llr|
    ensures |pos| == |llr| && InRange(pos, |llr|)
  {
    if i == 0 then seq(|llr|, (x: nat) => x)
    else
      var pos := Selected(llr, i - 1);
      Swapped(pos, i - 1, MinIndex(llr, pos, i - 1, i))
  }

  /** The first `i` are in order and no other is less reliable. */
  predicate SortedTo(llr: seq<real>, pos: seq<nat>, i: nat)
    requires InRange(pos, |llr|)
  {
    forall a, b :: 0 <= a < i && a <= b < |pos| ==> llr[pos[a]] <= llr[pos[b]]
  }

  lemma {:induction false} MinIsLeast(llr: seq<real>, pos: seq<nat>, m: nat, j: nat)
    requires InRange(pos, |llr|) && m < j <= |pos|
    ensures var r := MinIndex(llr, pos, m, j);
      && llr[pos[r]] <= llr[pos[m]]
      && (forall x :: j <= x < |pos| ==> llr[pos[r]] <= llr[pos[x]])
      && (r != m ==> llr[pos[r]] < llr[pos[m]] && forall x :: j <= x < r ==> llr[pos[r]] < llr[pos[x]])
    decreases |pos| - j
  {
    if j < |pos| { MinIsLeast(llr, pos, if llr[pos[j]] < llr[pos[m]] then j else m, j + 1); }
  }

  lemma SwapKeeps(pos: seq<nat>, n: nat, i: nat, m: nat)
    requires i < |pos| && m < |pos| && Distinct(pos) && Covers(pos, n)
    ensures Distinct(Swapped(pos, i, m)) && Covers(Swapped(pos, i, m), n)
  {
    var r := Swapped(pos, i, m);
    forall x | 0 <= x < n
      ensures x in r
    {
      assert x in pos;
      var k :| 0 <= k < |pos| && pos[k] == x;
      assert r[if k == i then m else if k == m then i else k] == x;
    }
  }

  lemma SwapSorts(llr: seq<real>, pos: seq<nat>, i: nat, m: nat)
    requires InRange(pos, |llr|) && i <= m < |pos| && SortedTo(llr, pos, i)
    requires forall x :: i <= x < |pos| ==> llr[pos[m]] <= llr[pos[x]]
    ensures InRange(Swapped(pos, i, m), |llr|) && SortedTo(llr, Swapped(pos, i, m), i + 1)
  {
    var r := Swapped(pos, i, m);
    forall a, b | 0 <= a < i + 1 && a <= b < |r|
      ensures llr[r[a]] <= llr[r[b]]
    {
      var b' := if b == i then m else if b == m then i else b;
      assert r[b] == pos[b'];
    }
  }

  lemma {:induction false} SelectedSorts(llr: seq<real>, i: nat)
    requires i <= |llr|
    ensures SortedTo(llr, Selected(llr, i), i)
  {
    hide MinIndex;
    if i > 0 {
      var pos := Selected(llr, i - 1);
      SelectedSorts(llr, i - 1);
      MinIsLeast(llr, pos, i - 1, i);
      SwapSorts(llr, pos, i - 1, MinIndex(llr, pos, i - 1, i));
    }
  }

  /** A round of the sort: the first of the least reliable cells from `i` on comes to `i` and what was there takes its place. */
  lemma SelectedStep(llr: seq<real>, i: nat) returns (r: nat)
    requires i < |llr|
    ensures i <= r < |llr| && Selected(llr, i + 1) == Selected(llr, i)[i := Selected(llr, i)[r]][r := Selected(llr, i)[i]]
    ensures forall x :: i <= x < r ==> llr[Selected(llr, i)[r]] < llr[Selected(llr, i)[x]]
    ensures forall x :: r <= x < |llr| ==> llr[Selected(llr, i)[r]] <= llr[Selected(llr, i)[x]]
  {
    hide MinIndex;
    r := MinIndex(llr, Selected(llr, i), i, i + 1);
    MinIsLeast(llr, Selected(llr, i), i, i + 1);
  }

  lemma {:induction false} SelectedPermutes(llr: seq<real>, i: nat)
    requires i <= |llr|
    ensures Distinct(Selected(llr, i)) && Covers(Selected(llr, i), |llr|)
  {
    var pos := Selected(llr, if i == 0 then 0 else i - 1);
    if i == 0 {
      forall x | 0 <= x < |llr|
        ensures x in pos
      {
        assert pos[x] == x;
      }
    } else {
      SelectedPermutes(llr, i - 1);
      SwapKeeps(pos, |llr|, i - 1, MinIndex(llr, pos, i - 1, i));
    }
  }

  /** What the soft search may flip: `k` positions, none of the others less reliable. */
  predicate LeastReliable(llr: seq<real>, ps: seq<nat>) {
    && InRange(ps, |llr|) && Distinct(ps)
    && forall x, b :: 0 <= x < |llr| && x !in ps && 0 <= b < |ps| ==> llr[ps[b]] <= llr[x]
  }

  lemma PrefixMembers(pos: seq<nat>, k: nat)
    requires k <= |pos|
    ensures forall j :: 0 <= j < k ==> pos[j] in pos[..k]
  {
    assert forall j :: 0 <= j < k ==> pos[..k][j] == pos[j];
  }

  lemma PrefixIsLeast(llr: seq<real>, pos: seq<nat>, k: nat)
    requires k <= |pos| && InRange(pos, |llr|) && Distinct(pos) && Covers(pos, |llr|) && SortedTo(llr, pos, k)
    ensures LeastReliable(llr, pos[..k])
  {
    PrefixMembers(pos, k);
    forall x, b | 0 <= x < |llr| && x !in pos[..k] && 0 <= b < k
      ensures llr[pos[b]] <= llr[x]
    {
      assert x in pos;
      var j :| 0 <= j < |pos| && pos[j] == x;
    }
  }

  lemma SelectedAreLeast(llr: seq<real>, k: nat)
    requires k <= |llr|
    ensures LeastReliable(llr, Selected(llr, k)[..k])
  {
    SelectedSorts(llr, k);
    SelectedPermutes(llr, k);
    PrefixIsLeast(llr, Selected(llr, k), k);
  }

  // ---------- flipping ----------

  /** `w` with the bits at those of the positions `ps` that `mask` names flipped, the first `k` of them considered. */
  function Flipped(w: nat, n: nat, ps: seq<nat>, mask: nat, k: nat): (v: nat)
    requires k <= |ps| && InRange(ps, n)
  {
    if k == 0 then w
    else
      var v := Flipped(w, n, ps, mask, k - 1);
      if Bit(mask, k - 1) then Xor(v, Pow2(n - 1 - ps[k - 1])) else v
  }

  lemma {:induction false} PowBit(j: nat, i: nat)
    ensures Bit(Pow2(j), i) <==> i == j
  {
    if i > 0 && j > 0 {
      PowBit(j - 1, i - 1);
    } else if i > 0 {
      ZeroBit(i - 1);
    }
  }

  lemma {:induction false} ZeroBit(i: nat)
    ensures !Bit(0, i)
  {
    if i > 0 { ZeroBit(i - 1); }
  }

  /** Bits that are not at a position of `ps` stay. */
  lemma {:induction false} FlippedElsewhere(w: nat, n: nat, ps: seq<nat>, mask: nat, k: nat, i: nat)
    requires k <= |ps| && InRange(ps, n) && forall b :: 0 <= b < k ==> n - 1 - ps[b] != i
    ensures Bit(Flipped(w, n, ps, mask, k), i) == Bit(w, i)
  {
    if k > 0 {
      var j := n - 1 - ps[k - 1];
      FlippedElsewhere(w, n, ps, mask, k - 1, i);
      PowBit(j, i);
      XorBit(Flipped(w, n, ps, mask, k - 1), Pow2(j), i);
    }
  }

  /** The bit at position `ps[b]` is flipped exactly when the mask says so. */
  lemma {:induction false} FlippedAt(w: nat, n: nat, ps: seq<nat>, mask: nat, k: nat, b: nat)
    requires b < k <= |ps| && InRange(ps, n) && Distinct(ps)
    ensures Bit(Flipped(w, n, ps, mask, k), n - 1 - ps[b]) == (Bit(w, n - 1 - ps[b]) != Bit(mask, b))
  {
    var i, j := n - 1 - ps[b], n - 1 - ps[k - 1];
    if b < k - 1 {
      FlippedAt(w, n, ps, mask, k - 1, b);
    } else {
      FlippedElsewhere(w, n, ps, mask, k - 1, i);
    }
    PowBit(j, i);
    XorBit(Flipped(w, n, ps, mask, k - 1), Pow2(j), i);
  }

  lemma {:induction false} SameBits(a: nat, b: nat)
    requires forall i: nat :: Bit(a, i) == Bit(b, i)
    ensures a == b
    decreases a + b
  {
    if a + b > 0 {
      assert Bit(a, 0) == Bit(b, 0);
      forall i: nat
        ensures Bit(a / 2, i) == Bit(b / 2, i)
      {
        assert Bit(a, i + 1) == Bit(b, i + 1);
      }
      SameBits(a / 2, b / 2);
    }
  }

  // ---------- decoding ----------

  /** What a decoding gives: how many errors the table corrected, whether anything was changed, and the codeword. */
  datatype Decoded = Failed | Found(errs: nat, fixed: nat, word: nat)

  /** The masks from `mask` on, in order. */
  function TryMasks(p: nat, n: nat, t: seq<Entry>, w: nat, ps: seq<nat>, mask: nat): (r: Decoded)
    requires p > 0 && InRange(ps, n)
    decreases Pow2(|ps|) - mask
  {
    if mask >= Pow2(|ps|) then Failed
    else
      var x := Lookup(p, t, Flipped(w, n, ps, mask, |ps|));
      if x.errs >= 0 then Found(x.errs, 1, x.word) else TryMasks(p, n, t, w, ps, mask + 1)
  }

  /** The positions that may be flipped: none without reliabilities. */
  function Candidates(llr: Option<seq<real>>, k: nat): (ps: seq<nat>)
    requires llr.Some? ==> k <= |llr.value|
    ensures llr.Some? ==> InRange(ps, |llr.value|)
  {
    match llr
    case None => []
    case Some(l) => Selected(l, k)[..k]
  }

  function Decode(p: nat, n: nat, t: seq<Entry>, w: nat, ps: seq<nat>): (r: Decoded)
    requires p > 0 && InRange(ps, n)
  {
    var x := Lookup(p, t, w);
    if x.errs >= 0 then Found(x.errs, if Rem(p, w) == 0 then 0 else 1, x.word)
    else TryMasks(p, n, t, w, ps, 1)
  }

  /** The bit `i` of a word of `n` bits is at one of the positions `ps`. */
  predicate MayFlip(n: nat, ps: seq<nat>, i: nat) { i < n && n - 1 - i in ps }

  predicate InErrors(e: Errors, i: nat) {
    match e
    case Clean => false
    case One(b) => i == b
    case Two(b1, b2) => i == b1 || i == b2
  }

  /** `w` and `c` differ only at positions `ps` and in the bits `e`. */
  ghost predicate Apart(n: nat, w: nat, c: nat, ps: seq<nat>, e: Errors) {
    Within(e, n) && forall i: nat :: Bit(w, i) != Bit(c, i) ==> MayFlip(n, ps, i) || InErrors(e, i)
  }

  /** A codeword that differs from `w` in at most two places outside the positions `ps`. */
  ghost predicate Near(p: nat, n: nat, w: nat, c: nat, ps: seq<nat>)
    requires p > 0
  {
    IsCodeword(p, c) && exists e :: Apart(n, w, c, ps, e)
  }

  lemma WordBit(e: Errors, n: nat, i: nat)
    requires Within(e, n)
    ensures Bit(Word(e), i) <==> InErrors(e, i)
  {
    match e {
      case Clean => ZeroBit(i);
      case One(b) => PowBit(b, i);
      case Two(b1, b2) =>
        TwoBits(b1, b2);
        XorBit(Pow2(b1), Pow2(b2), i);
        PowBit(b1, i);
        PowBit(b2, i);
    }
  }

  lemma FlippedOutside(w: nat, n: nat, ps: seq<nat>, mask: nat, i: nat)
    requires InRange(ps, n) && !MayFlip(n, ps, i)
    ensures Bit(Flipped(w, n, ps, mask, |ps|), i) == Bit(w, i)
  {
    forall b | 0 <= b < |ps|
      ensures n - 1 - ps[b] != i
    {
      assert ps[b] in ps;
    }
    FlippedElsewhere(w, n, ps, mask, |ps|, i);
  }

  /** Correcting a flipped word leads to a codeword near the word received. */
  lemma FlipIsNear(p: nat, n: nat, w: nat, ps: seq<nat>, mask: nat, x: Repair)
    requires p > 0 && InRange(ps, n) && x.errs >= 0 && Answers(p, n, 2, Flipped(w, n, ps, mask, |ps|), x)
    ensures Near(p, n, w, x.word, ps)
  {
    var v := Flipped(w, n, ps, mask, |ps|);
    var e :| RepairsBy(p, n, v, x, e);
    forall i: nat | Bit(w, i) != Bit(x.word, i) && !MayFlip(n, ps, i)
      ensures InErrors(e, i)
    {
      FlippedOutside(w, n, ps, mask, i);
      XorBit(v, Word(e), i);
      WordBit(e, n, i);
    }
    assert Apart(n, w, x.word, ps, e);
  }

  lemma {:induction false} NoFlip(w: nat, n: nat, ps: seq<nat>, k: nat)
    requires InRange(ps, n) && k <= |ps|
    ensures Flipped(w, n, ps, 0, k) == w
  {
    if k > 0 {
      NoFlip(w, n, ps, k - 1);
      ZeroBit(k - 1);
    }
  }

  lemma {:induction false} TriedIsNear(p: nat, n: nat, t: seq<Entry>, w: nat, ps: seq<nat>, mask: nat)
    requires p > 0 && Serves(p, n, 2, t) && Pow2(Degree(p)) <= |t| && InRange(ps, n)
    ensures var r := TryMasks(p, n, t, w, ps, mask); r.Found? ==> r.errs <= 2 && Near(p, n, w, r.word, ps)
    decreases Pow2(|ps|) - mask
  {
    if mask < Pow2(|ps|) {
      var v := Flipped(w, n, ps, mask, |ps|);
      var x := Lookup(p, t, v);
      LookupAnswers(p, n, 2, t, v);
      if x.errs >= 0 {
        FlipIsNear(p, n, w, ps, mask, x);
      } else {
        TriedIsNear(p, n, t, w, ps, mask + 1);
      }
    }
  }

  lemma {:induction false} AllTried(p: nat, n: nat, t: seq<Entry>, w: nat, ps: seq<nat>, from: nat, mask: nat)
    requires p > 0 && InRange(ps, n) && TryMasks(p, n, t, w, ps, from).Failed? && from <= mask < Pow2(|ps|)
    ensures Lookup(p, t, Flipped(w, n, ps, mask, |ps|)).errs < 0
    decreases mask - from
  {
    if from < mask { AllTried(p, n, t, w, ps, from + 1, mask); }
  }

  /** The mask of those positions at which `w` and `c` differ. */
  function MaskTo(w: nat, c: nat, n: nat, ps: seq<nat>, k: nat): (mask: nat)
    requires k <= |ps| && InRange(ps, n)
    decreases |ps| - k
  {
    if k == |ps| then 0
    else
      var i := n - 1 - ps[k];
      2 * MaskTo(w, c, n, ps, k + 1) + if Bit(w, i) != Bit(c, i) then 1 else 0
  }

  lemma {:induction false} MaskBelow(w: nat, c: nat, n: nat, ps: seq<nat>, k: nat)
    requires k <= |ps| && InRange(ps, n)
    ensures MaskTo(w, c, n, ps, k) < Pow2(|ps| - k)
    decreases |ps| - k
  {
    if k < |ps| { MaskBelow(w, c, n, ps, k + 1); }
  }

  lemma {:induction false} MaskBit(w: nat, c: nat, n: nat, ps: seq<nat>, k: nat, b: nat)
    requires k <= b < |ps| && InRange(ps, n)
    ensures Bit(MaskTo(w, c, n, ps, k), b - k) <==> Bit(w, n - 1 - ps[b]) != Bit(c, n - 1 - ps[b])
    decreases |ps| - k
  {
    if k < b { MaskBit(w, c, n, ps, k + 1, b); }
  }

  /** Those of the errors at which `a` and `c` differ. */
  function Restricted(e: Errors, a: nat, c: nat): (r: Errors) {
    match e
    case Clean => Clean
    case One(b) => if Bit(a, b) != Bit(c, b) then One(b) else Clean
    case Two(b1, b2) =>
      if Bit(a, b1) != Bit(c, b1) then if Bit(a, b2) != Bit(c, b2) then Two(b1, b2) else One(b1)
      else if Bit(a, b2) != Bit(c, b2) then One(b2) else Clean
  }

  /** Words that differ only in the bits `e` differ by a pattern of errors. */
  lemma DifferByErrors(n: nat, a: nat, c: nat, e: Errors)
    requires Within(e, n) && forall i: nat :: Bit(a, i) != Bit(c, i) ==> InErrors(e, i)
    ensures var f := Restricted(e, a, c); Within(f, n) && Xor(a, Word(f)) == c
  {
    var f := Restricted(e, a, c);
    forall i: nat
      ensures Bit(Xor(a, Word(f)), i) == Bit(c, i)
    {
      XorBit(a, Word(f), i);
      WordBit(f, n, i);
    }
    SameBits(Xor(a, Word(f)), c);
  }

  /** With the right mask only the errors outside the flipped positions are left. */
  lemma MaskReaches(n: nat, w: nat, c: nat, ps: seq<nat>, e: Errors)
    requires InRange(ps, n) && Distinct(ps) && Apart(n, w, c, ps, e)
    ensures var v := Flipped(w, n, ps, MaskTo(w, c, n, ps, 0), |ps|);
      forall i: nat :: Bit(v, i) != Bit(c, i) ==> InErrors(e, i)
  {
    var mask := MaskTo(w, c, n, ps, 0);
    var v := Flipped(w, n, ps, mask, |ps|);
    forall i: nat | Bit(v, i) != Bit(c, i)
      ensures InErrors(e, i)
    {
      if MayFlip(n, ps, i) {
        var b :| 0 <= b < |ps| && ps[b] == n - 1 - i;
        FlippedAt(w, n, ps, mask, |ps|, b);
        MaskBit(w, c, n, ps, 0, b);
      } else {
        FlippedOutside(w, n, ps, mask, i);
      }
    }
  }

  /** No codeword is near when all masks fail. */
  lemma NoneNear(p: nat, n: nat, t: seq<Entry>, w: nat, ps: seq<nat>, c: nat)
    requires p > 0 && Serves(p, n, 2, t) && Pow2(Degree(p)) <= |t| && InRange(ps, n) && Distinct(ps)
    requires Decode(p, n, t, w, ps).Failed?
    ensures !Near(p, n, w, c, ps)
  {
    if Near(p, n, w, c, ps) {
      var e :| Apart(n, w, c, ps, e);
      var mask := MaskTo(w, c, n, ps, 0);
      var v := Flipped(w, n, ps, mask, |ps|);
      MaskReaches(n, w, c, ps, e);
      DifferByErrors(n, v, c, e);
      assert Mends(p, n, v, Restricted(e, v, c));
      MaskBelow(w, c, n, ps, 0);
      if mask == 0 { NoFlip(w, n, ps, |ps|); } else { AllTried(p, n, t, w, ps, 1, mask); }
      LookupAnswers(p, n, 2, t, v);
    }
  }

  /** What is found is a codeword near the word received; nothing is found exactly when there is none. */
  lemma ChaseSoundComplete(p: nat, n: nat, t: seq<Entry>, w: nat, ps: seq<nat>)
    requires p > 0 && Serves(p, n, 2, t) && Pow2(Degree(p)) <= |t| && InRange(ps, n) && Distinct(ps)
    ensures var r := Decode(p, n, t, w, ps); r.Found? ==> r.errs <= 2 && Near(p, n, w, r.word, ps)
    ensures Decode(p, n, t, w, ps).Failed? <==> forall c :: !Near(p, n, w, c, ps)
  {
    var x := Lookup(p, t, w);
    if x.errs >= 0 {
      LookupAnswers(p, n, 2, t, w);
      NoFlip(w, n, ps, |ps|);
      FlipIsNear(p, n, w, ps, 0, x);
    } else {
      TriedIsNear(p, n, t, w, ps, 1);
    }
    if Decode(p, n, t, w, ps).Failed? {
      forall c
        ensures !Near(p, n, w, c, ps)
      {
        NoneNear(p, n, t, w, ps, c);
      }
    }
  }

  /** With reliabilities or without: the positions tried are the least reliable, and what is found is what there is. */
  lemma ChaseCorrect(p: nat, n: nat, t: seq<Entry>, w: nat, llr: Option<seq<real>>, k: nat)
    requires p > 0 && Serves(p, n, 2, t) && Pow2(Degree(p)) <= |t| && (llr.Some? ==> k <= |llr.value| == n)
    ensures var ps := Candidates(llr, k);
      && (if llr.Some? then |ps| == k && LeastReliable(llr.value, ps) else ps == [])
      && (Decode(p, n, t, w, ps).Found? ==> Near(p, n, w, Decode(p, n, t, w, ps).word, ps))
      && (Decode(p, n, t, w, ps).Failed? <==> forall c :: !Near(p, n, w, c, ps))
  {
    if llr.Some? { SelectedAreLeast(llr.value, k); }
    ChaseSoundComplete(p, n, t, w, Candidates(llr, k));
  }

  // ---------- chase_bch_da ----------

  const IDA_CHASE_FLIP_MAX := 7

  /** A code: its polynomial, the length of a codeword, and how many of its bits are check bits. */
  datatype Code = Code(poly: nat, n: nat, syn: nat) {
    ghost predicate Valid() { 0 < poly < WORD && Degree(poly) == syn < n <= WORD_BITS }

    function Data(): (d: int) { n - syn }
  }

  /** The code of data blocks, BCH(31,20). */
  const DA := Code(BchDistance.BCH_POLY_DA, BchDistance.BLOCK, 11)

  /** The data part of a codeword. */
  function DataOf(code: Code, word: nat): (bits: Bits)
    requires code.syn <= code.n
    ensures |bits| == code.Data()
  {
    BitsOf(Shr(word, code.syn), code.Data())
  }

  /** The inner loop of the selection. */
  method FindLeast(llr: array<real>, from: nat, n: nat, pos: array<nat>, i: nat) returns (minIdx: nat)
    requires from + n <= llr.Length && i < pos.Length && InRange(pos[..], n)
    ensures minIdx == MinIndex(llr[from..from + n], pos[..], i, i + 1)
  {
    ghost var l, p := llr[from..from + n], pos[..];
    minIdx := i;
    for j := i + 1 to pos.Length
      invariant i <= minIdx < j
      invariant MinIndex(l, p, minIdx, j) == MinIndex(l, p, i, i + 1)
    {
      assert p[j] == pos[j] && p[minIdx] == pos[minIdx];
      if llr[from + pos[j]] < llr[from + pos[minIdx]] {
        minIdx := j;
      }
    }
  }

  /** The loops that sort the least reliable positions to the front. */
  method SelectPositions(llr: array<real>, from: nat, n: nat, k: nat) returns (pos: array<nat>)
    requires from + n <= llr.Length && k <= n
    ensures fresh(pos) && pos[..] == Selected(llr[from..from + n], k)
  {
    hide MinIndex;
    ghost var l := llr[from..from + n];
    pos := new nat[n](i => i);
    assert pos[..] == Selected(l, 0);
    for i := 0 to k
      invariant pos[..] == Selected(l, i)
    {
      var minIdx := FindLeast(llr, from, n, pos, i);
      pos[i], pos[minIdx] := pos[minIdx], pos[i];
    }
  }

  lemma {:induction false} FlippedBelow(w: nat, n: nat, ps: seq<nat>, mask: nat, k: nat)
    requires k <= |ps| && InRange(ps, n) && w < Pow2(n)
    ensures Flipped(w, n, ps, mask, k) < Pow2(n)
  {
    if k > 0 {
      FlippedBelow(w, n, ps, mask, k - 1);
      Pow2Grows(n - 1 - ps[k - 1] + 1, n);
      XorBelow(Flipped(w, n, ps, mask, k - 1), Pow2(n - 1 - ps[k - 1]), n);
    }
  }

  /** One try: the inner loop over the bits of `mask`, and the lookup. */
  method TryMask(code: Code, baseVal: nat, flipMask: array<nat>, mask: nat, table: array<Entry>, ghost ps: seq<nat>)
      returns (x: Repair)
    requires code.Valid() && table.Length == Pow2(code.syn) && baseVal < Pow2(code.n) && InRange(ps, code.n) && flipMask.Length == |ps|
    requires forall b :: 0 <= b < |ps| ==> flipMask[b] == Pow2(code.n - 1 - ps[b])
    ensures x == Lookup(code.poly, table[..], Flipped(baseVal, code.n, ps, mask, |ps|))
  {
    var flipped := baseVal;
    for b := 0 to flipMask.Length
      invariant flipped == Flipped(baseVal, code.n, ps, mask, b)
    {
      if Bit(mask, b) {
        flipped := Xor(flipped, flipMask[b]);
      }
    }
    FlippedBelow(baseVal, code.n, ps, mask, |ps|);
    var clean;
    x, clean := LookUp(code, flipped, table);
  }

  method LookUp(code: Code, val: nat, table: array<Entry>) returns (x: Repair, clean: bool)
    requires code.Valid() && table.Length == Pow2(code.syn) && val < Pow2(code.n)
    ensures x == Lookup(code.poly, table[..], val) && clean == (Rem(code.poly, val) == 0)
  {
    WordIsPow2();
    Pow2Grows(code.n, WORD_BITS);
    var syndrome := Gf2Remainder(code.poly, val);
    clean := syndrome == 0;
    if syndrome == 0 {
      x := Repair(0, val);
    } else if syndrome < table.Length && table[syndrome].errs >= 0 {
      x := Repair(table[syndrome].errs, Xor(val, table[syndrome].locator));
    } else {
      x := Repair(-1, val);
    }
  }

  /** What is handed back for a decoding: -1 and no data, or the errors and the data. */
  ghost predicate Reported(code: Code, r: Decoded, errs: int, fixed: nat, out: Bits, was: Bits)
    requires code.Valid()
  {
    match r
    case Failed => errs == -1 && fixed == 0 && out == was
    case Found(e, f, word) => errs == e && fixed == f && out == DataOf(code, word)
  }

  ghost function Reliabilities(llr: array?<real>, from: nat, n: nat): (l: Option<seq<real>>)
    requires llr != null ==> from + n <= llr.Length
    reads llr
    ensures l.Some? ==> |l.value| == n
  {
    if llr == null then None else Some(llr[from..from + n])
  }

  /** `1u << (30 - pos[i])` for the first `k` positions. */
  method FlipMasks(n: nat, pos: array<nat>, k: nat) returns (flipMask: array<nat>)
    requires k <= pos.Length && k <= n && InRange(pos[..], n)
    ensures flipMask.Length == k && fresh(flipMask)
    ensures forall b :: 0 <= b < k ==> flipMask[b] == Pow2(n - 1 - pos[..k][b])
  {
    flipMask := new nat[k];
    for i := 0 to k
      invariant forall b :: 0 <= b < i ==> flipMask[b] == Pow2(n - 1 - pos[b])
    {
      assert pos[..][i] == pos[i];
      flipMask[i] := Pow2(n - 1 - pos[i]);
    }
  }

  /** The masks in order. */
  method TryAll(code: Code, baseVal: nat, flipMask: array<nat>, table: array<Entry>, ghost ps: seq<nat>) returns (r: Decoded)
    requires code.Valid() && table.Length == Pow2(code.syn) && baseVal < Pow2(code.n) && InRange(ps, code.n) && flipMask.Length == |ps|
    requires forall b :: 0 <= b < |ps| ==> flipMask[b] == Pow2(code.n - 1 - ps[b])
    ensures r == TryMasks(code.poly, code.n, table[..], baseVal, ps, 1)
  {
    var k := flipMask.Length;
    ghost var t := table[..];
    var mask := 1;
    while mask < Pow2(k)
      invariant TryMasks(code.poly, code.n, t, baseVal, ps, mask) == TryMasks(code.poly, code.n, t, baseVal, ps, 1)
      decreases Pow2(k) - mask
    {
      var x := TryMask(code, baseVal, flipMask, mask, table, ps);
      if x.errs >= 0 {
        return Found(x.errs, 1, x.word);
      }
      mask := mask + 1;
    }
    return Failed;
  }

  /** The search with soft input. */
  method SoftSearch(code: Code, baseVal: nat, llr: array<real>, from: nat, k: nat, table: array<Entry>) returns (r: Decoded)
    requires baseVal < Pow2(code.n) && from + code.n <= llr.Length && k <= code.n
    requires code.Valid() && table.Length == Pow2(code.syn)
    ensures r == TryMasks(code.poly, code.n, table[..], baseVal, Selected(llr[from..from + code.n], k)[..k], 1)
  {
    var pos := SelectPositions(llr, from, code.n, k);
    ghost var ps := pos[..][..k];
    var flipMask := FlipMasks(code.n, pos, k);
    assert pos[..k] == ps;
    r := TryAll(code, baseVal, flipMask, table, ps);
  }

  /** The decision, before the data is written. */
  method Decide(code: Code, val: nat, llr: array?<real>, from: nat, useChase: nat, table: array<Entry>) returns (r: Decoded)
    requires val < Pow2(code.n) && (llr != null ==> from + code.n <= llr.Length)
    requires useChase <= code.n && code.Valid() && table.Length == Pow2(code.syn)
    ensures r == Decode(code.poly, code.n, table[..], val, Candidates(Reliabilities(llr, from, code.n), useChase))
  {
    hide Lookup, TryMasks, Selected, Rem, Pow2;
    var x, clean := LookUp(code, val, table);
    if x.errs >= 0 {
      r := Found(x.errs, if clean then 0 else 1, x.word);
    } else if llr != null {
      r := SoftSearch(code, val, llr, from, useChase, table);
    } else {
      NothingToTry(code.poly, code.n, table[..], val);
      r := Failed;
    }
  }

  lemma NothingToTry(p: nat, n: nat, t: seq<Entry>, w: nat)
    requires p > 0
    ensures TryMasks(p, n, t, w, [], 1) == Failed
  {
  }

  method WriteData(code: Code, r: Decoded, outData: array<nat>) returns (errs: int, fixed: nat)
    requires code.Valid() && outData.Length == code.Data()
    modifies outData
    ensures Reported(code, r, errs, fixed, outData[..], old(outData[..]))
  {
    match r {
      case Failed => errs, fixed := -1, 0;
      case Found(e, f, word) =>
        errs, fixed := e, f;
        UintToBits(Shr(word, code.syn), outData, code.Data());
    }
  }

  /** `chase_bch_da` */
  method ChaseBchDa(code: Code, block: array<nat>, llr: array?<real>, from: nat, useChase: nat, table: array<Entry>,
                    outData: array<nat>)
      returns (errs: int, fixed: nat)
    requires code.Valid() && from + code.n <= block.Length && (llr != null ==> from + code.n <= llr.Length)
    requires useChase <= IDA_CHASE_FLIP_MAX && useChase <= code.n && table.Length == Pow2(code.syn)
    requires outData.Length == code.Data() && outData != block
    modifies outData
    ensures Reported(code, Decode(code.poly, code.n, table[..], Value(block[from..], code.n),
                                  Candidates(Reliabilities(llr, from, code.n), useChase)),
                     errs, fixed, outData[..], old(outData[..]))
  {
    var val := BitsToUint(block, from, code.n);
    ValueBelow(block[from..], code.n);
    var r := Decide(code, val, llr, from, useChase, table);
    errs, fixed := WriteData(code, r, outData);
    assert block[from..] == old(block[from..]);
  }
}
