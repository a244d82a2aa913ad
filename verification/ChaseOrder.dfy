/**
 Which codeword Chase decoding returns: the masks are tried in the order of their numbers, so it is
 a codeword within two errors of the word flipped by the least mask for which there is one. Stated
 on bits, without the search.
 */
module ChaseOrder {
  import opened Gf2
  import opened Gf2Division
  import opened Bch
  import opened Chase

  /** The mask names the bit `i` of a word of `n` bits through one of the positions `ps`. */
  predicate Named(n: nat, ps: seq<nat>, mask: nat, i: nat) {
    exists b :: 0 <= b < |ps| && Bit(mask, b) && ps[b] + i + 1 == n
  }

  /** `v` is `w` with exactly the bits flipped that the mask names. */
  ghost predicate FlippedBy(n: nat, w: nat, v: nat, ps: seq<nat>, mask: nat) {
    forall i: nat :: Bit(v, i) != Bit(w, i) <==> Named(n, ps, mask, i)
  }

  /** `c` is a codeword that differs from `v` in exactly the bits `e`, at most two. */
  ghost predicate Reaches(p: nat, n: nat, v: nat, c: nat, e: Errors)
    requires p > 0
  {
    IsCodeword(p, c) && Within(e, n) && forall i: nat :: Bit(v, i) != Bit(c, i) <==> InErrors(e, i)
  }

  /** Flipping by the mask leads within two errors `e` of the codeword `c`. */
  ghost predicate Hits(p: nat, n: nat, w: nat, ps: seq<nat>, mask: nat, c: nat, e: Errors)
    requires p > 0
  {
    exists v :: FlippedBy(n, w, v, ps, mask) && Reaches(p, n, v, c, e)
  }

  ghost predicate NoneBefore(p: nat, n: nat, w: nat, ps: seq<nat>, mask: nat)
    requires p > 0
  {
    forall m: nat, c, e :: m < mask ==> !Hits(p, n, w, ps, m, c, e)
  }

  lemma NamedMayFlip(n: nat, ps: seq<nat>, mask: nat, i: nat)
    requires Named(n, ps, mask, i)
    ensures MayFlip(n, ps, i)
  {
  }

  lemma NamedAt(n: nat, ps: seq<nat>, mask: nat, b: nat)
    requires InRange(ps, n) && Distinct(ps) && b < |ps|
    ensures Named(n, ps, mask, n - 1 - ps[b]) <==> Bit(mask, b)
  {
  }

  /** The search flips what the mask names. */
  lemma FlippedIs(n: nat, w: nat, ps: seq<nat>, mask: nat)
    requires InRange(ps, n) && Distinct(ps)
    ensures FlippedBy(n, w, Flipped(w, n, ps, mask, |ps|), ps, mask)
  {
    hide Flipped, Named;
    var v := Flipped(w, n, ps, mask, |ps|);
    forall i: nat
      ensures Bit(v, i) != Bit(w, i) <==> Named(n, ps, mask, i)
    {
      if MayFlip(n, ps, i) {
        var b :| 0 <= b < |ps| && ps[b] == n - 1 - i;
        FlippedAt(w, n, ps, mask, |ps|, b);
        NamedAt(n, ps, mask, b);
      } else {
        FlippedOutside(w, n, ps, mask, i);
        if Named(n, ps, mask, i) { NamedMayFlip(n, ps, mask, i); }
      }
    }
  }

  lemma FlippedOnce(n: nat, w: nat, v: nat, v': nat, ps: seq<nat>, mask: nat)
    requires FlippedBy(n, w, v, ps, mask) && FlippedBy(n, w, v', ps, mask)
    ensures v == v'
  {
    SameBits(v, v');
  }

  lemma RepairReaches(p: nat, n: nat, v: nat, x: Repair, e: Errors)
    requires p > 0 && RepairsBy(p, n, v, x, e)
    ensures Reaches(p, n, v, x.word, e) && x.errs == Weight(e)
  {
    forall i: nat
      ensures Bit(v, i) != Bit(x.word, i) <==> InErrors(e, i)
    {
      XorBit(v, Word(e), i);
      WordBit(e, n, i);
    }
  }

  lemma ReachesMends(p: nat, n: nat, v: nat, c: nat, e: Errors)
    requires p > 0 && Reaches(p, n, v, c, e)
    ensures Xor(v, Word(e)) == c && Mends(p, n, v, e) && Weight(e) <= 2
  {
    forall i: nat
      ensures Bit(Xor(v, Word(e)), i) == Bit(c, i)
    {
      XorBit(v, Word(e), i);
      WordBit(e, n, i);
    }
    SameBits(Xor(v, Word(e)), c);
  }

  /** The table answers for a mask exactly when the mask hits, and then with what it hits. */
  lemma LookupHits(p: nat, n: nat, t: seq<Entry>, w: nat, ps: seq<nat>, mask: nat) returns (e: Errors)
    requires p > 0 && Serves(p, n, 2, t) && Pow2(Degree(p)) <= |t| && InRange(ps, n) && Distinct(ps)
    ensures var x := Lookup(p, t, Flipped(w, n, ps, mask, |ps|));
      if x.errs >= 0 then x.errs == Weight(e) && Hits(p, n, w, ps, mask, x.word, e)
      else forall c, f :: !Hits(p, n, w, ps, mask, c, f)
  {
    hide Lookup, Flipped, Serves, FlippedBy, Reaches, Mends, RepairsBy, Within, Word;
    var v := Flipped(w, n, ps, mask, |ps|);
    var x := Lookup(p, t, v);
    e := Clean;
    FlippedIs(n, w, ps, mask);
    LookupAnswers(p, n, 2, t, v);
    if x.errs >= 0 {
      e :| RepairsBy(p, n, v, x, e);
      RepairReaches(p, n, v, x, e);
    } else {
      forall c, f
        ensures !Hits(p, n, w, ps, mask, c, f)
      {
        if Hits(p, n, w, ps, mask, c, f) {
          var v' :| FlippedBy(n, w, v', ps, mask) && Reaches(p, n, v', c, f);
          FlippedOnce(n, w, v, v', ps, mask);
          ReachesMends(p, n, v, c, f);
        }
      }
    }
  }

  /** The search stops at the first mask that the table answers for. */
  lemma {:induction false} StopsAtFirst(p: nat, n: nat, t: seq<Entry>, w: nat, ps: seq<nat>, from: nat) returns (m: nat)
    requires p > 0 && InRange(ps, n) && TryMasks(p, n, t, w, ps, from).Found?
    ensures from <= m < Pow2(|ps|)
    ensures var x := Lookup(p, t, Flipped(w, n, ps, m, |ps|)); x.errs >= 0 && TryMasks(p, n, t, w, ps, from) == Found(x.errs, 1, x.word)
    ensures forall i: nat :: from <= i < m ==> Lookup(p, t, Flipped(w, n, ps, i, |ps|)).errs < 0
    decreases Pow2(|ps|) - from
  {
    hide Lookup, Flipped;
    m := from;
    if Lookup(p, t, Flipped(w, n, ps, from, |ps|)).errs < 0 { m := StopsAtFirst(p, n, t, w, ps, from + 1); }
  }

  /** Without a mask the word is as it was. */
  lemma FirstMask(p: nat, n: nat, t: seq<Entry>, w: nat, ps: seq<nat>) returns (m: nat)
    requires p > 0 && InRange(ps, n) && Decode(p, n, t, w, ps).Found?
    ensures m < Pow2(|ps|)
    ensures var x, r := Lookup(p, t, Flipped(w, n, ps, m, |ps|)), Decode(p, n, t, w, ps);
      x.errs >= 0 && r == Found(x.errs, if Rem(p, w) == 0 then 0 else 1, x.word)
    ensures forall i: nat :: i < m ==> Lookup(p, t, Flipped(w, n, ps, i, |ps|)).errs < 0
  {
    hide Flipped, TryMasks, Rem, Pow2;
    m := 0;
    NoFlip(w, n, ps, |ps|);
    if Lookup(p, t, w).errs < 0 { m := StopsAtFirst(p, n, t, w, ps, 1); }
  }

  lemma CleanIsItself(p: nat, n: nat, t: seq<Entry>, w: nat, ps: seq<nat>)
    requires p > 0 && InRange(ps, n) && Rem(p, w) == 0
    ensures Decode(p, n, t, w, ps) == Found(0, 0, w)
  {
  }

  /**
   What is found belongs to the least mask that hits, with the errors corrected, and is marked as repaired unless it is
   the word itself.
   */
  lemma ChaseFirst(p: nat, n: nat, t: seq<Entry>, w: nat, ps: seq<nat>) returns (m: nat, e: Errors)
    requires p > 0 && Serves(p, n, 2, t) && Pow2(Degree(p)) <= |t| && InRange(ps, n) && Distinct(ps)
    requires Decode(p, n, t, w, ps).Found?
    ensures m < Pow2(|ps|) && NoneBefore(p, n, w, ps, m)
    ensures var r := Decode(p, n, t, w, ps);
      Hits(p, n, w, ps, m, r.word, e) && r.errs == Weight(e) && r.fixed == if r.word == w then 0 else 1
  {
    hide Lookup, Flipped, TryMasks, Serves, Hits, Decode, Pow2, Rem;
    var r := Decode(p, n, t, w, ps);
    m := FirstMask(p, n, t, w, ps);
    e := LookupHits(p, n, t, w, ps, m);
    forall i: nat, c, f | i < m
      ensures !Hits(p, n, w, ps, i, c, f)
    {
      var _ := LookupHits(p, n, t, w, ps, i);
    }
    if Rem(p, w) == 0 { CleanIsItself(p, n, t, w, ps); }
    HitIsCodeword(p, n, w, ps, m, r.word, e);
  }

  lemma HitIsCodeword(p: nat, n: nat, w: nat, ps: seq<nat>, m: nat, c: nat, e: Errors)
    requires p > 0 && Hits(p, n, w, ps, m, c, e)
    ensures Rem(p, c) == 0
  {
  }

  /** Of a code that separates errors the first hit fixes the answer. */
  lemma HitIsUnique(p: nat, n: nat, w: nat, ps: seq<nat>, m: nat, c: nat, e: Errors, d: nat, f: Errors)
    requires p > 0 && Separates(p, n) && Hits(p, n, w, ps, m, c, e) && Hits(p, n, w, ps, m, d, f)
    ensures c == d && e == f
  {
    hide FlippedBy, Reaches, Separates, Mends, Within, Word, Weight;
    var v :| FlippedBy(n, w, v, ps, m) && Reaches(p, n, v, c, e);
    var u :| FlippedBy(n, w, u, ps, m) && Reaches(p, n, u, d, f);
    FlippedOnce(n, w, v, u, ps, m);
    ReachesMends(p, n, v, c, e);
    ReachesMends(p, n, v, d, f);
    OneMends(p, n, v, e, f);
  }

  lemma OneMends(p: nat, n: nat, v: nat, e: Errors, f: Errors)
    requires p > 0 && Separates(p, n) && Mends(p, n, v, e) && Mends(p, n, v, f)
    ensures e == f
  {
    ErrorsShow(p, v, e);
    ErrorsShow(p, v, f);
  }

  /** The answer for every word, in both directions: the least mask that hits, or none. */
  lemma ChaseIs(p: nat, n: nat, t: seq<Entry>, w: nat, ps: seq<nat>, m: nat, c: nat, e: Errors)
    requires p > 0 && Serves(p, n, 2, t) && Pow2(Degree(p)) <= |t| && InRange(ps, n) && Distinct(ps) && Separates(p, n)
    requires m < Pow2(|ps|) && Hits(p, n, w, ps, m, c, e) && NoneBefore(p, n, w, ps, m)
    ensures Decode(p, n, t, w, ps) == Found(Weight(e), if c == w then 0 else 1, c)
  {
    hide Lookup, Flipped, TryMasks, Serves, Hits, Decode, Pow2, Separates, Near;
    FoundWhenHit(p, n, t, w, ps, m, c, e);
    var m', f := ChaseFirst(p, n, t, w, ps);
    HitIsUnique(p, n, w, ps, m, c, e, Decode(p, n, t, w, ps).word, f);
  }

  lemma FoundWhenHit(p: nat, n: nat, t: seq<Entry>, w: nat, ps: seq<nat>, m: nat, c: nat, e: Errors)
    requires p > 0 && Serves(p, n, 2, t) && Pow2(Degree(p)) <= |t| && InRange(ps, n) && Distinct(ps)
    requires m < Pow2(|ps|) && Hits(p, n, w, ps, m, c, e)
    ensures Decode(p, n, t, w, ps).Found?
  {
    hide Lookup, Flipped, TryMasks, Serves, Hits, Decode, Pow2;
    HitIsNear(p, n, w, ps, m, c, e);
    ChaseSoundComplete(p, n, t, w, ps);
  }

  lemma HitIsNear(p: nat, n: nat, w: nat, ps: seq<nat>, m: nat, c: nat, e: Errors)
    requires p > 0 && Hits(p, n, w, ps, m, c, e)
    ensures Near(p, n, w, c, ps)
  {
    var v :| FlippedBy(n, w, v, ps, m) && Reaches(p, n, v, c, e);
    forall i: nat | Bit(w, i) != Bit(c, i)
      ensures MayFlip(n, ps, i) || InErrors(e, i)
    {
      if Named(n, ps, m, i) { NamedMayFlip(n, ps, m, i); }
    }
    assert Apart(n, w, c, ps, e);
  }
}
