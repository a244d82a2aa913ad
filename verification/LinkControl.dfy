/**
 The third part of the link control word (ida_decode.c): its table is built for two errors with the polynomial 41, which
 can tell them apart in at most five bits.
 */
module LinkControl {
  import opened Gf2
  import opened Gf2Division
  import opened Bch
  import opened BchDistance

  const BCH_LCW3_BITS := 26
  const BCH_LCW3_TABLE := 32

  /** Errors in few bits are their own remainders. */
  lemma FewBits(e: Errors, n: nat)
    requires Within(e, n) && n <= 5
    ensures Syndrome(FIRST, e) == Word(e)
  {
    BitsOf41();
    if e != Clean {
      TopBounds(e, n);
      Pow2Grows(Top(e) + 1, 5);
    }
    RemSmall(FIRST, Word(e));
  }

  lemma FewSeparate(n: nat)
    requires n <= 5
    ensures Separates(FIRST, n)
  {
    hide Rem, Pow2, Word;
    forall e, f | Within(e, n) && Within(f, n) && Syndrome(FIRST, e) == Syndrome(FIRST, f)
      ensures e == f
    {
      FewBits(e, n);
      FewBits(f, n);
      WordsDiffer(e, f, n);
    }
  }

  lemma ManyConfused(n: nat)
    requires n > 5
    ensures !Separates(FIRST, n)
  {
    hide Rem, Pow2, Locator, FromNat, Word, Add;
    Relation();
    Confused(5, 0, 3);
    assert Within(One(5), n) && Within(Two(0, 3), n);
  }

  /** Two errors can be told apart in at most five bits. */
  lemma SeparatesIff(n: nat)
    ensures Separates(FIRST, n) <==> n <= 5
  {
    if n <= 5 { FewSeparate(n); } else { ManyConfused(n); }
  }

  /** The table takes back all errors of weight at most two in `n` bits exactly when these are at most five. */
  lemma TwoErrorsIff(n: nat, t: seq<Entry>)
    requires Serves(FIRST, n, 2, t) && |t| == BCH_LCW3_TABLE
    ensures n <= 5 <==> forall c, e :: IsCodeword(FIRST, c) && Within(e, n) ==> TakesBack(FIRST, t, c, e)
  {
    TableCovers();
    SeparatesIff(n);
    TakesBackIff(FIRST, n, t);
  }

  lemma TableCovers()
    ensures Pow2(Degree(FIRST)) == BCH_LCW3_TABLE
  {
    BitsOf41();
    assert Pow2(5) == 32;
  }

  /** Where a single bit leaves the remainder, the table names that bit. */
  lemma SingleNamed(n: nat, t: seq<Entry>, b: nat)
    requires Serves(FIRST, n, 2, t) && |t| == BCH_LCW3_TABLE && b < n <= BLOCK
    ensures var r := Syndrome(FIRST, One(b)); 0 < r < |t| && t[r] == Entry(1, Pow2(b))
  {
    hide Rem, Pow2, Locator, FromNat;
    var r := Syndrome(FIRST, One(b));
    SingleShows(b);
    assert Listed(FIRST, t, One(b));
    assert Explained(FIRST, n, r, t[r]);
    var e :| Explains(FIRST, n, r, t[r], e);
    SinglesDiffer(e.b, b);
  }

  lemma SingleShows(b: nat)
    ensures 0 < Syndrome(FIRST, One(b)) < BCH_LCW3_TABLE
  {
    RemBelow32(Pow2(b));
    RemIsLocator(b);
    LocatorNotZero(b);
    ZeroIsZero();
    hide Rem, Pow2, Locator, FromNat;
  }

  lemma ZeroIsZero()
    ensures FromNat(0) == ZERO
  {
  }

  lemma SinglesDiffer(i: nat, j: nat)
    requires i < BLOCK && j < BLOCK && Syndrome(FIRST, One(i)) == Syndrome(FIRST, One(j))
    ensures i == j
  {
    hide Rem, Pow2, Locator, FromNat;
    RemIsLocator(i);
    RemIsLocator(j);
    SameLocator(i, j);
  }

  /** A single error is always taken back. */
  lemma OneErrorTaken(n: nat, t: seq<Entry>, c: nat, b: nat)
    requires Serves(FIRST, n, 2, t) && |t| == BCH_LCW3_TABLE && b < n <= BLOCK && IsCodeword(FIRST, c)
    ensures TakesBack(FIRST, t, c, One(b))
  {
    SingleNamed(n, t, b);
    CodewordHides(FIRST, c, One(b));
    XorCancel(c, Pow2(b));
  }

  /** Two errors that leave what a third bit leaves are answered with that bit, and so made three. */
  lemma PairMistaken(n: nat, t: seq<Entry>, c: nat, i: nat, j: nat, k: nat)
    requires Serves(FIRST, n, 2, t) && |t| == BCH_LCW3_TABLE && n <= BLOCK && i < j < n && k < n && IsCodeword(FIRST, c)
    requires Syndrome(FIRST, Two(i, j)) == Syndrome(FIRST, One(k))
    ensures Lookup(FIRST, t, Xor(c, Word(Two(i, j)))) == Repair(1, Xor(Xor(c, Word(Two(i, j))), Pow2(k)))
    ensures !TakesBack(FIRST, t, c, Two(i, j))
  {
    SingleNamed(n, t, k);
    CodewordHides(FIRST, c, Two(i, j));
  }

  /** An input: the codeword 0 with bits 0 and 3 wrong is taken for the codeword 41 with bit 5 wrong. */
  lemma NineIsMistaken(t: seq<Entry>)
    requires Serves(FIRST, BCH_LCW3_BITS, 2, t) && |t| == BCH_LCW3_TABLE
    ensures Lookup(FIRST, t, 9) == Repair(1, 41) && IsCodeword(FIRST, 41) && Word(Two(0, 3)) == 9
    ensures !TakesBack(FIRST, t, 0, Two(0, 3))
  {
    hide Rem, Pow2, Locator, FromNat, Xor, Lookup, Serves, Word, TakesBack;
    Relation();
    Confused(5, 0, 3);
    Numbers();
    PairMistaken(BCH_LCW3_BITS, t, 0, 0, 3, 5);
  }

  lemma Numbers()
    ensures Word(Two(0, 3)) == 9 && Pow2(5) == 32 && Xor(0, 9) == 9 && Xor(9, 32) == 41
    ensures IsCodeword(FIRST, 0) && IsCodeword(FIRST, 41)
  {
    assert Pow2(3) == 8;
    RemShl(FIRST, 0);
  }
}
