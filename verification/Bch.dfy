/**
 Error correction by syndromes (frame_decode.c, ida_decode.c, bch.py): the table that maps a remainder
 to the bits in error, and the searches by brute force it stands for, for any polynomial and length.
 */
module Bch {
  import opened Gf2
  import opened Gf2Division

  /** The positions of up to two wrong bits. */
  datatype Errors = Clean | One(b: nat) | Two(b1: nat, b2: nat)

  predicate Within(e: Errors, n: nat) {
    match e
    case Clean => true
    case One(b) => b < n
    case Two(b1, b2) => b1 < b2 < n
  }

  function Weight(e: Errors): (w: nat) {
    match e case Clean => 0 case One(_) => 1 case Two(_, _) => 2
  }

  /** The word with those bits set: `(1 << b1) | (1 << b2)`. */
  function Word(e: Errors): (w: nat) {
    match e
    case Clean => 0
    case One(b) => Pow2(b)
    case Two(b1, b2) => Pow2(b1) + Pow2(b2)
  }

  /** The remainder those errors leave in any codeword. */
  function Syndrome(p: nat, e: Errors): (r: nat)
    requires p > 0
  {
    Rem(p, Word(e))
  }

  /** No two patterns of at most two errors in `n` bits look the same: the code corrects two errors. */
  ghost predicate Separates(p: nat, n: nat)
    requires p > 0
  {
    forall e, f :: Within(e, n) && Within(f, n) && Syndrome(p, e) == Syndrome(p, f) ==> e == f
  }

  predicate IsCodeword(p: nat, w: nat)
    requires p > 0
  {
    Rem(p, w) == 0
  }

  /** What a word leaves is what its errors leave. */
  lemma ErrorsShow(p: nat, w: nat, e: Errors)
    requires p > 0
    ensures Rem(p, w) == Syndrome(p, e) <==> IsCodeword(p, Xor(w, Word(e)))
  {
    RemLinear(p, w, Word(e));
    if Rem(p, w) == Syndrome(p, e) {
      XorSelf(Rem(p, w));
    } else if Xor(Rem(p, w), Syndrome(p, e)) == 0 {
      XorEqual(Rem(p, w), Syndrome(p, e));
      assert false;
    }
  }

  // ---------- the table ----------

  /** `errs` is -1 where nothing is known to correct the remainder. */
  datatype Entry = Entry(errs: int, locator: nat)

  const UNKNOWN := Entry(-1, 0)

  /** `x` names the errors `e`, which leave the remainder `r`. */
  ghost predicate Explains(p: nat, n: nat, r: nat, x: Entry, e: Errors)
    requires p > 0
  {
    e != Clean && Within(e, n) && Syndrome(p, e) == r && x == Entry(Weight(e), Word(e))
  }

  ghost predicate Explained(p: nat, n: nat, r: nat, x: Entry)
    requires p > 0
  {
    x == UNKNOWN || exists e :: Explains(p, n, r, x, e)
  }

  /** Every entry is true. */
  ghost predicate Sound(p: nat, n: nat, t: seq<Entry>)
    requires p > 0
  {
    forall r :: 0 <= r < |t| ==> Explained(p, n, r, t[r])
  }

  /** The entry for the errors `e` corrects with no more errors than `e` has. */
  ghost predicate Listed(p: nat, t: seq<Entry>, e: Errors)
    requires p > 0
  {
    Syndrome(p, e) < |t| ==> 1 <= t[Syndrome(p, e)].errs <= Weight(e)
  }

  /** The errors the loops have reached before the pair `i`, `j`. */
  predicate Reached(e: Errors, i: nat, j: nat) {
    match e
    case Clean => false
    case One(_) => true
    case Two(b1, b2) => b1 < i || (b1 == i && b2 < j)
  }

  ghost predicate ListsOnes(p: nat, t: seq<Entry>, k: nat)
    requires p > 0
  {
    forall b :: 0 <= b < k ==> Listed(p, t, One(b))
  }

  ghost predicate Lists(p: nat, n: nat, t: seq<Entry>, i: nat, j: nat)
    requires p > 0
  {
    forall e :: Within(e, n) && Reached(e, i, j) ==> Listed(p, t, e)
  }

  /** The table serves `m` errors in `n` bits: its entries are true and no correctable remainder is missing. */
  ghost predicate Serves(p: nat, n: nat, m: nat, t: seq<Entry>)
    requires p > 0
  {
    && Sound(p, n, t)
    && AtMost(t, m)
    && (forall e :: Within(e, n) && e != Clean && Weight(e) <= m ==> Listed(p, t, e))
  }

  ghost predicate AtMost(t: seq<Entry>, m: nat) {
    forall r :: 0 <= r < |t| ==> t[r].errs <= m
  }

  function SetOne(p: nat, t: seq<Entry>, b: nat): (t': seq<Entry>)
    requires p > 0
    ensures |t'| == |t|
  {
    var r := Rem(p, Pow2(b));
    if r < |t| then t[r := Entry(1, Pow2(b))] else t
  }

  function SetTwo(p: nat, t: seq<Entry>, b1: nat, b2: nat): (t': seq<Entry>)
    requires p > 0
    ensures |t'| == |t|
  {
    var r := Rem(p, Pow2(b1) + Pow2(b2));
    if r < |t| && t[r].errs < 0 then t[r := Entry(2, Pow2(b1) + Pow2(b2))] else t
  }

  lemma SetOneKeeps(p: nat, n: nat, t: seq<Entry>, b: nat)
    requires p > 0 && b < n && Sound(p, n, t) && ListsOnes(p, t, b)
    ensures Sound(p, n, SetOne(p, t, b)) && ListsOnes(p, SetOne(p, t, b), b + 1)
  {
    var t' := SetOne(p, t, b);
    if Syndrome(p, One(b)) < |t| {
      assert Explains(p, n, Syndrome(p, One(b)), Entry(1, Pow2(b)), One(b));
    }
    forall k | 0 <= k < b + 1
      ensures Listed(p, t', One(k))
    {
      if k < b { assert Listed(p, t, One(k)); }
    }
  }

  lemma SetTwoKeeps(p: nat, n: nat, t: seq<Entry>, i: nat, j: nat)
    requires p > 0 && i < j < n && Sound(p, n, t) && Lists(p, n, t, i, j)
    ensures Sound(p, n, SetTwo(p, t, i, j)) && Lists(p, n, SetTwo(p, t, i, j), i, j + 1)
  {
    var t' := SetTwo(p, t, i, j);
    var r := Syndrome(p, Two(i, j));
    if r < |t| {
      assert Explains(p, n, r, Entry(2, Pow2(i) + Pow2(j)), Two(i, j));
      assert Explained(p, n, r, t[r]);
    }
    forall e | Within(e, n) && Reached(e, i, j + 1)
      ensures Listed(p, t', e)
    {
      if e != Two(i, j) { assert Listed(p, t, e); }
    }
  }

  /** Every entry comes from errors the loops have reached before the pair `i`, `j`. */
  ghost predicate Traced(p: nat, n: nat, t: seq<Entry>, i: nat, j: nat)
    requires p > 0
  {
    forall r :: 0 <= r < |t| && t[r] != UNKNOWN ==> exists e :: Explains(p, n, r, t[r], e) && Reached(e, i, j)
  }

  lemma {:induction false} TracedOn(p: nat, n: nat, t: seq<Entry>, i: nat, j: nat, i': nat, j': nat)
    requires p > 0 && Traced(p, n, t, i, j) && (i < i' || (i == i' && j <= j'))
    ensures Traced(p, n, t, i', j')
  {
    forall r | 0 <= r < |t| && t[r] != UNKNOWN
      ensures exists e :: Explains(p, n, r, t[r], e) && Reached(e, i', j')
    {
      var e :| Explains(p, n, r, t[r], e) && Reached(e, i, j);
      assert Reached(e, i', j');
    }
  }

  lemma SetOneTraced(p: nat, n: nat, t: seq<Entry>, b: nat)
    requires p > 0 && b < n && Traced(p, n, t, 0, 0)
    ensures Traced(p, n, SetOne(p, t, b), 0, 0)
  {
    var t', r := SetOne(p, t, b), Syndrome(p, One(b));
    if r < |t| { assert Explains(p, n, r, t'[r], One(b)) && Reached(One(b), 0, 0); }
  }

  lemma SetTwoTraced(p: nat, n: nat, t: seq<Entry>, i: nat, j: nat)
    requires p > 0 && i < j < n && Traced(p, n, t, i, j)
    ensures Traced(p, n, SetTwo(p, t, i, j), i, j + 1)
  {
    var t', r := SetTwo(p, t, i, j), Syndrome(p, Two(i, j));
    TracedOn(p, n, t, i, j, i, j + 1);
    if r < |t| && t[r].errs < 0 { assert Explains(p, n, r, t'[r], Two(i, j)) && Reached(Two(i, j), i, j + 1); }
  }

  // ---------- which errors an entry names ----------

  /** No later single bit below `k` leaves the same remainder. */
  ghost predicate LastOne(p: nat, b: nat, k: nat)
    requires p > 0
  {
    forall c :: b < c < k ==> Syndrome(p, One(c)) != Syndrome(p, One(b))
  }

  /** No single bit, and no earlier pair, leaves the same remainder. */
  ghost predicate FirstTwo(p: nat, n: nat, e: Errors)
    requires p > 0 && e.Two?
  {
    && (forall b :: 0 <= b < n ==> Syndrome(p, One(b)) != Syndrome(p, e))
    && forall f: Errors :: f.Two? && Within(f, n) && Reached(f, e.b1, e.b2) ==> Syndrome(p, f) != Syndrome(p, e)
  }

  /** The table has the entry for `e`, if it reaches that far. */
  ghost predicate Names(p: nat, t: seq<Entry>, e: Errors)
    requires p > 0
  {
    Syndrome(p, e) < |t| ==> t[Syndrome(p, e)] == Entry(Weight(e), Word(e))
  }

  ghost predicate NamesOnes(p: nat, t: seq<Entry>, k: nat)
    requires p > 0
  {
    forall b :: 0 <= b < k && LastOne(p, b, k) ==> Names(p, t, One(b))
  }

  ghost predicate NamesTwos(p: nat, n: nat, t: seq<Entry>, i: nat, j: nat)
    requires p > 0
  {
    forall e: Errors :: e.Two? && Within(e, n) && Reached(e, i, j) && FirstTwo(p, n, e) ==> Names(p, t, e)
  }

  lemma SetOneNames(p: nat, t: seq<Entry>, b: nat)
    requires p > 0 && NamesOnes(p, t, b)
    ensures NamesOnes(p, SetOne(p, t, b), b + 1)
  {
    forall c | 0 <= c < b + 1 && LastOne(p, c, b + 1)
      ensures Names(p, SetOne(p, t, b), One(c))
    {
      if c < b {
        assert Syndrome(p, One(b)) != Syndrome(p, One(c));
        assert LastOne(p, c, b);
      }
    }
  }

  lemma SetTwoNames(p: nat, n: nat, t: seq<Entry>, i: nat, j: nat)
    requires p > 0 && i < j < n && Traced(p, n, t, i, j) && NamesOnes(p, t, n) && NamesTwos(p, n, t, i, j)
    ensures NamesOnes(p, SetTwo(p, t, i, j), n) && NamesTwos(p, n, SetTwo(p, t, i, j), i, j + 1)
  {
    var t' := SetTwo(p, t, i, j);
    hide SetTwo, FirstTwo, LastOne, Traced;
    forall b | 0 <= b < n && LastOne(p, b, n)
      ensures Names(p, t', One(b))
    {
      NamesStay(p, t, i, j, One(b));
    }
    forall e: Errors | e.Two? && Within(e, n) && Reached(e, i, j + 1) && FirstTwo(p, n, e)
      ensures Names(p, t', e)
    {
      if e == Two(i, j) {
        FirstNamed(p, n, t, i, j);
      } else {
        NamesStay(p, t, i, j, e);
      }
    }
  }

  lemma NamesStay(p: nat, t: seq<Entry>, i: nat, j: nat, e: Errors)
    requires p > 0 && Names(p, t, e)
    ensures Names(p, SetTwo(p, t, i, j), e)
  {
  }

  lemma FirstNamed(p: nat, n: nat, t: seq<Entry>, i: nat, j: nat)
    requires p > 0 && i < j < n && Traced(p, n, t, i, j) && FirstTwo(p, n, Two(i, j))
    ensures Names(p, SetTwo(p, t, i, j), Two(i, j))
  {
    if Syndrome(p, Two(i, j)) < |t| { FirstIsFree(p, n, t, i, j); }
  }

  lemma FirstIsFree(p: nat, n: nat, t: seq<Entry>, i: nat, j: nat)
    requires p > 0 && i < j < n && Traced(p, n, t, i, j) && FirstTwo(p, n, Two(i, j)) && Syndrome(p, Two(i, j)) < |t|
    ensures t[Syndrome(p, Two(i, j))] == UNKNOWN
  {
  }

  /** What the loops over pairs keep before the pair `i`, `j`. */
  ghost predicate Filled(p: nat, n: nat, t: seq<Entry>, i: nat, j: nat)
    requires p > 0
  {
    && Sound(p, n, t) && AtMost(t, 2) && Lists(p, n, t, i, j)
    && Traced(p, n, t, i, j) && NamesOnes(p, t, n) && NamesTwos(p, n, t, i, j)
  }

  lemma SetTwoFills(p: nat, n: nat, t: seq<Entry>, i: nat, j: nat)
    requires p > 0 && i < j < n && Filled(p, n, t, i, j)
    ensures Filled(p, n, SetTwo(p, t, i, j), i, j + 1)
  {
    SetTwoKeeps(p, n, t, i, j);
    SetTwoTraced(p, n, t, i, j);
    SetTwoNames(p, n, t, i, j);
  }

  /** The next row of pairs begins where this one ends. */
  lemma RowFilled(p: nat, n: nat, t: seq<Entry>, i: nat)
    requires p > 0 && i < n && Filled(p, n, t, i, n)
    ensures Filled(p, n, t, i + 1, i + 2)
  {
    TracedOn(p, n, t, i, n, i + 1, i + 2);
    forall e: Errors | Within(e, n) && Reached(e, i + 1, i + 2)
      ensures Reached(e, i, n)
    {
    }
  }

  lemma StartFilled(p: nat, n: nat, t: seq<Entry>)
    requires p > 0 && Sound(p, n, t) && AtMost(t, 1) && ListsOnes(p, t, n) && Traced(p, n, t, 0, 0) && NamesOnes(p, t, n)
    ensures Filled(p, n, t, 0, 1)
  {
    TracedOn(p, n, t, 0, 0, 0, 1);
    forall e: Errors | Within(e, n) && Reached(e, 0, 1)
      ensures e.One? && Listed(p, t, e)
    {
    }
  }

  lemma FilledServes(p: nat, n: nat, t: seq<Entry>)
    requires p > 0 && Filled(p, n, t, n, n + 1)
    ensures Serves(p, n, 2, t) && NamesTwos(p, n, t, n, n)
  {
    forall e: Errors | Within(e, n) && e != Clean
      ensures Reached(e, n, n + 1)
    {
    }
  }

  /** `build_syn` and `build_syndrome_table`. */
  method BuildTable(poly: nat, nbits: nat, maxErrors: nat, table: array<Entry>)
    requires 0 < poly < WORD && nbits <= WORD_BITS
    modifies table
    ensures Serves(poly, nbits, if maxErrors >= 2 then 2 else 1, table[..])
    ensures NamesOnes(poly, table[..], nbits) && (maxErrors >= 2 ==> NamesTwos(poly, nbits, table[..], nbits, nbits))
  {
    for i := 0 to table.Length
      invariant forall k :: 0 <= k < i ==> table[k] == UNKNOWN
    {
      table[i] := UNKNOWN;
    }
    for b := 0 to nbits
      invariant Sound(poly, nbits, table[..]) && AtMost(table[..], 1) && ListsOnes(poly, table[..], b)
      invariant Traced(poly, nbits, table[..], 0, 0) && NamesOnes(poly, table[..], b)
    {
      SetOneKeeps(poly, nbits, table[..], b);
      SetOneTraced(poly, nbits, table[..], b);
      SetOneNames(poly, table[..], b);
      BitFits(b);
      var r := Gf2Remainder(poly, Pow2(b));
      if r < table.Length {
        table[r] := Entry(1, Pow2(b));
      }
    }
    if maxErrors >= 2 {
      StartFilled(poly, nbits, table[..]);
      BuildPairs(poly, nbits, table);
      FilledServes(poly, nbits, table[..]);
    }
  }

  /** Its loops over pairs of bits. */
  method BuildPairs(poly: nat, nbits: nat, table: array<Entry>)
    requires 0 < poly < WORD && nbits <= WORD_BITS && Filled(poly, nbits, table[..], 0, 1)
    modifies table
    ensures Filled(poly, nbits, table[..], nbits, nbits + 1)
  {
    hide Filled;
    for b1 := 0 to nbits
      invariant Filled(poly, nbits, table[..], b1, b1 + 1)
    {
      for b2 := b1 + 1 to nbits
        invariant Filled(poly, nbits, table[..], b1, b2)
      {
        SetTwoFills(poly, nbits, table[..], b1, b2);
        PairFits(b1, b2);
        var r := Gf2Remainder(poly, Pow2(b1) + Pow2(b2));
        if r < table.Length && table[r].errs < 0 {
          table[r] := Entry(2, Pow2(b1) + Pow2(b2));
        }
      }
      RowFilled(poly, nbits, table[..], b1);
    }
  }

  lemma PairFits(b1: nat, b2: nat)
    requires b1 < b2 < WORD_BITS
    ensures Pow2(b1) + Pow2(b2) < WORD
  {
    WordIsPow2();
    Pow2Grows(b1 + 1, b2);
    Pow2Grows(b2 + 1, WORD_BITS);
  }

  lemma BitFits(b: nat)
    requires b < WORD_BITS
    ensures Pow2(b) < WORD
  {
    WordIsPow2();
    Pow2Grows(b + 1, WORD_BITS);
  }

  // ---------- correction ----------

  datatype Repair = Repair(errs: int, word: nat)

  ghost predicate RepairsBy(p: nat, n: nat, w: nat, x: Repair, e: Errors)
    requires p > 0
  {
    Within(e, n) && x == Repair(Weight(e), Xor(w, Word(e))) && IsCodeword(p, x.word)
  }

  /** `e` would make a codeword of `w`. */
  ghost predicate Mends(p: nat, n: nat, w: nat, e: Errors)
    requires p > 0
  {
    Within(e, n) && IsCodeword(p, Xor(w, Word(e)))
  }

  /**
   What a correction of at most `m` errors may answer: a codeword and how far it is from `w`, or -1
   and `w` itself when there is none that near.
   */
  ghost predicate Answers(p: nat, n: nat, m: nat, w: nat, x: Repair)
    requires p > 0
  {
    if x.errs < 0
    then x == Repair(-1, w) && forall e :: Weight(e) <= m ==> !Mends(p, n, w, e)
    else x.errs <= m && exists e :: RepairsBy(p, n, w, x, e)
  }

  /** The syndrome lookup of `bch_31_21_correct`, `chase_bch_decode_p` and `nrepair`. */
  function Lookup(p: nat, t: seq<Entry>, w: nat): (x: Repair)
    requires p > 0
  {
    var r := Rem(p, w);
    if r == 0 then Repair(0, w)
    else if r < |t| && t[r].errs >= 0 then Repair(t[r].errs, Xor(w, t[r].locator))
    else Repair(-1, w)
  }

  /** The lookup finds a codeword exactly when brute force would. */
  lemma LookupAnswers(p: nat, n: nat, m: nat, t: seq<Entry>, w: nat)
    requires p > 0 && Serves(p, n, m, t) && Pow2(Degree(p)) <= |t|
    ensures Answers(p, n, m, w, Lookup(p, t, w))
  {
    var r, x := Rem(p, w), Lookup(p, t, w);
    RemBelow(p, w);
    if r == 0 {
      XorZero(w);
      assert RepairsBy(p, n, w, x, Clean);
    } else if t[r].errs >= 0 {
      assert Explained(p, n, r, t[r]);
      var e :| Explains(p, n, r, t[r], e);
      ErrorsShow(p, w, e);
      assert RepairsBy(p, n, w, x, e);
    } else {
      forall e | Weight(e) <= m
        ensures !Mends(p, n, w, e)
      {
        ErrorsShow(p, w, e);
        if e != Clean && Within(e, n) {
          assert Listed(p, t, e);
        }
      }
    }
  }

  /** Where the code corrects two errors there is one answer. */
  lemma OneAnswer(p: nat, n: nat, w: nat, x: Repair, y: Repair)
    requires p > 0 && Separates(p, n) && Answers(p, n, 2, w, x) && Answers(p, n, 2, w, y)
    ensures x == y
  {
    if x.errs >= 0 {
      var e :| RepairsBy(p, n, w, x, e);
      assert Mends(p, n, w, e);
      var f :| RepairsBy(p, n, w, y, f);
      ErrorsShow(p, w, e);
      ErrorsShow(p, w, f);
    } else if y.errs >= 0 {
      var f :| RepairsBy(p, n, w, y, f);
      assert Mends(p, n, w, f);
      assert false;
    }
  }

  /** Any answer takes back up to two errors. */
  lemma CorrectsTwoErrors(p: nat, n: nat, c: nat, e: Errors, x: Repair)
    requires p > 0 && Separates(p, n) && IsCodeword(p, c) && Within(e, n)
    requires Answers(p, n, 2, Xor(c, Word(e)), x)
    ensures x == Repair(Weight(e), c)
  {
    var w := Xor(c, Word(e));
    XorCancel(c, Word(e));
    assert RepairsBy(p, n, w, Repair(Weight(e), c), e);
    assert Answers(p, n, 2, w, Repair(Weight(e), c));
    OneAnswer(p, n, w, x, Repair(Weight(e), c));
  }

  /** The highest bit in error. */
  function Top(e: Errors): (b: nat)
    requires e != Clean
  {
    if e.One? then e.b else e.b2
  }

  lemma TopBounds(e: Errors, n: nat)
    requires e != Clean && Within(e, n)
    ensures Pow2(Top(e)) <= Word(e) < 2 * Pow2(Top(e))
  {
    if e.Two? { Pow2Grows(e.b1 + 1, e.b2); }
  }

  lemma TopBelow(e: Errors, f: Errors, n: nat)
    requires e != Clean && f != Clean && Within(e, n) && Within(f, n) && Top(e) < Top(f)
    ensures Word(e) < Word(f)
  {
    TopBounds(e, n);
    TopBounds(f, n);
    Pow2Grows(Top(e) + 1, Top(f));
  }

  /** Different errors are different words. */
  lemma WordsDiffer(e: Errors, f: Errors, n: nat)
    requires Within(e, n) && Within(f, n) && Word(e) == Word(f)
    ensures e == f
  {
    if e != Clean { TopBounds(e, n); }
    if f != Clean { TopBounds(f, n); }
    if e != Clean && f != Clean {
      if Top(e) < Top(f) { TopBelow(e, f, n); } else if Top(f) < Top(e) { TopBelow(f, e, n); }
      if e.Two? && f.Two? && e.b1 < f.b1 { Pow2Grows(e.b1 + 1, f.b1); }
      if e.Two? && f.Two? && f.b1 < e.b1 { Pow2Grows(f.b1 + 1, e.b1); }
    }
  }

  /** The lookup takes the errors `e` in the codeword `c` back. */
  ghost predicate TakesBack(p: nat, t: seq<Entry>, c: nat, e: Errors)
    requires p > 0
  {
    Lookup(p, t, Xor(c, Word(e))) == Repair(Weight(e), c)
  }

  /** A table takes back all errors of weight at most two in all codewords exactly when they all leave different remainders. */
  lemma TakesBackIff(p: nat, n: nat, t: seq<Entry>)
    requires p > 0 && Serves(p, n, 2, t) && Pow2(Degree(p)) <= |t|
    ensures Separates(p, n) <==> forall c, e :: IsCodeword(p, c) && Within(e, n) ==> TakesBack(p, t, c, e)
  {
    if Separates(p, n) {
      forall c, e | IsCodeword(p, c) && Within(e, n)
        ensures TakesBack(p, t, c, e)
      {
        LookupAnswers(p, n, 2, t, Xor(c, Word(e)));
        CorrectsTwoErrors(p, n, c, e, Lookup(p, t, Xor(c, Word(e))));
      }
    }
    if forall c, e :: IsCodeword(p, c) && Within(e, n) ==> TakesBack(p, t, c, e) {
      forall e, f | Within(e, n) && Within(f, n) && Syndrome(p, e) == Syndrome(p, f)
        ensures e == f
      {
        NamedByTable(p, t, e);
        NamedByTable(p, t, f);
        WordsDiffer(e, f, n);
      }
    }
  }

  /** What the table must say to take errors back. */
  lemma NamedByTable(p: nat, t: seq<Entry>, e: Errors)
    requires p > 0 && TakesBack(p, t, 0, e)
    ensures var r := Syndrome(p, e); Word(e) == if r == 0 then 0 else if r < |t| then t[r].locator else 0
  {
    var w, r := Word(e), Syndrome(p, e);
    XorComm(0, w);
    XorZero(w);
    if r != 0 && r < |t| && t[r].errs >= 0 { XorEqual(w, t[r].locator); }
  }

  /** The errors the table names among those that leave the same remainder. */
  ghost predicate Preferred(p: nat, n: nat, e: Errors)
    requires p > 0
  {
    match e
    case Clean => true
    case One(b) => Syndrome(p, e) != 0 && LastOne(p, b, n)
    case Two(_, _) => Syndrome(p, e) != 0 && FirstTwo(p, n, e)
  }

  lemma {:induction false} LastOneThere(p: nat, n: nat, b: nat) returns (c: nat)
    requires p > 0 && b < n
    ensures b <= c < n && Syndrome(p, One(c)) == Syndrome(p, One(b)) && LastOne(p, c, n)
    decreases n - b
  {
    if d :| b < d < n && Syndrome(p, One(d)) == Syndrome(p, One(b)) {
      c := LastOneThere(p, n, d);
    } else {
      c := b;
    }
  }

  lemma {:induction false} FirstTwoThere(p: nat, n: nat, e: Errors) returns (f: Errors)
    requires p > 0 && e.Two? && Within(e, n) && forall b :: 0 <= b < n ==> Syndrome(p, One(b)) != Syndrome(p, e)
    ensures f.Two? && Within(f, n) && Syndrome(p, f) == Syndrome(p, e) && FirstTwo(p, n, f)
    decreases e.b1, e.b2
  {
    if g: Errors :| g.Two? && Within(g, n) && Reached(g, e.b1, e.b2) && Syndrome(p, g) == Syndrome(p, e) {
      f := FirstTwoThere(p, n, g);
    } else {
      f := e;
    }
  }

  /** The table that the program builds for two errors. */
  ghost predicate Built(p: nat, n: nat, t: seq<Entry>)
    requires p > 0
  {
    Serves(p, n, 2, t) && NamesOnes(p, t, n) && NamesTwos(p, n, t, n, n) && Pow2(Degree(p)) <= |t|
  }

  /** Some preferred errors are the table's for every remainder that errors leave. */
  lemma PreferredThere(p: nat, n: nat, t: seq<Entry>, e: Errors) returns (f: Errors)
    requires p > 0 && Built(p, n, t) && Within(e, n) && Syndrome(p, e) != 0
    ensures Within(f, n) && f != Clean && Preferred(p, n, f) && Syndrome(p, f) == Syndrome(p, e) && Names(p, t, f)
  {
    if b :| 0 <= b < n && Syndrome(p, One(b)) == Syndrome(p, e) {
      var c := LastOneThere(p, n, b);
      f := One(c);
    } else {
      f := FirstTwoThere(p, n, e);
    }
  }

  /** Exactly the preferred errors are taken back, whatever the codeword. */
  lemma TakenBackIff(p: nat, n: nat, t: seq<Entry>, c: nat, e: Errors)
    requires p > 0 && Built(p, n, t) && IsCodeword(p, c) && Within(e, n)
    ensures TakesBack(p, t, c, e) <==> Preferred(p, n, e)
  {
    CodewordHides(p, c, e);
    XorZero(c);
    XorCancel(c, Word(e));
    RemBelow(p, Word(e));
    if Syndrome(p, e) != 0 {
      var f := PreferredThere(p, n, t, e);
      if TakesBack(p, t, c, e) {
        SameWord(c, Word(e), Word(f));
        WordsDiffer(e, f, n);
      }
      assert Preferred(p, n, e) ==> Names(p, t, e);
    }
  }

  lemma SameWord(c: nat, v: nat, w: nat)
    requires Xor(Xor(c, v), w) == c
    ensures v == w
  {
    XorAssoc(c, v, w);
    XorCancelLeft(c, Xor(v, w));
    XorEqual(v, w);
  }

  lemma XorCancelLeft(c: nat, x: nat)
    requires Xor(c, x) == c
    ensures x == 0
  {
    XorComm(c, x);
    XorCancel(x, c);
    XorSelf(c);
  }

  /** A codeword does not change what errors leave. */
  lemma CodewordHides(p: nat, c: nat, e: Errors)
    requires p > 0 && IsCodeword(p, c)
    ensures Rem(p, Xor(c, Word(e))) == Syndrome(p, e)
  {
    RemLinear(p, c, Word(e));
    XorComm(0, Syndrome(p, e));
    XorZero(Syndrome(p, e));
  }

  lemma {:induction false} TwoBits(i: nat, j: nat)
    requires i < j
    ensures Xor(Pow2(i), Pow2(j)) == Pow2(i) + Pow2(j)
  {
    if i == 0 {
      XorSplit(1, Pow2(j));
      XorZero(Pow2(j - 1));
    } else {
      TwoBits(i - 1, j - 1);
      XorDouble(Pow2(i - 1), Pow2(j - 1));
    }
  }

  /** Flipping one bit after another. */
  lemma FlipTwice(w: nat, i: nat, j: nat)
    requires i < j
    ensures Xor(Xor(w, Pow2(i)), Pow2(j)) == Xor(w, Word(Two(i, j)))
  {
    XorAssoc(w, Pow2(i), Pow2(j));
    TwoBits(i, j);
  }

  /** `nrepair2`: all single bits first, then all pairs. */
  method NRepair2(poly: nat, blen: nat, bnum: nat) returns (x: Repair)
    requires poly > 0
    ensures Answers(poly, blen, 2, bnum, x)
  {
    hide Rem, Xor, Pow2;
    XorZero(bnum);
    var r := NnDivide(poly, bnum);
    if r == 0 {
      assert RepairsBy(poly, blen, bnum, Repair(0, bnum), Clean);
      return Repair(0, bnum);
    }
    for b1 := 0 to blen
      invariant forall b :: 0 <= b < b1 ==> !Mends(poly, blen, bnum, One(b))
    {
      r := NnDivide(poly, Xor(bnum, Pow2(b1)));
      if r == 0 {
        assert RepairsBy(poly, blen, bnum, Repair(1, Xor(bnum, Pow2(b1))), One(b1));
        return Repair(1, Xor(bnum, Pow2(b1)));
      }
    }
    for b1 := 0 to blen
      invariant forall i, j :: 0 <= i < b1 && i < j < blen ==> !Mends(poly, blen, bnum, Two(i, j))
    {
      var bnum1 := Xor(bnum, Pow2(b1));
      for b2 := b1 + 1 to blen
        invariant forall j :: b1 < j < b2 ==> !Mends(poly, blen, bnum, Two(b1, j))
      {
        FlipTwice(bnum, b1, b2);
        r := NnDivide(poly, Xor(bnum1, Pow2(b2)));
        if r == 0 {
          assert RepairsBy(poly, blen, bnum, Repair(2, Xor(bnum1, Pow2(b2))), Two(b1, b2));
          return Repair(2, Xor(bnum1, Pow2(b2)));
        }
      }
    }
    NothingMends(poly, blen, bnum);
    return Repair(-1, bnum);
  }

  lemma NothingMends(p: nat, n: nat, w: nat)
    requires p > 0 && !Mends(p, n, w, Clean)
    requires forall b :: 0 <= b < n ==> !Mends(p, n, w, One(b))
    requires forall i, j :: 0 <= i < j < n ==> !Mends(p, n, w, Two(i, j))
    ensures forall e :: Weight(e) <= 2 ==> !Mends(p, n, w, e)
  {
    forall e | Within(e, n)
      ensures !Mends(p, n, w, e)
    {
      match e {
        case Clean =>
        case One(b) =>
        case Two(i, j) =>
      }
    }
  }

  /** `repair`: each single bit, and at once all pairs that begin with it. */
  method RepairSlow(poly: nat, blen: nat, bnum: nat) returns (x: Repair)
    requires poly > 0
    ensures Answers(poly, blen, 2, bnum, x)
  {
    XorZero(bnum);
    var r := NnDivide(poly, bnum);
    if r == 0 {
      assert RepairsBy(poly, blen, bnum, Repair(0, bnum), Clean);
      return Repair(0, bnum);
    }
    for b1 := 0 to blen
      invariant forall b :: 0 <= b < b1 ==> !Mends(poly, blen, bnum, One(b))
      invariant forall i, j :: 0 <= i < b1 && i < j < blen ==> !Mends(poly, blen, bnum, Two(i, j))
    {
      var bnum1 := Xor(bnum, Pow2(b1));
      r := NnDivide(poly, bnum1);
      if r == 0 {
        assert RepairsBy(poly, blen, bnum, Repair(1, bnum1), One(b1));
        return Repair(1, bnum1);
      }
      for b2 := b1 + 1 to blen
        invariant forall j :: b1 < j < b2 ==> !Mends(poly, blen, bnum, Two(b1, j))
      {
        FlipTwice(bnum, b1, b2);
        r := NnDivide(poly, Xor(bnum1, Pow2(b2)));
        if r == 0 {
          assert RepairsBy(poly, blen, bnum, Repair(2, Xor(bnum1, Pow2(b2))), Two(b1, b2));
          return Repair(2, Xor(bnum1, Pow2(b2)));
        }
      }
    }
    NothingMends(poly, blen, bnum);
    return Repair(-1, bnum);
  }
}
