/** The syndrome tables of bch.py, built with a check for collisions, and the repairs that use them or search. */
module BchSyndromes {
  import opened Gf2
  import opened Gf2Division
  import opened Bch
  import opened Options

  /** A code that corrects two errors has no collision. */
  lemma NoCollision(p: nat, n: nat, t: seq<Entry>, i: nat, j: nat)
    requires p > 0 && i < j < n && Traced(p, n, t, i, j) && Separates(p, n) && Syndrome(p, Two(i, j)) < |t|
    ensures t[Syndrome(p, Two(i, j))] == UNKNOWN
  {
    var r := Syndrome(p, Two(i, j));
    if t[r] != UNKNOWN {
      var e :| Explains(p, n, r, t[r], e) && Reached(e, i, j);
      assert Within(Two(i, j), n);
    }
  }

  /** The pair `e` and the errors `f` leave the same remainder. */
  ghost predicate Clash(p: nat, n: nat, e: Errors, f: Errors)
    requires p > 0
  {
    e.Two? && Within(e, n) && Within(f, n) && Syndrome(p, e) == Syndrome(p, f)
  }

  /** The pairs reached before `i`, `j` share their remainder with no other errors reached. */
  ghost predicate Apart(p: nat, n: nat, i: nat, j: nat)
    requires p > 0
  {
    forall e: Errors, f :: Clash(p, n, e, f) && Reached(e, i, j) && Reached(f, i, j) ==> e == f
  }

  /** A free entry for the next pair means that it is apart, too. */
  lemma ApartGrows(p: nat, n: nat, t: seq<Entry>, i: nat, j: nat)
    requires p > 0 && i < j < n && Lists(p, n, t, i, j) && Apart(p, n, i, j)
    requires Syndrome(p, Two(i, j)) < |t| && t[Syndrome(p, Two(i, j))].errs < 0
    ensures Apart(p, n, i, j + 1)
  {
    forall e: Errors, f | Clash(p, n, e, f) && Reached(e, i, j + 1) && Reached(f, i, j + 1)
      ensures e == f
    {
      assert Reached(e, i, j) ==> Listed(p, t, e);
      assert Reached(f, i, j) ==> Listed(p, t, f);
    }
  }

  function Pair(a: nat, b: nat): (e: Errors)
    requires a != b
  {
    if a < b then Two(a, b) else Two(b, a)
  }

  lemma PairSyndrome(p: nat, a: nat, b: nat)
    requires p > 0 && a != b
    ensures Syndrome(p, Pair(a, b)) == Xor(Syndrome(p, One(a)), Syndrome(p, One(b)))
  {
    TwoBits(if a < b then a else b, if a < b then b else a);
    XorComm(Pow2(a), Pow2(b));
    RemLinear(p, Pow2(a), Pow2(b));
  }

  /** A third bit turns a collision of two single bits into one of two pairs. */
  lemma OnesApart(p: nat, n: nat, a: nat, b: nat)
    requires p > 0 && n >= 3 && Apart(p, n, n, n + 1) && a < n && b < n && Syndrome(p, One(a)) == Syndrome(p, One(b))
    ensures a == b
  {
    var c := if a != 0 && b != 0 then 0 else if a != 1 && b != 1 then 1 else 2;
    PairSyndrome(p, a, c);
    PairSyndrome(p, b, c);
    assert Clash(p, n, Pair(a, c), Pair(b, c));
  }

  /** A second bit turns a bit that leaves nothing into a collision with a pair. */
  lemma OneShows(p: nat, n: nat, a: nat)
    requires p > 0 && n >= 3 && Apart(p, n, n, n + 1) && a < n
    ensures Syndrome(p, One(a)) != 0
  {
    var c := if a != 0 then 0 else 1;
    PairSyndrome(p, a, c);
    XorComm(0, Syndrome(p, One(c)));
    XorZero(Syndrome(p, One(c)));
    assert Syndrome(p, One(a)) == 0 ==> Clash(p, n, Pair(a, c), One(c));
  }

  /** Pairs apart from all other pairs and bits are enough, from three bits on. */
  lemma ApartSeparates(p: nat, n: nat)
    requires p > 0 && n >= 3 && Apart(p, n, n, n + 1)
    ensures Separates(p, n)
  {
    forall e, f | Within(e, n) && Within(f, n) && Syndrome(p, e) == Syndrome(p, f)
      ensures e == f
    {
      if Weight(e) >= Weight(f) { ApartFrom(p, n, e, f); } else { ApartFrom(p, n, f, e); }
    }
  }

  lemma ApartFrom(p: nat, n: nat, e: Errors, f: Errors)
    requires p > 0 && n >= 3 && Apart(p, n, n, n + 1) && Weight(e) >= Weight(f)
    requires Within(e, n) && Within(f, n) && Syndrome(p, e) == Syndrome(p, f)
    ensures e == f
  {
    match e {
      case Clean =>
      case One(a) =>
        if f == Clean { OneShows(p, n, a); } else { OnesApart(p, n, a, f.b); }
      case Two(a, b) =>
        if f == Clean {
          PairSyndrome(p, a, b);
          XorEqual(Syndrome(p, One(a)), Syndrome(p, One(b)));
          OnesApart(p, n, a, b);
        } else {
          assert Clash(p, n, e, f);
        }
    }
  }

  /** The remainders of all patterns of at most `m` errors are below `size`. */
  ghost predicate Covers(p: nat, n: nat, m: nat, size: nat)
    requires p > 0
  {
    forall e: Errors :: e != Clean && Within(e, n) && Weight(e) <= m ==> Syndrome(p, e) < size
  }

  ghost predicate CoversTwos(p: nat, n: nat, i: nat, j: nat, size: nat)
    requires p > 0
  {
    forall e: Errors :: e.Two? && Within(e, n) && Reached(e, i, j) ==> Syndrome(p, e) < size
  }

  /** So it is when the table has as many entries as there are remainders. */
  lemma AllCovered(p: nat, n: nat, m: nat, size: nat)
    requires p > 0 && Pow2(Degree(p)) <= size
    ensures Covers(p, n, m, size)
  {
    forall e: Errors | e != Clean && Within(e, n) && Weight(e) <= m
      ensures Syndrome(p, e) < size
    {
      RemBelow(p, Word(e));
    }
  }

  /** `mk_syn` for one or two errors: nothing when two patterns collide or a remainder is not in the table, which it raises. */
  method MkSyn(poly: nat, bits: nat, synbits: nat, errors: nat) returns (t: Option<seq<Entry>>)
    requires poly > 0 && (errors == 1 || errors == 2)
    ensures t.Some? ==> |t.value| == Pow2(synbits) && Serves(poly, bits, errors, t.value) && Covers(poly, bits, errors, |t.value|)
    ensures (errors == 1 || Separates(poly, bits)) && Covers(poly, bits, errors, Pow2(synbits)) ==> t.Some?
    ensures errors == 2 && bits >= 3 && t.Some? ==> Separates(poly, bits)
  {
    hide Covers, Separates, Serves, Sound, AtMost, ListsOnes, Traced, Rem, Pow2, Ones;
    var table := seq(Pow2(synbits), i => UNKNOWN);
    OnesStart(poly, bits, table);
    for n1 := 0 to bits
      invariant |table| == Pow2(synbits) && Ones(poly, bits, table, n1)
    {
      var r := NnDivide(poly, Pow2(n1));
      if r >= |table| {
        OneNotCovered(poly, bits, n1, errors, |table|);
        return None;
      }
      OnesGrow(poly, bits, table, n1);
      table := table[r := Entry(1, Pow2(n1))];
    }
    OnesDone(poly, bits, table);
    if errors == 1 {
      return Some(table);
    }
    t := MkPairs(poly, bits, table);
  }

  /** What the loop over single bits keeps before bit `k`. */
  ghost predicate Ones(p: nat, n: nat, t: seq<Entry>, k: nat)
    requires p > 0
  {
    && Sound(p, n, t) && AtMost(t, 1) && ListsOnes(p, t, k) && Traced(p, n, t, 0, 0)
    && forall b :: 0 <= b < k ==> Syndrome(p, One(b)) < |t|
  }

  lemma OnesStart(p: nat, n: nat, t: seq<Entry>)
    requires p > 0 && forall i :: 0 <= i < |t| ==> t[i] == UNKNOWN
    ensures Ones(p, n, t, 0)
  {
  }

  lemma OnesGrow(p: nat, n: nat, t: seq<Entry>, b: nat)
    requires p > 0 && b < n && Ones(p, n, t, b) && Syndrome(p, One(b)) < |t|
    ensures Ones(p, n, t[Syndrome(p, One(b)) := Entry(1, Pow2(b))], b + 1)
  {
    hide Sound, ListsOnes, Traced, Rem, Pow2;
    SetOneKeeps(p, n, t, b);
    SetOneTraced(p, n, t, b);
  }

  lemma OnesDone(p: nat, n: nat, t: seq<Entry>)
    requires p > 0 && Ones(p, n, t, n)
    ensures Serves(p, n, 1, t) && Covers(p, n, 1, |t|)
    ensures Sound(p, n, t) && AtMost(t, 2) && ListsOnes(p, t, n) && Traced(p, n, t, 0, 0)
  {
    forall e: Errors | e != Clean && Within(e, n) && Weight(e) <= 1
      ensures Listed(p, t, e) && Syndrome(p, e) < |t|
    {
      assert e == One(e.b);
    }
  }

  lemma OneNotCovered(p: nat, n: nat, b: nat, m: nat, size: nat)
    requires p > 0 && b < n && Syndrome(p, One(b)) >= size && m >= 1
    ensures !Covers(p, n, m, size)
  {
    assert Within(One(b), n);
  }

  /** Its loops over pairs of bits. */
  method MkPairs(poly: nat, bits: nat, table: seq<Entry>) returns (t: Option<seq<Entry>>)
    requires poly > 0 && Covers(poly, bits, 1, |table|) && Traced(poly, bits, table, 0, 0)
    requires Sound(poly, bits, table) && AtMost(table, 2) && ListsOnes(poly, table, bits)
    ensures t.Some? ==> |t.value| == |table| && Serves(poly, bits, 2, t.value) && Covers(poly, bits, 2, |table|)
    ensures Separates(poly, bits) && Covers(poly, bits, 2, |table|) ==> t.Some?
    ensures bits >= 3 && t.Some? ==> Separates(poly, bits)
  {
    hide Tabled, Covers, Separates, Serves, Sound, AtMost, Lists, ListsOnes, Traced, Rem, Pow2;
    var now := table;
    TabledStart(poly, bits, now);
    for n1 := 0 to bits
      invariant |now| == |table| && Tabled(poly, bits, now, n1, n1 + 1)
    {
      for n2 := n1 + 1 to bits
        invariant |now| == |table| && Tabled(poly, bits, now, n1, n2)
      {
        var val := Pow2(n1) + Pow2(n2);
        var r := NnDivide(poly, val);
        if r >= |now| {
          NotCovered(poly, bits, n1, n2, |now|);
          return None;
        }
        if now[r].errs >= 0 {
          Collides(poly, bits, now, n1, n2);
          return None;
        }
        TabledGrows(poly, bits, now, n1, n2);
        now := now[r := Entry(2, val)];
      }
      TabledRow(poly, bits, now, n1);
    }
    TabledDone(poly, bits, now);
    return Some(now);
  }

  /** What the loops over pairs keep before the pair `i`, `j`. */
  ghost predicate Tabled(p: nat, n: nat, t: seq<Entry>, i: nat, j: nat)
    requires p > 0
  {
    && Sound(p, n, t) && AtMost(t, 2) && Lists(p, n, t, i, j) && Traced(p, n, t, i, j)
    && Apart(p, n, i, j) && Covers(p, n, 1, |t|) && CoversTwos(p, n, i, j, |t|)
  }

  lemma TabledStart(p: nat, n: nat, t: seq<Entry>)
    requires p > 0 && Covers(p, n, 1, |t|) && Traced(p, n, t, 0, 0) && Sound(p, n, t) && AtMost(t, 2) && ListsOnes(p, t, n)
    ensures Tabled(p, n, t, 0, 1)
  {
    TracedOn(p, n, t, 0, 0, 0, 1);
    forall e: Errors | Within(e, n) && Reached(e, 0, 1)
      ensures e.One? && Listed(p, t, e)
    {
    }
  }

  lemma TabledGrows(p: nat, n: nat, t: seq<Entry>, i: nat, j: nat)
    requires p > 0 && i < j < n && Tabled(p, n, t, i, j)
    requires Syndrome(p, Two(i, j)) < |t| && t[Syndrome(p, Two(i, j))].errs < 0
    ensures Tabled(p, n, t[Syndrome(p, Two(i, j)) := Entry(2, Word(Two(i, j)))], i, j + 1)
  {
    hide Sound, Lists, Traced, Apart, Rem, Pow2;
    ApartGrows(p, n, t, i, j);
    SetTwoKeeps(p, n, t, i, j);
    SetTwoTraced(p, n, t, i, j);
  }

  lemma TabledRow(p: nat, n: nat, t: seq<Entry>, i: nat)
    requires p > 0 && i < n && Tabled(p, n, t, i, n)
    ensures Tabled(p, n, t, i + 1, i + 2)
  {
    TracedOn(p, n, t, i, n, i + 1, i + 2);
    forall e: Errors | Within(e, n) && Reached(e, i + 1, i + 2)
      ensures Reached(e, i, n)
    {
    }
  }

  lemma TabledDone(p: nat, n: nat, t: seq<Entry>)
    requires p > 0 && Tabled(p, n, t, n, n + 1)
    ensures Serves(p, n, 2, t) && Covers(p, n, 2, |t|) && (n >= 3 ==> Separates(p, n))
  {
    if n >= 3 { ApartSeparates(p, n); }
    forall e: Errors | Within(e, n) && e != Clean
      ensures Reached(e, n, n + 1)
    {
    }
  }

  lemma Collides(p: nat, n: nat, t: seq<Entry>, i: nat, j: nat)
    requires p > 0 && i < j < n && Tabled(p, n, t, i, j)
    requires Syndrome(p, Two(i, j)) < |t| && t[Syndrome(p, Two(i, j))].errs >= 0
    ensures !Separates(p, n)
  {
    if Separates(p, n) { NoCollision(p, n, t, i, j); }
  }

  lemma NotCovered(p: nat, n: nat, i: nat, j: nat, size: nat)
    requires p > 0 && i < j < n && Syndrome(p, Two(i, j)) >= size
    ensures !Covers(p, n, 2, size)
  {
    assert Within(Two(i, j), n);
  }

  /** `nrepair` */
  method NRepair(poly: nat, table: seq<Entry>, bnum: nat) returns (x: Repair)
    requires poly > 0 && Pow2(Degree(poly)) <= |table|
    ensures x == Lookup(poly, table, bnum)
  {
    RemBelow(poly, bnum);
    var r := NnDivide(poly, bnum);
    if r == 0 {
      return Repair(0, bnum);
    }
    if table[r].errs < 0 {
      return Repair(-1, bnum);
    }
    XorComm(bnum, table[r].locator);
    return Repair(table[r].errs, Xor(table[r].locator, bnum));
  }

  /** `nrepair1`: all single bits. */
  method NRepair1(poly: nat, blen: nat, bnum: nat) returns (x: Repair)
    requires poly > 0
    ensures Answers(poly, blen, 1, bnum, x)
  {
    XorZero(bnum);
    var r := NnDivide(poly, bnum);
    if r == 0 {
      assert RepairsBy(poly, blen, bnum, Repair(0, bnum), Clean);
      return Repair(0, bnum);
    }
    for b1 := 0 to blen
      invariant forall b :: 0 <= b < b1 ==> !Mends(poly, blen, bnum, One(b))
    {
      r := NnDivide(poly, Xor(bnum, Pow2(b1)));
      if r == 0 {
        assert RepairsBy(poly, blen, bnum, Repair(1, Xor(bnum, Pow2(b1))), One(b1));
        return Repair(1, Xor(bnum, Pow2(b1)));
      }
    }
    forall e | Weight(e) <= 1
      ensures !Mends(poly, blen, bnum, e)
    {
      match e {
        case Clean =>
        case One(b) =>
        case Two(_, _) =>
      }
    }
    return Repair(-1, bnum);
  }

  /** The table and every search agree on every word, where the code corrects two errors. */
  lemma RepairsAgree(p: nat, n: nat, t: seq<Entry>, w: nat, x: Repair)
    requires p > 0 && Separates(p, n) && Serves(p, n, 2, t) && Pow2(Degree(p)) <= |t| && Answers(p, n, 2, w, x)
    ensures Lookup(p, t, w) == x
  {
    LookupAnswers(p, n, 2, t, w);
    OneAnswer(p, n, w, Lookup(p, t, w), x);
  }
}
