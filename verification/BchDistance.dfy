/**
 The codes in use correct two errors: no two patterns of at most two errors in 31 bits leave the same
 remainder modulo 1207 (frame_decode.c) or 3545 (ida_decode.c). 1207 is the product of 41 and 47; with
 alpha a root of 41, alpha^3 is a root of 47, so a remainder gives the sum of the error locators and the
 sum of their cubes in the field of 32 elements, and these two sums fix the locators.
 */
module BchDistance {
  import opened Gf2
  import opened Gf2Division
  import opened Bch

  const FIRST := 41
  const CUBED := 47
  const BCH_POLY_RA := 1207
  const BCH_POLY_DA := 3545
  const BLOCK := 31

  /** An element of the field: coefficients of powers of alpha, where alpha^5 == alpha^3 + 1. */
  datatype F = F(b0: bool, b1: bool, b2: bool, b3: bool, b4: bool)

  const ZERO := F(false, false, false, false, false)
  const ONE := F(true, false, false, false, false)
  const ALPHA := F(false, true, false, false, false)

  function Add(u: F, v: F): (s: F) {
    F(u.b0 != v.b0, u.b1 != v.b1, u.b2 != v.b2, u.b3 != v.b3, u.b4 != v.b4)
  }

  function TimesAlpha(u: F): (r: F) {
    F(u.b4, u.b0, u.b1, u.b2 != u.b4, u.b3)
  }

  /** Multiplication by x modulo 47. */
  function TimesX(t: F): (r: F) {
    F(t.b4, t.b0 != t.b4, t.b1 != t.b4, t.b2 != t.b4, t.b3)
  }

  /** The polynomial `t` in alpha^3. */
  function AtCube(t: F): (r: F) {
    F(t.b0 != t.b3, t.b2 != t.b4, t.b3 != t.b4, (t.b1 != t.b3) != t.b4, (t.b2 != t.b3) != t.b4)
  }

  function Coefficient(u: F, i: nat): (b: bool)
    requires i < 5
  {
    if i == 0 then u.b0 else if i == 1 then u.b1 else if i == 2 then u.b2 else if i == 3 then u.b3 else u.b4
  }

  /** One coefficient of the left factor, with `h` the product of those above it. */
  function Step(b: bool, v: F, h: F): (r: F) { Add(if b then v else ZERO, TimesAlpha(h)) }

  /** Horner's rule from coefficient `i` on. */
  function Horner(u: F, v: F, i: nat): (r: F)
    requires i <= 5
    decreases 5 - i
  {
    if i == 5 then ZERO else Step(Coefficient(u, i), v, Horner(u, v, i + 1))
  }

  function Times(u: F, v: F): (r: F) { Horner(u, v, 0) }

  function Cube(u: F): (r: F) { Times(u, Times(u, u)) }

  // ---------- the field ----------

  lemma StepAdds(b: bool, v: F, w: F, h: F, k: F)
    ensures Step(b, Add(v, w), Add(h, k)) == Add(Step(b, v, h), Step(b, w, k))
  {
  }

  lemma {:induction false} HornerAdds(u: F, v: F, w: F, i: nat)
    requires i <= 5
    ensures Horner(u, Add(v, w), i) == Add(Horner(u, v, i), Horner(u, w, i))
    decreases 5 - i
  {
    if i < 5 {
      HornerAdds(u, v, w, i + 1);
      StepAdds(Coefficient(u, i), v, w, Horner(u, v, i + 1), Horner(u, w, i + 1));
    }
  }

  lemma StepTimesAlpha(b: bool, v: F, h: F)
    ensures Step(b, TimesAlpha(v), TimesAlpha(h)) == TimesAlpha(Step(b, v, h))
  {
  }

  lemma {:induction false} HornerTimesAlpha(u: F, v: F, i: nat)
    requires i <= 5
    ensures Horner(u, TimesAlpha(v), i) == TimesAlpha(Horner(u, v, i))
    decreases 5 - i
  {
    if i < 5 {
      HornerTimesAlpha(u, v, i + 1);
      StepTimesAlpha(Coefficient(u, i), v, Horner(u, v, i + 1));
    }
  }

  lemma TimesStep(s: F, b: bool, v: F, h: F)
    ensures Times(s, Step(b, v, h)) == Step(b, Times(s, v), Times(s, h))
  {
    var p := if b then v else ZERO;
    calc {
      Times(s, Step(b, v, h));
      Times(s, Add(p, TimesAlpha(h)));
      { HornerAdds(s, p, TimesAlpha(h), 0); }
      Add(Times(s, p), Times(s, TimesAlpha(h)));
      { HornerTimesAlpha(s, h, 0); }
      Add(Times(s, p), TimesAlpha(Times(s, h)));
      { TimesZero(s); }
      Step(b, Times(s, v), Times(s, h));
    }
  }

  /** A linear map of a product is the product with the map of its right factor. */
  lemma {:induction false} MapHorner(m: F -> F, u: F, v: F, i: nat)
    requires i <= 5 && m(ZERO) == ZERO && forall b, w, h :: m(Step(b, w, h)) == Step(b, m(w), m(h))
    ensures m(Horner(u, v, i)) == Horner(u, m(v), i)
    decreases 5 - i
  {
    if i < 5 {
      MapHorner(m, u, v, i + 1);
      assert Horner(u, v, i) == Step(Coefficient(u, i), v, Horner(u, v, i + 1));
    }
  }

  /** `s` times a product is the product with `s` times its right factor. */
  lemma TimesTimes(s: F, u: F, v: F)
    ensures Times(s, Times(u, v)) == Times(u, Times(s, v))
  {
    var m := (x: F) => Times(s, x);
    TimesZero(s);
    forall b, w, h
      ensures m(Step(b, w, h)) == Step(b, m(w), m(h))
    {
      TimesStep(s, b, w, h);
    }
    MapHorner(m, u, v, 0);
  }

  lemma {:induction false} TimesZero(s: F)
    ensures Times(s, ZERO) == ZERO
  {
    HornerAdds(s, ZERO, ZERO, 0);
  }

  lemma TimesOne(u: F)
    ensures Times(u, ONE) == u
  {
    assert Horner(u, ONE, 3) == F(u.b3, u.b4, false, false, false);
    assert Horner(u, ONE, 1) == F(u.b1, u.b2, u.b3, u.b4, false);
  }

  lemma TimesComm(u: F, v: F)
    ensures Times(u, v) == Times(v, u)
  {
    TimesOne(u);
    TimesOne(v);
    TimesTimes(u, v, ONE);
  }

  lemma TimesAssoc(u: F, v: F, w: F)
    ensures Times(Times(u, v), w) == Times(u, Times(v, w))
  {
    TimesComm(Times(u, v), w);
    TimesTimes(w, u, v);
    TimesComm(w, v);
  }

  lemma TimesAdds(u: F, v: F, w: F)
    ensures Times(u, Add(v, w)) == Add(Times(u, v), Times(u, w))
    ensures Times(Add(v, w), u) == Add(Times(v, u), Times(w, u))
  {
    HornerAdds(u, v, w, 0);
    TimesComm(u, Add(v, w));
    TimesComm(u, v);
    TimesComm(u, w);
  }

  /** The remainders modulo 41 multiply like a field. */
  lemma NoZeroDivisors(u: F, v: F)
    requires Times(u, v) == ZERO
    ensures u == ZERO || v == ZERO
  {
    assert Horner(u, v, 3) == Step(u.b3, v, Step(u.b4, v, ZERO));
    assert Horner(u, v, 1) == Step(u.b1, v, Step(u.b2, v, Horner(u, v, 3)));
  }

  lemma AddSelf(u: F, v: F)
    ensures Add(u, v) == ZERO <==> u == v
  {
  }

  // ---------- two locators are fixed by their sum and the sum of their cubes ----------

  lemma SquareAdds(u: F, v: F)
    ensures var s := Add(u, v); Times(s, s) == Add(Times(u, u), Times(v, v))
  {
    var s := Add(u, v);
    calc {
      Times(s, s);
      { TimesAdds(s, u, v); }
      Add(Times(u, s), Times(v, s));
      { TimesAdds(u, u, v); TimesAdds(v, u, v); TimesComm(u, v); }
      Add(Add(Times(u, u), Times(u, v)), Add(Times(u, v), Times(v, v)));
      { AddTwice(Times(u, u), Times(u, v), ZERO, Times(v, v)); }
      Add(Times(u, u), Times(v, v));
    }
  }

  lemma AddTwice(c: F, a: F, b: F, d: F)
    ensures Add(Add(Add(c, a), b), Add(Add(b, a), d)) == Add(c, d)
    ensures Add(Add(c, a), Add(a, d)) == Add(c, d)
  {
  }

  /** u^3 + v^3 == s^3 + s*u*v where s == u + v. */
  lemma SumOfCubes(u: F, v: F)
    ensures var s := Add(u, v); Add(Cube(u), Cube(v)) == Times(s, Add(Times(s, s), Times(u, v)))
  {
    var s, uu, uv, vv := Add(u, v), Times(u, u), Times(u, v), Times(v, v);
    var t := Add(Add(uu, vv), uv);
    var a, b := Times(u, vv), Times(u, uv);
    calc {
      Times(s, Add(Times(s, s), uv));
      { SquareAdds(u, v); }
      Times(s, t);
      { TimesAdds(t, u, v); }
      Add(Times(u, t), Times(v, t));
      { TimesThree(u, uu, vv, uv); TimesThree(v, uu, vv, uv); }
      Add(Add(Add(Cube(u), a), b), Add(Add(Times(v, uu), Cube(v)), Times(v, uv)));
      { Mixed(u, v); Mixed(v, u); TimesComm(u, v); }
      Add(Add(Add(Cube(u), a), b), Add(Add(b, Cube(v)), a));
      { AddTwice(Cube(u), a, b, Cube(v)); AddLast(b, Cube(v), a); }
      Add(Cube(u), Cube(v));
    }
  }

  lemma AddLast(b: F, c: F, a: F)
    ensures Add(Add(b, c), a) == Add(Add(b, a), c)
  {
  }

  lemma TimesThree(u: F, a: F, b: F, c: F)
    ensures Times(u, Add(Add(a, b), c)) == Add(Add(Times(u, a), Times(u, b)), Times(u, c))
  {
    TimesAdds(u, Add(a, b), c);
    TimesAdds(u, a, b);
  }

  lemma Mixed(u: F, v: F)
    ensures Times(v, Times(u, u)) == Times(u, Times(u, v))
  {
    TimesAssoc(u, u, v);
    TimesComm(v, Times(u, u));
  }

  lemma CubesFix(x: F, y: F, z: F, w: F)
    requires Add(x, y) == Add(z, w) != ZERO && Add(Cube(x), Cube(y)) == Add(Cube(z), Cube(w))
    ensures z == x || z == y
  {
    var s := Add(x, y);
    var p, q := Times(x, y), Times(z, w);
    SumOfCubes(x, y);
    SumOfCubes(z, w);
    CancelTimes(s, Add(Times(s, s), p), Add(Times(s, s), q));
    CancelAdd(Times(s, s), p, q);
    SumAndProductFix(x, y, z, w);
  }

  lemma CancelAdd(s: F, p: F, q: F)
    requires Add(s, p) == Add(s, q)
    ensures p == q
  {
  }

  lemma CancelTimes(s: F, p: F, q: F)
    requires s != ZERO && Times(s, p) == Times(s, q)
    ensures p == q
  {
    TimesAdds(s, p, q);
    AddSelf(Times(s, p), Times(s, q));
    NoZeroDivisors(s, Add(p, q));
    AddSelf(p, q);
  }

  /** (z + x)(z + y) == 0 where z and w have the sum and the product of x and y. */
  lemma SumAndProductFix(x: F, y: F, z: F, w: F)
    requires Add(x, y) == Add(z, w) && Times(x, y) == Times(z, w)
    ensures z == x || z == y
  {
    calc {
      Times(Add(z, x), Add(z, y));
      { TimesAdds(Add(z, y), z, x); }
      Add(Times(z, Add(z, y)), Times(x, Add(z, y)));
      { TimesAdds(x, z, y); TimesComm(x, z); }
      Add(Times(z, Add(z, y)), Add(Times(z, x), Times(z, w)));
      { TimesAdds(z, x, w); TimesAdds(z, Add(z, y), Add(x, w)); }
      Times(z, Add(Add(z, y), Add(x, w)));
      { SumsToZero(x, y, z, w); TimesZero(z); }
      ZERO;
    }
    NoZeroDivisors(Add(z, x), Add(z, y));
    AddSelf(z, x);
    AddSelf(z, y);
  }

  lemma SumsToZero(x: F, y: F, z: F, w: F)
    requires Add(x, y) == Add(z, w)
    ensures Add(Add(z, y), Add(x, w)) == ZERO
  {
  }

  // ---------- remainders as locators ----------

  /** alpha^i, the locator of bit `i`. */
  function Locator(i: nat): (u: F) { if i == 0 then ONE else TimesAlpha(Locator(i - 1)) }

  /** x^i modulo 47. */
  function Power(i: nat): (t: F) { if i == 0 then ONE else TimesX(Power(i - 1)) }

  function FromNat(v: nat): (u: F) { F(Bit(v, 0), Bit(v, 1), Bit(v, 2), Bit(v, 3), Bit(v, 4)) }

  lemma FromXor(a: nat, b: nat)
    ensures FromNat(Xor(a, b)) == Add(FromNat(a), FromNat(b))
  {
    XorBit(a, b, 0);
    XorBit(a, b, 1);
    XorBit(a, b, 2);
    XorBit(a, b, 3);
    XorBit(a, b, 4);
  }

  lemma CubeTimesAlpha(u: F)
    ensures Cube(TimesAlpha(u)) == TimesAlpha(TimesAlpha(TimesAlpha(Cube(u))))
  {
    var a, uu := TimesAlpha(u), Times(u, u);
    calc {
      Cube(a);
      { SquareTimesAlpha(u); }
      Times(a, TimesAlpha(TimesAlpha(uu)));
      { HornerTimesAlpha(a, TimesAlpha(uu), 0); HornerTimesAlpha(a, uu, 0); }
      TimesAlpha(TimesAlpha(Times(a, uu)));
      { TimesComm(a, uu); HornerTimesAlpha(uu, u, 0); TimesComm(uu, u); }
      TimesAlpha(TimesAlpha(TimesAlpha(Times(u, uu))));
    }
  }

  lemma SquareTimesAlpha(u: F)
    ensures Times(TimesAlpha(u), TimesAlpha(u)) == TimesAlpha(TimesAlpha(Times(u, u)))
  {
    HornerTimesAlpha(TimesAlpha(u), u, 0);
    TimesComm(TimesAlpha(u), u);
    HornerTimesAlpha(u, u, 0);
  }

  lemma AtCubeTimesX(t: F)
    ensures AtCube(TimesX(t)) == TimesAlpha(TimesAlpha(TimesAlpha(AtCube(t))))
  {
  }

  /** alpha^3 is a root of 47. */
  lemma {:induction false} LocatorCubed(i: nat)
    ensures Cube(Locator(i)) == AtCube(Power(i))
  {
    if i == 0 {
      TimesOne(ONE);
    } else {
      LocatorCubed(i - 1);
      CubeTimesAlpha(Locator(i - 1));
      AtCubeTimesX(Power(i - 1));
    }
  }

  lemma AlphaOnce(u: F, v: F)
    ensures TimesAlpha(u) == TimesAlpha(v) ==> u == v
  {
  }

  function Code(u: F): (a: nat) {
    (if u.b0 then 1 else 0) + (if u.b1 then 2 else 0) + (if u.b2 then 4 else 0) +
    (if u.b3 then 8 else 0) + (if u.b4 then 16 else 0)
  }

  /** Multiplication by alpha on codes. */
  function Next(a: nat): (b: nat) {
    if a < 16 then 2 * a else if a % 8 < 4 then 2 * a - 23 else 2 * a - 39
  }

  /** From this code on, none of `n` successive powers of alpha is one. */
  predicate NoneIsOne(a: nat, n: nat)
    decreases n
  {
    n == 0 || (a != 1 && NoneIsOne(Next(a), n - 1))
  }

  lemma {:induction false} PowerNotOne(i: nat, n: nat, k: nat)
    requires NoneIsOne(Code(Locator(i)), n) && k < n
    ensures Locator(i + k) != ONE
    decreases k
  {
    if k > 0 { PowerNotOne(i + 1, n - 1, k - 1); }
  }

  lemma AlphaCycle()
    ensures NoneIsOne(2, 30)
  {
    assert NoneIsOne(10, 2); assert NoneIsOne(22, 4); assert NoneIsOne(17, 6); assert NoneIsOne(14, 8);
    assert NoneIsOne(23, 10); assert NoneIsOne(27, 12); assert NoneIsOne(24, 14); assert NoneIsOne(6, 16);
    assert NoneIsOne(21, 18); assert NoneIsOne(15, 20); assert NoneIsOne(29, 22); assert NoneIsOne(13, 24);
    assert NoneIsOne(9, 26); assert NoneIsOne(8, 28); assert NoneIsOne(2, 30);
  }

  lemma {:induction false} LocatorsDiffer(i: nat, j: nat)
    requires i < j < BLOCK
    ensures Locator(i) != Locator(j)
  {
    if i == 0 {
      AlphaCycle();
      PowerNotOne(1, 30, j - 1);
    } else {
      LocatorsDiffer(i - 1, j - 1);
      AlphaOnce(Locator(i - 1), Locator(j - 1));
    }
  }

  lemma {:induction false} LocatorNotZero(i: nat)
    ensures Locator(i) != ZERO
  {
    if i > 0 { LocatorNotZero(i - 1); }
  }

  lemma FeedCases(p: nat, r: nat, bit: nat)
    requires (p == FIRST || p == CUBED) && r < 32 && bit < 2
    ensures Feed(p, r, bit) == if r >= 16 then Xor(2 * r + bit, p) else 2 * r + bit
  {
    BitsOf41();
    assert Pow2(5) == 32;
    hide Xor, BitLength;
  }

  lemma FeedIsTimesAlpha(r: nat, bit: nat)
    requires r < 32 && bit < 2
    ensures FromNat(Feed(FIRST, r, bit)) == Append(TimesAlpha(FromNat(r)), bit)
  {
    FeedCases(FIRST, r, bit);
    BitsOfDouble(r, bit);
    TopOfFive(r);
    BitsOf41();
    FromXor(2 * r + bit, FIRST);
    hide Feed, Xor, Bit;
  }

  lemma FeedIsTimesX(r: nat, bit: nat)
    requires r < 32 && bit < 2
    ensures FromNat(Feed(CUBED, r, bit)) == Append(TimesX(FromNat(r)), bit)
  {
    FeedCases(CUBED, r, bit);
    BitsOfDouble(r, bit);
    TopOfFive(r);
    BitsOf41();
    FromXor(2 * r + bit, CUBED);
    hide Feed, Xor, Bit;
  }

  function Append(u: F, bit: nat): (r: F) { if bit % 2 == 1 then Add(u, ONE) else u }

  lemma DoubleBit(r: nat, bit: nat, i: nat)
    requires bit < 2
    ensures Bit(2 * r + bit, i + 1) == Bit(r, i)
  {
  }

  lemma BitsOfDouble(r: nat, bit: nat)
    requires r < 32 && bit < 2
    ensures FromNat(2 * r + bit) == F(bit == 1, Bit(r, 0), Bit(r, 1), Bit(r, 2), Bit(r, 3))
  {
    DoubleBit(r, bit, 0);
    DoubleBit(r, bit, 1);
    DoubleBit(r, bit, 2);
    DoubleBit(r, bit, 3);
  }

  lemma TopOfFive(r: nat)
    requires r < 32
    ensures Bit(r, 4) <==> r >= 16
  {
    assert Pow2(4) == 16 && Pow2(5) == 32;
    TopBit(r, 4);
  }

  lemma BitsOf41()
    ensures FromNat(FIRST) == F(true, false, false, true, false) && Degree(FIRST) == 5
    ensures FromNat(CUBED) == F(true, true, true, true, false) && Degree(CUBED) == 5
  {
  }

  /** The value of the polynomial `v` at alpha. */
  function AtAlpha(v: nat): (u: F) { if v == 0 then ZERO else Append(TimesAlpha(AtAlpha(v / 2)), v) }

  /** Its remainder modulo 47. */
  function ModCubed(v: nat): (t: F) { if v == 0 then ZERO else Append(TimesX(ModCubed(v / 2)), v) }

  lemma {:induction false} RemAtAlpha(v: nat)
    ensures FromNat(Rem(FIRST, v)) == AtAlpha(v)
  {
    if v > 0 {
      RemAtAlpha(v / 2);
      RemBelow32(v / 2);
      FeedIsTimesAlpha(Rem(FIRST, v / 2), v % 2);
    }
  }

  lemma {:induction false} RemModCubed(v: nat)
    ensures FromNat(Rem(CUBED, v)) == ModCubed(v)
  {
    if v > 0 {
      RemModCubed(v / 2);
      RemBelow32(v / 2);
      FeedIsTimesX(Rem(CUBED, v / 2), v % 2);
    }
  }

  lemma {:induction false} RemIsLocator(i: nat)
    ensures FromNat(Rem(FIRST, Pow2(i))) == Locator(i)
  {
    RemAtAlpha(Pow2(i));
    if i > 0 {
      RemIsLocator(i - 1);
      RemAtAlpha(Pow2(i - 1));
    }
  }

  lemma {:induction false} RemIsPower(i: nat)
    ensures FromNat(Rem(CUBED, Pow2(i))) == Power(i)
  {
    RemModCubed(Pow2(i));
    if i > 0 {
      RemIsPower(i - 1);
      RemModCubed(Pow2(i - 1));
    }
  }

  lemma RemBelow32(v: nat)
    ensures Rem(FIRST, v) < 32 && Rem(CUBED, v) < 32
  {
    BitsOf41();
    assert Pow2(5) == 32;
    RemBelow(FIRST, v);
    RemBelow(CUBED, v);
  }

  /** The locators of two errors, zero for an error that is not there. */
  function First(e: Errors): (u: F) {
    match e case Clean => ZERO case One(b) => Locator(b) case Two(b1, _) => Locator(b1)
  }

  function Second(e: Errors): (u: F) {
    match e case Clean => ZERO case One(_) => ZERO case Two(_, b2) => Locator(b2)
  }

  lemma PairIsSum(b1: nat, b2: nat)
    requires b1 < b2
    ensures FromNat(Syndrome(FIRST, Two(b1, b2))) == Add(Locator(b1), Locator(b2))
  {
    var r1, r2 := Rem(FIRST, Pow2(b1)), Rem(FIRST, Pow2(b2));
    calc {
      FromNat(Syndrome(FIRST, Two(b1, b2)));
      { TwoBits(b1, b2); RemLinear(FIRST, Pow2(b1), Pow2(b2)); }
      FromNat(Xor(r1, r2));
      { FromXor(r1, r2); }
      Add(FromNat(r1), FromNat(r2));
      { RemIsLocator(b1); RemIsLocator(b2); }
      Add(Locator(b1), Locator(b2));
    }
  }

  /** The remainder modulo 41 is the sum of the locators. */
  lemma SyndromeIsSum(e: Errors, n: nat)
    requires Within(e, n)
    ensures FromNat(Syndrome(FIRST, e)) == Add(First(e), Second(e))
  {
    match e {
      case Clean =>
      case One(b) => RemIsLocator(b);
      case Two(b1, b2) => PairIsSum(b1, b2);
    }
  }

  lemma PairIsSumOfCubes(b1: nat, b2: nat)
    requires b1 < b2
    ensures AtCube(FromNat(Syndrome(CUBED, Two(b1, b2)))) == Add(Cube(Locator(b1)), Cube(Locator(b2)))
  {
    var r1, r2 := Rem(CUBED, Pow2(b1)), Rem(CUBED, Pow2(b2));
    calc {
      AtCube(FromNat(Syndrome(CUBED, Two(b1, b2))));
      { TwoBits(b1, b2); RemLinear(CUBED, Pow2(b1), Pow2(b2)); }
      AtCube(FromNat(Xor(r1, r2)));
      { FromXor(r1, r2); AtCubeAdds(FromNat(r1), FromNat(r2)); }
      Add(AtCube(FromNat(r1)), AtCube(FromNat(r2)));
      { RemIsPower(b1); RemIsPower(b2); }
      Add(AtCube(Power(b1)), AtCube(Power(b2)));
      { LocatorCubed(b1); LocatorCubed(b2); }
      Add(Cube(Locator(b1)), Cube(Locator(b2)));
    }
  }

  /** The remainder modulo 47 gives the sum of their cubes. */
  lemma SyndromeIsSumOfCubes(e: Errors, n: nat)
    requires Within(e, n)
    ensures AtCube(FromNat(Syndrome(CUBED, e))) == Add(Cube(First(e)), Cube(Second(e)))
  {
    match e {
      case Clean => CubeOfZero(ZERO);
      case One(b) =>
        CubeOfZero(Cube(Locator(b)));
        RemIsPower(b);
        LocatorCubed(b);
      case Two(b1, b2) => PairIsSumOfCubes(b1, b2);
    }
  }

  lemma CubeOfZero(u: F)
    ensures Add(u, Cube(ZERO)) == u
  {
    TimesZero(ZERO);
  }

  lemma AtCubeAdds(t: F, u: F)
    ensures AtCube(Add(t, u)) == Add(AtCube(t), AtCube(u))
  {
  }

  /** A factor of the polynomial sees no difference either. */
  lemma FactorSeesNone(p: nat, f: nat, e: Errors, e': Errors)
    requires p > 0 && f > 0 && Rem(f, p) == 0 && Syndrome(p, e) == Syndrome(p, e')
    ensures Syndrome(f, e) == Syndrome(f, e')
  {
    RemLinear(p, Word(e), Word(e'));
    XorSelf(Syndrome(p, e));
    FactorDivides(p, f, Xor(Word(e), Word(e')));
    RemLinear(f, Word(e), Word(e'));
    XorEqual(Syndrome(f, e), Syndrome(f, e'));
  }

  lemma SameLocator(i: nat, j: nat)
    requires i < BLOCK && j < BLOCK && Locator(i) == Locator(j)
    ensures i == j
  {
    if i < j { LocatorsDiffer(i, j); } else if j < i { LocatorsDiffer(j, i); }
  }

  /** Which locators are zero says how many errors there are. */
  lemma Counted(e: Errors)
    requires Within(e, BLOCK)
    ensures First(e) == ZERO <==> e == Clean
    ensures Second(e) == ZERO <==> !e.Two?
    ensures First(e) == Second(e) <==> e == Clean
  {
    match e {
      case Clean =>
      case One(b) => LocatorNotZero(b);
      case Two(b1, b2) =>
        LocatorNotZero(b1);
        LocatorNotZero(b2);
        LocatorsDiffer(b1, b2);
    }
  }

  lemma SameOrder(e: Errors, f: Errors)
    requires Within(e, BLOCK) && Within(f, BLOCK) && First(f) == First(e) && Second(f) == Second(e)
    ensures e == f
  {
    Counted(e);
    Counted(f);
    match e {
      case Clean =>
      case One(b) => SameLocator(b, f.b);
      case Two(b1, b2) =>
        SameLocator(b1, f.b1);
        SameLocator(b2, f.b2);
    }
  }

  lemma OtherOrder(e: Errors, f: Errors)
    requires Within(e, BLOCK) && Within(f, BLOCK) && First(f) == Second(e) && Second(f) == First(e)
    ensures e == f
  {
    Counted(e);
    Counted(f);
    if e.Two? && f.Two? {
      SameLocator(e.b1, f.b2);
      SameLocator(e.b2, f.b1);
    }
  }

  /** The two sums fix the errors. */
  lemma SumsFix(e: Errors, f: Errors)
    requires Within(e, BLOCK) && Within(f, BLOCK)
    requires Add(First(e), Second(e)) == Add(First(f), Second(f))
    requires Add(Cube(First(e)), Cube(Second(e))) == Add(Cube(First(f)), Cube(Second(f)))
    ensures e == f
  {
    var u, v, u', v' := First(e), Second(e), First(f), Second(f);
    if Add(u, v) == ZERO {
      AddSelf(u, v);
      AddSelf(u', v');
      Counted(e);
      Counted(f);
    } else {
      PairFixed(u, v, u', v');
      if u' == u { SameOrder(e, f); } else { OtherOrder(e, f); }
    }
  }

  lemma PairFixed(x: F, y: F, z: F, w: F)
    requires Add(x, y) == Add(z, w) != ZERO && Add(Cube(x), Cube(y)) == Add(Cube(z), Cube(w))
    ensures (z == x && w == y) || (z == y && w == x)
  {
    CubesFix(x, y, z, w);
    AddComm(x, y);
    if z == x { CancelAdd(x, y, w); } else { CancelAdd(y, x, w); }
  }

  lemma AddComm(u: F, v: F)
    ensures Add(u, v) == Add(v, u)
  {
  }

  lemma SameSyndrome(p: nat, e: Errors, f: Errors)
    requires p > 0 && Rem(FIRST, p) == 0 && Rem(CUBED, p) == 0
    requires Within(e, BLOCK) && Within(f, BLOCK) && Syndrome(p, e) == Syndrome(p, f)
    ensures e == f
  {
    assert Add(First(e), Second(e)) == Add(First(f), Second(f)) by {
      FactorSeesNone(p, FIRST, e, f);
      SyndromeIsSum(e, BLOCK);
      SyndromeIsSum(f, BLOCK);
    }
    assert Add(Cube(First(e)), Cube(Second(e))) == Add(Cube(First(f)), Cube(Second(f))) by {
      FactorSeesNone(p, CUBED, e, f);
      SyndromeIsSumOfCubes(e, BLOCK);
      SyndromeIsSumOfCubes(f, BLOCK);
    }
    SumsFix(e, f);
  }

  /** Every multiple of 41 and 47 corrects two errors in 31 bits. */
  lemma MultiplesSeparate(p: nat)
    requires p > 0 && Rem(FIRST, p) == 0 && Rem(CUBED, p) == 0
    ensures Separates(p, BLOCK)
  {
    forall e, f | Within(e, BLOCK) && Within(f, BLOCK) && Syndrome(p, e) == Syndrome(p, f)
      ensures e == f
    {
      SameSyndrome(p, e, f);
    }
  }

  lemma IsZero(r: nat)
    requires r < 32 && FromNat(r) == ZERO
    ensures r == 0
  {
    assert Pow2(1) == 2 && Pow2(2) == 4 && Pow2(3) == 8 && Pow2(4) == 16 && Pow2(5) == 32;
    TopBit(r, 4);
    TopBit(r, 3);
    TopBit(r, 2);
    TopBit(r, 1);
  }

  lemma Roots1207()
    ensures AtAlpha(1207) == ZERO && ModCubed(1207) == ZERO
  {
    assert AtAlpha(2) == F(false, true, false, false, false);
    assert AtAlpha(9) == F(true, false, false, true, false);
    assert AtAlpha(37) == F(false, false, true, true, false);
    assert AtAlpha(150) == F(true, true, false, true, true);
    assert AtAlpha(603) == F(false, false, true, false, true);
    assert ModCubed(2) == F(false, true, false, false, false);
    assert ModCubed(9) == F(true, false, false, true, false);
    assert ModCubed(37) == F(false, true, false, true, false);
    assert ModCubed(150) == F(true, false, true, false, false);
    assert ModCubed(603) == F(true, true, true, false, true);
  }

  lemma Roots3545()
    ensures AtAlpha(3545) == ZERO && ModCubed(3545) == ZERO
  {
    assert AtAlpha(3) == F(true, true, false, false, false);
    assert AtAlpha(13) == F(true, false, true, true, false);
    assert AtAlpha(55) == F(false, true, true, true, true);
    assert AtAlpha(221) == F(false, true, false, false, false);
    assert AtAlpha(886) == F(false, true, false, true, false);
    assert ModCubed(3) == F(true, true, false, false, false);
    assert ModCubed(13) == F(true, false, true, true, false);
    assert ModCubed(55) == F(false, false, false, true, true);
    assert ModCubed(221) == F(false, false, false, false, true);
    assert ModCubed(886) == F(false, false, true, true, true);
  }

  /** The ring alert code and the data code correct two errors. */
  lemma CodesSeparate()
    ensures Separates(BCH_POLY_RA, BLOCK) && Separates(BCH_POLY_DA, BLOCK)
  {
    Roots1207();
    Roots3545();
    HasRoots(BCH_POLY_RA);
    HasRoots(BCH_POLY_DA);
    MultiplesSeparate(BCH_POLY_RA);
    MultiplesSeparate(BCH_POLY_DA);
  }

  lemma HasRoots(p: nat)
    requires AtAlpha(p) == ZERO && ModCubed(p) == ZERO
    ensures Rem(FIRST, p) == 0 && Rem(CUBED, p) == 0
  {
    RemAtAlpha(p);
    RemModCubed(p);
    RemBelow32(p);
    IsZero(Rem(FIRST, p));
    IsZero(Rem(CUBED, p));
  }

  lemma Confused(i: nat, j: nat, k: nat)
    requires j < k && Locator(i) == Add(Locator(j), Locator(k))
    ensures Syndrome(FIRST, One(i)) == Syndrome(FIRST, Two(j, k))
  {
    RemIsLocator(i);
    PairIsSum(j, k);
    RemBelow32(Word(One(i)));
    RemBelow32(Word(Two(j, k)));
    SameCode(Syndrome(FIRST, One(i)), Syndrome(FIRST, Two(j, k)));
  }

  /** alpha^5 == alpha^3 + 1. */
  lemma Relation()
    ensures Locator(5) == Add(Locator(0), Locator(3))
  {
    assert Locator(1) == ALPHA;
    assert Locator(2) == F(false, false, true, false, false);
    assert Locator(3) == F(false, false, false, true, false);
    assert Locator(4) == F(false, false, false, false, true);
  }

  lemma SameCode(r: nat, s: nat)
    requires r < 32 && s < 32 && FromNat(r) == FromNat(s)
    ensures r == s
  {
    FromXor(r, s);
    AddSelf(FromNat(r), FromNat(s));
    assert Pow2(5) == 32;
    XorBelow(r, s, 5);
    IsZero(Xor(r, s));
    XorEqual(r, s);
  }
}
