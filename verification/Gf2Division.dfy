/** Division of polynomials over GF(2), and the two routines that compute remainders. */
module Gf2Division {
  import opened Gf2

  function Degree(p: nat): (d: nat)
    requires p > 0
    ensures Pow2(d) <= p < Pow2(d + 1)
  {
    BitLengthBounds(p);
    BitLength(p) - 1
  }

  /** The register after one more bit. */
  function Feed(p: nat, r: nat, bit: nat): (r': nat)
    requires p > 0
  {
    Reduce(p, Degree(p), 2 * r + bit)
  }

  function Reduce(p: nat, d: nat, x: nat): (r: nat) { if x >= Pow2(d) then Xor(x, p) else x }

  /** The remainder of `v` divided by `p`: the register after feeding all bits of `v`, highest first. */
  function Rem(p: nat, v: nat): (r: nat)
    requires p > 0
    decreases v
  {
    if v == 0 then 0 else Feed(p, Rem(p, v / 2), v % 2)
  }

  /** The quotient that goes with it. */
  function Quo(p: nat, v: nat): (q: nat)
    requires p > 0
    decreases v
  {
    if v == 0 then 0
    else 2 * Quo(p, v / 2) + if 2 * Rem(p, v / 2) + v % 2 >= Pow2(Degree(p)) then 1 else 0
  }

  lemma {:induction false} RemBelow(p: nat, v: nat)
    requires p > 0
    ensures Rem(p, v) < Pow2(Degree(p))
    decreases v
  {
    if v > 0 {
      RemBelow(p, v / 2);
      var d, x := Degree(p), 2 * Rem(p, v / 2) + v % 2;
      if x >= Pow2(d) { XorLeading(x, p, d); }
    }
  }

  /** Division with remainder. */
  lemma {:induction false} Euclid(p: nat, v: nat)
    requires p > 0
    ensures v == Xor(Mul(p, Quo(p, v)), Rem(p, v))
    decreases v
  {
    hide Xor, Mul, Reduce, Pow2, BitLength;
    if v == 0 {
      XorZero(0);
      NoProduct(p);
    } else {
      var q, r, bit := Quo(p, v / 2), Rem(p, v / 2), v % 2;
      EuclidBit(p, q, r, bit);
      Euclid(p, v / 2);
      assert v == 2 * (v / 2) + bit;
    }
  }

  lemma NoProduct(p: nat)
    ensures Mul(p, 0) == 0
  {
  }

  lemma EuclidBit(p: nat, q: nat, r: nat, bit: nat)
    requires p > 0 && bit < 2
    ensures var x := 2 * r + bit; var carry := if x >= Pow2(Degree(p)) then 1 else 0;
      Xor(Mul(p, 2 * q + carry), Reduce(p, Degree(p), x)) == 2 * Xor(Mul(p, q), r) + bit
  {
    var x := 2 * r + bit;
    EuclidStep(Mul(p, q), r, bit);
    if x >= Pow2(Degree(p)) {
      MulOdd(p, q);
      AddBoth(p, 2 * Mul(p, q), x);
    } else {
      MulEven(p, q);
    }
  }

  lemma AddBoth(p: nat, a: nat, b: nat)
    ensures Xor(Xor(p, a), Xor(b, p)) == Xor(a, b)
  {
    XorComm(p, a);
    XorComm(b, p);
    XorSwap(a, p, b, p);
    XorComm(p, b);
    XorSwap(a, p, b, p);
    XorSelf(p);
    XorZero(Xor(a, b));
  }

  lemma MulEven(p: nat, q: nat)
    ensures Mul(p, 2 * q) == 2 * Mul(p, q)
  {
    XorZero(2 * Mul(p, q));
  }

  lemma MulOdd(p: nat, q: nat)
    ensures Mul(p, 2 * q + 1) == Xor(p, 2 * Mul(p, q))
  {
  }

  lemma EuclidStep(m: nat, r: nat, bit: nat)
    requires bit < 2
    ensures Xor(2 * m, 2 * r + bit) == 2 * Xor(m, r) + bit
  {
  }

  lemma XorOneLeading(a: nat, b: nat, k: nat)
    requires Pow2(k) <= a < Pow2(k + 1) && b < Pow2(k)
    ensures Pow2(k) <= Xor(a, b)
  {
    if Xor(a, b) < Pow2(k) {
      XorBelow(Xor(a, b), b, k);
      XorCancel(a, b);
    }
  }

  lemma FeedLinear(p: nat, r: nat, s: nat, a: nat, b: nat)
    requires p > 0 && r < Pow2(Degree(p)) && s < Pow2(Degree(p)) && a < 2 && b < 2
    ensures Feed(p, Xor(r, s), Xor(a, b)) == Xor(Feed(p, r, a), Feed(p, s, b))
  {
    hide Xor, Reduce, Degree;
    var d, x, y := Degree(p), 2 * r + a, 2 * s + b;
    calc {
      Feed(p, Xor(r, s), Xor(a, b));
      Reduce(p, d, 2 * Xor(r, s) + Xor(a, b));
      { DoubleXor(r, s, a, b); }
      Reduce(p, d, Xor(x, y));
      { ReduceLinear(p, d, x, y); }
      Xor(Reduce(p, d, x), Reduce(p, d, y));
    }
  }

  lemma DoubleXor(r: nat, s: nat, a: nat, b: nat)
    requires a < 2 && b < 2
    ensures Xor(2 * r + a, 2 * s + b) == 2 * Xor(r, s) + Xor(a, b)
  {
    SmallXor(a, b);
    XorSplit(2 * r + a, 2 * s + b);
  }

  lemma NothingBelow(a: nat, x: nat, k: nat)
    requires k == 0 && x < Pow2(k)
    ensures x == 0 && Shl(a, k) == a
  {
  }

  lemma HalfOf(a: nat, x: nat, k: nat)
    requires k > 0 && x < Pow2(k)
    ensures x / 2 < Pow2(k - 1) && Shl(a, k) == 2 * Shl(a, k - 1) && Shl(a, k) + x == 2 * (Shl(a, k - 1) + x / 2) + x % 2
  {
  }

  /** Words side by side: the low `k` bits and those above do not meet. */
  lemma {:induction false} XorConcat(a: nat, b: nat, x: nat, y: nat, k: nat)
    requires x < Pow2(k) && y < Pow2(k)
    ensures Xor(Shl(a, k) + x, Shl(b, k) + y) == Shl(Xor(a, b), k) + Xor(x, y)
  {
    hide Xor, Pow2, Shl;
    if k == 0 {
      NothingBelow(a, x, k);
      NothingBelow(b, y, k);
      NothingBelow(Xor(a, b), 0, k);
      XorZero(0);
    } else {
      var p, q := Shl(a, k - 1) + x / 2, Shl(b, k - 1) + y / 2;
      HalfOf(a, x, k);
      HalfOf(b, y, k);
      HalfOf(Xor(a, b), 0, k);
      calc {
        Xor(Shl(a, k) + x, Shl(b, k) + y);
        { DoubleXor(p, q, x % 2, y % 2); }
        2 * Xor(p, q) + Xor(x % 2, y % 2);
        { XorConcat(a, b, x / 2, y / 2, k - 1); }
        Shl(Xor(a, b), k) + 2 * Xor(x / 2, y / 2) + Xor(x % 2, y % 2);
        { DoubleXor(x / 2, y / 2, x % 2, y % 2); }
        Shl(Xor(a, b), k) + Xor(x, y);
      }
    }
  }

  lemma ReduceLinear(p: nat, d: nat, x: nat, y: nat)
    requires Pow2(d) <= p < Pow2(d + 1) && x < Pow2(d + 1) && y < Pow2(d + 1)
    ensures Reduce(p, d, Xor(x, y)) == Xor(Reduce(p, d, x), Reduce(p, d, y))
  {
    if x >= Pow2(d) && y >= Pow2(d) {
      XorLeading(x, y, d);
      XorSwap(x, p, y, p);
      XorSelf(p);
      XorZero(Xor(x, y));
    } else if x >= Pow2(d) {
      XorOneLeading(x, y, d);
      XorAssoc(x, p, y);
      XorComm(p, y);
      XorAssoc(x, y, p);
    } else if y >= Pow2(d) {
      XorOneLeading(y, x, d);
      XorComm(x, y);
      XorAssoc(x, y, p);
    } else {
      XorBelow(x, y, d);
    }
  }

  lemma SmallXor(a: nat, b: nat)
    requires a < 2 && b < 2
    ensures Xor(a, b) == if a == b then 0 else 1
  {
  }

  /** Remainders add up. */
  lemma {:induction false} RemLinear(p: nat, a: nat, b: nat)
    requires p > 0
    ensures Rem(p, Xor(a, b)) == Xor(Rem(p, a), Rem(p, b))
    decreases a + b
  {
    if a + b == 0 {
      XorZero(0);
    } else {
      RemLinear(p, a / 2, b / 2);
      RemBelow(p, a / 2);
      RemBelow(p, b / 2);
      XorSplit(a, b);
      SmallXor(a % 2, b % 2);
      FeedLinear(p, Rem(p, a / 2), Rem(p, b / 2), a % 2, b % 2);
      RemUnfold(p, a);
      RemUnfold(p, b);
      RemUnfold(p, Xor(a, b));
    }
  }

  /** The definition also holds at zero. */
  lemma RemUnfold(p: nat, v: nat)
    requires p > 0
    ensures Rem(p, v) == Feed(p, Rem(p, v / 2), v % 2)
  {
  }

  lemma RemDouble(p: nat, v: nat)
    requires p > 0
    ensures Rem(p, 2 * v) == Feed(p, Rem(p, v), 0)
  {
    RemUnfold(p, 2 * v);
  }

  lemma {:induction false} RemSmall(p: nat, v: nat)
    requires p > 0 && v < Pow2(Degree(p))
    ensures Rem(p, v) == v
    decreases v
  {
    if v > 0 { RemSmall(p, v / 2); }
  }

  lemma {:induction false} RemShl(p: nat, k: nat)
    requires p > 0
    ensures Rem(p, Shl(p, k)) == 0
  {
    if k == 0 {
      RemSmall(p, p / 2);
      XorSelf(p);
    } else {
      RemShl(p, k - 1);
    }
  }

  lemma RemMul(p: nat, q: nat)
    requires p > 0
    ensures Rem(p, Mul(p, q)) == 0
  {
    RemItself(p);
    FactorOfMultiple(p, p, q);
  }

  lemma RemItself(p: nat)
    requires p > 0
    ensures Rem(p, p) == 0
  {
    RemShl(p, 0);
  }

  lemma MulNothing(p: nat)
    ensures Mul(p, 0) == 0
  {
  }

  lemma RemNothing(f: nat)
    requires f > 0
    ensures Rem(f, 0) == 0
  {
  }

  lemma DoubleDivides(f: nat, v: nat)
    requires f > 0 && Rem(f, v) == 0
    ensures Rem(f, 2 * v) == 0
  {
    RemDouble(f, v);
  }

  /** There is one remainder: whatever multiple of `p` is taken off, what is left below the degree of `p` is `Rem`. */
  lemma RemUnique(p: nat, v: nat, q: nat, r: nat)
    requires p > 0 && r < Pow2(Degree(p)) && v == Xor(Mul(p, q), r)
    ensures r == Rem(p, v)
  {
    RemLinear(p, Mul(p, q), r);
    RemMul(p, q);
    RemSmall(p, r);
    XorZero(r);
  }

  /** A factor of the divisor divides what the divisor divides. */
  lemma FactorDivides(p: nat, f: nat, v: nat)
    requires p > 0 && f > 0 && Rem(f, p) == 0 && Rem(p, v) == 0
    ensures Rem(f, v) == 0
  {
    Euclid(p, v);
    XorZero(Mul(p, Quo(p, v)));
    FactorOfMultiple(p, f, Quo(p, v));
  }

  lemma {:induction false} FactorOfMultiple(p: nat, f: nat, q: nat)
    requires p > 0 && f > 0 && Rem(f, p) == 0
    ensures Rem(f, Mul(p, q)) == 0
    decreases q
  {
    hide Rem, Mul, Xor;
    if q == 0 {
      MulNothing(p);
      RemNothing(f);
    } else {
      var h := q / 2;
      FactorOfMultiple(p, f, h);
      DoubleDivides(f, Mul(p, h));
      if q % 2 == 0 {
        MulEven(p, h);
      } else {
        MulOdd(p, h);
        RemLinear(f, p, 2 * Mul(p, h));
        XorZero(0);
      }
    }
  }

  // ---------- the two routines ----------

  lemma TopBit(v: nat, i: nat)
    requires v < Pow2(i + 1)
    ensures Bit(v, i) <==> Pow2(i) <= v
  {
    if i > 0 { TopBit(v / 2, i - 1); }
  }

  /** Taking off a shifted divisor keeps the remainder and clears the top bit. */
  lemma TakeOff(p: nat, v: nat, i: nat)
    requires p > 0 && Degree(p) <= i && Pow2(i) <= v < Pow2(i + 1)
    ensures Pow2(i) <= Shl(p, i - Degree(p)) < Pow2(i + 1)
    ensures Xor(v, Shl(p, i - Degree(p))) < Pow2(i)
    ensures Rem(p, Xor(v, Shl(p, i - Degree(p)))) == Rem(p, v)
  {
    var k := i - Degree(p);
    ShlBounds(p, Degree(p), k);
    XorLeading(v, Shl(p, k), i);
    RemLinear(p, v, Shl(p, k));
    RemShl(p, k);
    XorZero(Rem(p, v));
  }

  lemma {:induction false} Pow2Grows(i: nat, j: nat)
    requires i <= j
    ensures Pow2(i) <= Pow2(j)
  {
    if i < j { Pow2Grows(i, j - 1); }
  }

  const WORD_BITS := 32
  const WORD := 0x1_0000_0000

  lemma WordIsPow2()
    ensures Pow2(WORD_BITS) == WORD
  {
    assert Pow2(8) == 0x100;
    Pow2Add(8, 8);
    Pow2Add(16, 16);
  }

  lemma {:induction false} Pow2Add(i: nat, j: nat)
    ensures Pow2(i + j) == Pow2(i) * Pow2(j)
  {
    if j > 0 { Pow2Add(i, j - 1); }
  }

  /** A 32-bit word. */
  function Truncate(x: nat): (r: nat)
    ensures r < WORD
    ensures x < WORD ==> r == x
  {
    x % WORD
  }

  /** `gf2_remainder` on 32-bit words. */
  method Gf2Remainder(poly: nat, val: nat) returns (r: nat)
    requires 0 < poly < WORD && val < WORD
    ensures r == Rem(poly, val)
  {
    hide Rem, Xor;
    if val == 0 {
      RemSmall(poly, 0);
      return 0;
    }
    WordIsPow2();
    var polyBits := BitLength(poly);
    PolyFits(poly);
    r := val;
    var i := WORD_BITS - 1;
    while i >= polyBits - 1
      invariant polyBits - 2 <= i < WORD_BITS
      invariant r < Pow2(i + 1) && Rem(poly, r) == Rem(poly, val)
    {
      TopBit(r, i);
      if Bit(r, i) {
        TakeOff(poly, r, i);
        Pow2Grows(i + 1, WORD_BITS);
        r := Xor(r, Truncate(Shl(poly, i - polyBits + 1)));
      }
      i := i - 1;
    }
    RemSmall(poly, r);
  }

  lemma PolyFits(poly: nat)
    requires 0 < poly < Pow2(WORD_BITS)
    ensures 0 < BitLength(poly) == Degree(poly) + 1 <= WORD_BITS
  {
    if WORD_BITS <= Degree(poly) { Pow2Grows(WORD_BITS, Degree(poly)); }
  }

  /** `nndivide`, on integers of any size. */
  method NnDivide(poly: nat, num: nat) returns (r: nat)
    requires 0 < poly
    ensures r == Rem(poly, num)
  {
    hide Rem, Xor, Shl;
    if num == 0 {
      RemSmall(poly, 0);
      return 0;
    }
    BitLengthBounds(num);
    r := num;
    var bits := BitLength(num) - BitLength(poly);
    var pow := Pow2(BitLength(num) - 1);
    ghost var d := Degree(poly);
    if bits < 0 {
      Pow2Grows(BitLength(num), d);
    }
    while bits >= 0
      invariant bits >= -1 ==> r < Pow2(bits + d + 1)
      invariant bits >= 0 ==> pow == Pow2(bits + d)
      invariant bits < -1 ==> r < Pow2(d)
      invariant Rem(poly, r) == Rem(poly, num)
    {
      if r >= pow {
        TakeOff(poly, r, bits + d);
        r := Xor(r, Shl(poly, bits));
      }
      pow := pow / 2;
      bits := bits - 1;
    }
    RemSmall(poly, r);
  }
}
