/** CRC-CCITT of data bursts (ida_decode.c), shown to be a remainder of polynomials over GF(2). */
module Crc {
  import opened Gf2
  import opened Gf2Division
  import opened Words
  import opened Chase

  type Bytes = seq<nat>

  predicate AreBytes(d: Bytes) { forall i :: 0 <= i < |d| ==> d[i] < 256 }

  /** x^16 + x^12 + x^5 + 1 */
  const CCITT := 0x11021
  const CCITT_LOW := 0x1021
  const INIT := 0xFFFF

  lemma CcittDegree()
    ensures Degree(CCITT) == 16 && Pow2(16) == 0x10000
  {
    assert Pow2(8) == 256;
    Pow2Add(8, 8);
    DegreeIs(CCITT, 16);
  }

  lemma DegreeIs(p: nat, d: nat)
    requires p > 0 && Pow2(d) <= p < Pow2(d + 1)
    ensures Degree(p) == d
  {
    if Degree(p) < d {
      Pow2Grows(Degree(p) + 1, d);
    } else if Degree(p) > d {
      Pow2Grows(d + 1, Degree(p));
    }
  }

  /** One bit of `crc_ccitt`: the register is 16 bits wide. */
  function Shift(r: nat): (r': nat)
    requires r < 0x10000
  {
    if r >= 0x8000 then Xor(2 * r - 0x10000, CCITT_LOW) else 2 * r
  }

  /** It is one step of division. */
  lemma ShiftIsFeed(r: nat)
    requires r < 0x10000
    ensures Shift(r) == Feed(CCITT, r, 0) < 0x10000
  {
    CcittDegree();
    if r >= 0x8000 {
      var x := 2 * r - 0x10000;
      ShlOne(16);
      XorConcat(1, 1, x, CCITT_LOW, 16);
      XorSelf(1);
      ShlZero(16);
      XorBelow(x, CCITT_LOW, 16);
    }
  }

  lemma {:induction false} ShlOne(k: nat)
    ensures Shl(1, k) == Pow2(k)
  {
    if k > 0 { ShlOne(k - 1); }
  }

  /** `k` bits. */
  function Shifts(r: nat, k: nat): (r': nat)
    requires r < 0x10000
    ensures r' < 0x10000
  {
    if k == 0 then r
    else
      var s := Shifts(r, k - 1);
      ShiftIsFeed(s);
      Shift(s)
  }

  lemma {:induction false} ShiftsIsRem(r: nat, k: nat)
    requires r < 0x10000
    ensures Shifts(r, k) == Rem(CCITT, Shl(r, k))
  {
    hide Rem, Feed, Shift;
    if k == 0 {
      CcittDegree();
      RemSmall(CCITT, r);
    } else {
      ShiftsIsRem(r, k - 1);
      ShiftIsFeed(Shifts(r, k - 1));
      RemDouble(CCITT, Shl(r, k - 1));
    }
  }

  /** The register after one more byte. */
  function Byte(r: nat, b: nat): (r': nat)
    requires r < 0x10000 && b < 256
    ensures r' < 0x10000
  {
    CcittDegree();
    XorBelow(r, 256 * b, 16);
    Shifts(Xor(r, 256 * b), 8)
  }

  /** The register after the first `n` bytes. */
  function Register(r: nat, d: Bytes, n: nat): (r': nat)
    requires r < 0x10000 && AreBytes(d) && n <= |d|
    ensures r' < 0x10000
  {
    if n == 0 then r else Byte(Register(r, d, n - 1), d[n - 1])
  }

  /** The first `n` bytes read as one number, highest first. */
  function Number(d: Bytes, n: nat): (v: nat)
    requires n <= |d|
  {
    if n == 0 then 0 else Shl(Number(d, n - 1), 8) + d[n - 1]
  }

  lemma {:induction false} ShlShl(a: nat, i: nat, j: nat)
    ensures Shl(Shl(a, i), j) == Shl(a, i + j)
  {
    if j > 0 { ShlShl(a, i, j - 1); }
  }

  lemma {:induction false} RemOfShl(p: nat, v: nat, k: nat)
    requires p > 0
    ensures Rem(p, Shl(Rem(p, v), k)) == Rem(p, Shl(v, k))
  {
    hide Rem, Feed;
    if k == 0 {
      RemBelow(p, v);
      RemSmall(p, Rem(p, v));
    } else {
      RemOfShl(p, v, k - 1);
      RemDouble(p, Shl(Rem(p, v), k - 1));
      RemDouble(p, Shl(v, k - 1));
    }
  }

  lemma {:induction false} ShlTimes(a: nat, k: nat)
    ensures Shl(a, k) == a * Pow2(k)
  {
    if k > 0 { ShlTimes(a, k - 1); }
  }

  lemma ShlByte(b: nat)
    ensures Shl(b, 8) == 256 * b
  {
    ShlTimes(b, 8);
    assert Pow2(8) == 256;
  }

  lemma ByteIsRem(r: nat, b: nat)
    requires r < 0x10000 && b < 256
    ensures Byte(r, b) == Rem(CCITT, Xor(Shl(r, 8), Shl(b, 16)))
  {
    CcittDegree();
    XorBelow(r, 256 * b, 16);
    calc {
      Byte(r, b);
      Shifts(Xor(r, 256 * b), 8);
      { ShiftsIsRem(Xor(r, 256 * b), 8); }
      Rem(CCITT, Shl(Xor(r, 256 * b), 8));
      { ShlByte(b); ShlXor(r, 256 * b, 8); ShlShl(b, 8, 8); }
      Rem(CCITT, Xor(Shl(r, 8), Shl(b, 16)));
    }
  }

  /** The message so far with the initial register in front, as a polynomial times x^16. */
  function Message(r: nat, d: Bytes, n: nat): (v: nat)
    requires n <= |d|
  {
    Xor(Shl(r, 8 * n), Shl(Number(d, n), 16))
  }

  lemma MessageGrows(r: nat, d: Bytes, n: nat)
    requires AreBytes(d) && n < |d|
    ensures Message(r, d, n + 1) == Xor(Shl(Message(r, d, n), 8), Shl(d[n], 16))
  {
    var m, b := Number(d, n), d[n];
    var x := Shl(m, 8);
    calc {
      Xor(Shl(Message(r, d, n), 8), Shl(b, 16));
      { ShlXor(Shl(r, 8 * n), Shl(m, 16), 8); ShlShl(r, 8 * n, 8); ShlShl(m, 16, 8); }
      Xor(Xor(Shl(r, 8 * n + 8), Shl(m, 24)), Shl(b, 16));
      { XorAssoc(Shl(r, 8 * n + 8), Shl(m, 24), Shl(b, 16)); }
      Xor(Shl(r, 8 * n + 8), Xor(Shl(m, 24), Shl(b, 16)));
      { ShlShl(m, 8, 16); ShlXor(x, b, 16); }
      Xor(Shl(r, 8 * n + 8), Shl(Xor(x, b), 16));
      { SideBySide(m, b, 8); }
      Message(r, d, n + 1);
    }
  }

  lemma SideBySide(m: nat, b: nat, k: nat)
    requires b < Pow2(k)
    ensures Xor(Shl(m, k), b) == Shl(m, k) + b
  {
    XorConcat(m, 0, 0, b, k);
    XorZero(m);
    XorZero(b);
    ShlZero(k);
  }

  /** `crc_ccitt` is a polynomial remainder. */
  lemma {:induction false} RegisterIsRem(r: nat, d: Bytes, n: nat)
    requires r < 0x10000 && AreBytes(d) && n <= |d|
    ensures Register(r, d, n) == Rem(CCITT, Message(r, d, n))
  {
    if n == 0 {
      CcittDegree();
      ShlZero(16);
      XorZero(r);
      RemSmall(CCITT, r);
    } else {
      var s, b, v := Register(r, d, n - 1), d[n - 1], Message(r, d, n - 1);
      calc {
        Register(r, d, n);
        { ByteIsRem(s, b); }
        Rem(CCITT, Xor(Shl(s, 8), Shl(b, 16)));
        { RemLinear(CCITT, Shl(s, 8), Shl(b, 16)); }
        Xor(Rem(CCITT, Shl(s, 8)), Rem(CCITT, Shl(b, 16)));
        { RegisterIsRem(r, d, n - 1); RemOfShl(CCITT, v, 8); }
        Xor(Rem(CCITT, Shl(v, 8)), Rem(CCITT, Shl(b, 16)));
        { RemLinear(CCITT, Shl(v, 8), Shl(b, 16)); MessageGrows(r, d, n - 1); }
        Rem(CCITT, Message(r, d, n));
      }
    }
  }

  lemma ShiftNotZero(s: nat)
    requires s < 0x10000
    ensures Shift(s) == 0 <==> s == 0
  {
    if s >= 0x8000 { XorSplit(2 * s - 0x10000, CCITT_LOW); }
  }

  lemma {:induction false} ShiftsNotZero(s: nat, k: nat)
    requires s < 0x10000
    ensures Shifts(s, k) == 0 <==> s == 0
  {
    if k > 0 {
      ShiftsNotZero(s, k - 1);
      ShiftNotZero(Shifts(s, k - 1));
    }
  }

  // ---------- what it detects ----------

  lemma {:induction false} RegisterOfPrefix(r: nat, d: Bytes, e: Bytes, n: nat)
    requires r < 0x10000 && AreBytes(d) && AreBytes(e) && n <= |d| && n <= |e|
    requires forall i :: 0 <= i < n ==> d[i] == e[i]
    ensures Register(r, d, n) == Register(r, e, n)
  {
    if n > 0 { RegisterOfPrefix(r, d, e, n - 1); }
  }

  lemma TwoMoreBytes(s: nat, hi: nat, lo: nat)
    requires s < 0x10000 && hi < 256 && lo < 256
    ensures Byte(Byte(s, hi), lo) == Rem(CCITT, Shl(Xor(s, 256 * hi + lo), 16))
  {
    var d := [hi, lo];
    RegisterIsRem(s, d, 2);
    assert Register(s, d, 1) == Byte(s, hi);
    assert Number(d, 1) == hi by { ShlZero(8); }
    assert Number(d, 2) == 256 * hi + lo by { ShlByte(hi); }
    ShlXor(s, 256 * hi + lo, 16);
  }

  lemma RegisterOfTwo(r: nat, d: Bytes, hi: nat, lo: nat)
    requires r < 0x10000 && AreBytes(d) && hi < 256 && lo < 256
    ensures Register(r, d + [hi, lo], |d| + 2) == Byte(Byte(Register(r, d, |d|), hi), lo)
  {
    hide Byte;
    var e := d + [hi, lo];
    RegisterOfPrefix(r, e, d, |d|);
    assert Register(r, e, |d| + 1) == Byte(Register(r, d, |d|), hi);
  }

  /** Appending two bytes gives the register zero exactly when they are the checksum. */
  lemma Residue(r: nat, d: Bytes, hi: nat, lo: nat)
    requires r < 0x10000 && AreBytes(d) && hi < 256 && lo < 256
    ensures Register(r, d + [hi, lo], |d| + 2) == 0 <==> Register(r, d, |d|) == 256 * hi + lo
  {
    hide Xor, Rem, Shifts, Byte, Register, Pow2, Shl, Degree;
    var s := Register(r, d, |d|);
    var x := Xor(s, 256 * hi + lo);
    RegisterOfTwo(r, d, hi, lo);
    TwoMoreBytes(s, hi, lo);
    CcittDegree();
    XorBelow(s, 256 * hi + lo, 16);
    ShiftsIsRem(x, 16);
    ShiftsNotZero(x, 16);
    XorZeroIff(s, 256 * hi + lo);
  }

  lemma XorZeroIff(a: nat, b: nat)
    ensures Xor(a, b) == 0 <==> a == b
  {
    XorSelf(a);
    if Xor(a, b) == 0 { XorEqual(a, b); }
  }

  /** A change of the message that spans at most sixteen bits changes the checksum. */
  lemma BurstChanges(r: nat, d: Bytes, e: Bytes, n: nat, x: nat, j: nat)
    requires r < 0x10000 && AreBytes(d) && AreBytes(e) && n <= |d| && n <= |e|
    requires 0 < x < 0x10000 && Xor(Number(d, n), Number(e, n)) == Shl(x, j)
    ensures Register(r, d, n) != Register(r, e, n)
  {
    hide Xor, Rem, Shifts, Register;
    var p, q, i := Shl(Number(d, n), 16), Shl(Number(e, n), 16), Shl(r, 8 * n);
    calc {
      Xor(Register(r, d, n), Register(r, e, n));
      { RegisterIsRem(r, d, n); RegisterIsRem(r, e, n); RemLinear(CCITT, Xor(i, p), Xor(i, q)); }
      Rem(CCITT, Xor(Xor(i, p), Xor(i, q)));
      { XorSwap(i, p, i, q); XorSelf(i); XorZero(Xor(p, q)); }
      Rem(CCITT, Xor(p, q));
      { ShlXor(Number(d, n), Number(e, n), 16); ShlShl(x, j, 16); }
      Rem(CCITT, Shl(x, j + 16));
      { ShiftsIsRem(x, j + 16); }
      Shifts(x, j + 16);
    }
    ShiftsNotZero(x, j + 16);
    XorSelf(Register(r, d, n));
  }

  lemma {:induction false} BitsAbove(v: nat, j: nat)
    requires forall i: nat :: i < j ==> !Bit(v, i)
    ensures v == Shl(Shr(v, j), j)
    ensures forall i: nat :: Bit(Shr(v, j), i) == Bit(v, i + j)
  {
    if j > 0 {
      assert !Bit(v, 0);
      forall i: nat | i < j - 1
        ensures !Bit(v / 2, i)
      {
        assert !Bit(v, i + 1);
      }
      BitsAbove(v / 2, j - 1);
      forall i: nat
        ensures Bit(Shr(v, j), i) == Bit(v, i + j)
      {
        assert Bit(v / 2, i + (j - 1)) == Bit(v, i + (j - 1) + 1);
      }
    }
  }

  lemma {:induction false} BitsBelow(v: nat, k: nat)
    requires forall i: nat :: k <= i ==> !Bit(v, i)
    ensures v < Pow2(k)
    decreases v + k
  {
    if k == 0 {
      forall i: nat
        ensures Bit(v, i) == Bit(0, i)
      {
        ZeroBit(i);
      }
      SameBits(v, 0);
    } else {
      forall i: nat | k - 1 <= i
        ensures !Bit(v / 2, i)
      {
        assert !Bit(v, i + 1);
      }
      BitsBelow(v / 2, k - 1);
    }
  }

  lemma {:induction false} NumberInjective(d: Bytes, e: Bytes, n: nat)
    requires AreBytes(d) && AreBytes(e) && n <= |d| && n <= |e| && Number(d, n) == Number(e, n)
    ensures d[..n] == e[..n]
  {
    if n > 0 {
      ShlByte(Number(d, n - 1));
      ShlByte(Number(e, n - 1));
      NumberInjective(d, e, n - 1);
      assert d[..n] == d[..n - 1] + [d[n - 1]] && e[..n] == e[..n - 1] + [e[n - 1]];
    }
  }

  /** Two different messages of one length that agree outside sixteen consecutive bits have different checksums. */
  lemma BurstDetected(r: nat, d: Bytes, e: Bytes, j: nat)
    requires r < 0x10000 && AreBytes(d) && AreBytes(e) && |d| == |e| && d != e
    requires forall i: nat :: Bit(Number(d, |d|), i) != Bit(Number(e, |e|), i) ==> j <= i < j + 16
    ensures Register(r, d, |d|) != Register(r, e, |e|)
  {
    var n := |d|;
    var v := Xor(Number(d, n), Number(e, n));
    forall i: nat
      ensures Bit(v, i) ==> j <= i < j + 16
    {
      XorBit(Number(d, n), Number(e, n), i);
    }
    BitsAbove(v, j);
    var x := Shr(v, j);
    BitsBelow(x, 16);
    CcittDegree();
    if x == 0 {
      ShlZero(j);
      XorEqual(Number(d, n), Number(e, n));
      NumberInjective(d, e, n);
    }
    BurstChanges(r, d, e, n, x, j);
  }

  /** Its inner loop. */
  method ShiftByte(x: nat) returns (crc: nat)
    requires x < 0x10000
    ensures crc == Shifts(x, 8)
  {
    hide Xor;
    crc := x;
    for j := 0 to 8
      invariant crc == Shifts(x, j)
    {
      if crc >= 0x8000 {
        crc := Xor((2 * crc) % 0x10000, CCITT_LOW);
      } else {
        crc := 2 * crc;
      }
    }
  }

  /** `crc_ccitt` */
  method CrcCcitt(data: seq<nat>, len: nat) returns (crc: nat)
    requires len <= |data| && AreBytes(data)
    ensures crc == Register(INIT, data, len) < 0x10000
    ensures crc == Rem(0x11021, Xor(Shl(0xFFFF, 8 * len), Shl(Number(data, len), 16)))
  {
    hide Xor, Rem, Shl, Number;
    crc := INIT;
    for i := 0 to len
      invariant crc == Register(INIT, data, i)
    {
      CcittDegree();
      XorBelow(crc, 256 * data[i], 16);
      crc := ShiftByte(Xor(crc, 256 * data[i]));
    }
    RegisterIsRem(INIT, data, len);
  }
}
