/**
 CRC-16/Kermit of ACARS messages (sbd_acars.c), which shifts the other way. Read with its bits in the
 opposite order it is the same remainder as CRC-CCITT, of the message with the bits of each byte in
 the opposite order; and two more bytes make it zero exactly when they are the checksum.
 */
module Kermit {
  import opened Gf2
  import opened Gf2Division
  import opened Chase
  import opened Crc

  const KERMIT := 0x8408

  /** One bit, the lowest first. */
  function Back(r: nat): (r': nat) { if r % 2 == 1 then Xor(r / 2, KERMIT) else r / 2 }

  function Backs(r: nat, k: nat): (r': nat) { if k == 0 then r else Back(Backs(r, k - 1)) }

  /** The checksum one bit at a time. */
  function Serial(d: Bytes, n: nat): (r: nat)
    requires n <= |d|
  {
    if n == 0 then 0 else Backs(Xor(Serial(d, n - 1), d[n - 1]), 8)
  }

  lemma BackLinear(a: nat, b: nat)
    ensures Back(Xor(a, b)) == Xor(Back(a), Back(b))
  {
    var x, y := a / 2, b / 2;
    XorSplit(a, b);
    XorZero(KERMIT);
    XorZero(x);
    XorZero(y);
    XorZero(Xor(x, y));
    XorSelf(KERMIT);
    XorSwap(x, if a % 2 == 1 then KERMIT else 0, y, if b % 2 == 1 then KERMIT else 0);
  }

  lemma {:induction false} BacksLinear(a: nat, b: nat, k: nat)
    ensures Backs(Xor(a, b), k) == Xor(Backs(a, k), Backs(b, k))
  {
    if k > 0 {
      BacksLinear(a, b, k - 1);
      BackLinear(Backs(a, k - 1), Backs(b, k - 1));
    }
  }

  /** Bits above the lowest `k` only move down. */
  lemma {:induction false} BacksOfShl(h: nat, i: nat, k: nat)
    ensures Backs(Shl(h, i + k), k) == Shl(h, i)
    decreases k
  {
    if k > 0 { BacksOfShl(h, i + 1, k - 1); }
  }

  /** The low byte goes through the table, the high byte moves down. */
  lemma BacksByTable(v: nat)
    ensures Backs(v, 8) == Xor(Backs(v % 256, 8), v / 256)
  {
    var h, l := v / 256, v % 256;
    assert Pow2(8) == 256;
    ShlByte(h);
    SideBySide(h, l, 8);
    BacksLinear(Shl(h, 8), l, 8);
    BacksOfShl(h, 0, 8);
    XorComm(h, Backs(l, 8));
  }

  // ---------- the bits in the opposite order ----------

  /** The `k` lowest bits of `v` in the opposite order. */
  function Reverse(v: nat, k: nat): (r: nat) { if k == 0 then 0 else Shl(v % 2, k - 1) + Reverse(v / 2, k - 1) }

  /** One bit in its place. */
  lemma ShlBit(b: nat, k: nat)
    requires b < 2
    ensures Shl(b, k) == if b == 1 then Pow2(k) else 0
  {
    ShlZero(k);
    ShlOne(k);
  }

  lemma {:induction false} ReverseBelow(v: nat, k: nat)
    ensures Reverse(v, k) < Pow2(k)
  {
    hide Shl;
    if k > 0 {
      ReverseBelow(v / 2, k - 1);
      ShlBit(v % 2, k - 1);
    }
  }

  lemma {:induction false} ShlPlus(a: nat, b: nat, j: nat)
    ensures Shl(a + b, j) == Shl(a, j) + Shl(b, j)
  {
    if j > 0 { ShlPlus(a, b, j - 1); }
  }

  /** The bits of a concatenation. */
  lemma {:induction false} BitOfConcat(a: nat, x: nat, k: nat, i: nat)
    requires x < Pow2(k)
    ensures Bit(Shl(a, k) + x, i) == if i < k then Bit(x, i) else Bit(a, i - k)
  {
    if k > 0 {
      assert (Shl(a, k) + x) / 2 == Shl(a, k - 1) + x / 2;
      if i > 0 { BitOfConcat(a, x / 2, k - 1, i - 1); }
    }
  }

  /** What it means: bit `i` becomes bit `k - 1 - i`. */
  lemma {:induction false} ReverseBit(v: nat, k: nat, i: nat)
    ensures Bit(Reverse(v, k), i) == (i < k && Bit(v, k - 1 - i))
  {
    if k == 0 {
      ZeroBit(i);
    } else {
      ReverseBelow(v / 2, k - 1);
      BitOfConcat(v % 2, Reverse(v / 2, k - 1), k - 1, i);
      if i < k - 1 {
        ReverseBit(v / 2, k - 1, i);
      } else if i >= k {
        ZeroBit(i - k);
      }
    }
  }

  lemma XorOfBits(a: nat, b: nat)
    requires a < 2 && b < 2
    ensures Xor(a, b) == if a == b then 0 else 1
  {
  }

  lemma {:induction false} ReverseXor(a: nat, b: nat, k: nat)
    ensures Reverse(Xor(a, b), k) == Xor(Reverse(a, k), Reverse(b, k))
  {
    hide Xor, Shl, Pow2;
    XorZero(0);
    if k > 0 {
      XorSplit(a, b);
      ReverseXor(a / 2, b / 2, k - 1);
      ReverseBelow(a / 2, k - 1);
      ReverseBelow(b / 2, k - 1);
      XorConcat(a % 2, b % 2, Reverse(a / 2, k - 1), Reverse(b / 2, k - 1), k - 1);
      XorOfBits(a % 2, b % 2);
    }
  }

  lemma HalfBelow(v: nat, k: nat)
    requires v < Pow2(k)
    ensures if k == 0 then v == 0 else v / 2 < Pow2(k - 1)
  {
  }

  /** Zeros on the left come out on the right. */
  lemma {:induction false} ReverseWider(v: nat, k: nat, j: nat)
    requires v < Pow2(k)
    ensures Reverse(v, k + j) == Shl(Reverse(v, k), j)
  {
    hide Shl, Pow2;
    if k == 0 {
      assert v == 0 by { HalfBelow(v, k); }
      ReverseZero(j);
      ShlZero(j);
    } else {
      HalfBelow(v, k);
      ReverseWider(v / 2, k - 1, j);
      ShlShl(v % 2, k - 1, j);
      ShlPlus(Shl(v % 2, k - 1), Reverse(v / 2, k - 1), j);
    }
  }

  lemma {:induction false} ReverseZero(k: nat)
    ensures Reverse(0, k) == 0
  {
    if k > 0 {
      ReverseZero(k - 1);
      ShlZero(k - 1);
    }
  }

  /** Reversing loses nothing. */
  lemma {:induction false} ReverseInjective(a: nat, b: nat, k: nat)
    requires a < Pow2(k) && b < Pow2(k) && Reverse(a, k) == Reverse(b, k)
    ensures a == b
  {
    hide Shl, Pow2;
    HalfBelow(a, k);
    HalfBelow(b, k);
    if k > 0 {
      ReverseBelow(a / 2, k - 1);
      ReverseBelow(b / 2, k - 1);
      ShlBit(a % 2, k - 1);
      ShlBit(b % 2, k - 1);
      ReverseInjective(a / 2, b / 2, k - 1);
      SameHalves(a, b);
    }
  }

  lemma Widths()
    ensures Pow2(8) == 256 && Pow2(15) == 0x8000 && Pow2(16) == 0x10000
  {
    CcittDegree();
  }

  /** The two bytes of a register change places, each reversed. */
  lemma ReverseBytes(hi: nat, lo: nat)
    requires hi < 256 && lo < 256
    ensures Reverse(256 * hi + lo, 16) == 256 * Reverse(lo, 8) + Reverse(hi, 8)
  {
    hide Xor, Pow2, Shl, Reverse;
    var h := 256 * hi;
    Widths();
    ShlByte(hi);
    SideBySide(hi, lo, 8);
    ReverseXor(h, lo, 16);
    ReverseWider(lo, 8, 8);
    ShlByte(Reverse(lo, 8));
    ReverseShl(hi, 8, 8);
    ReverseBelow(hi, 8);
    SideBySide(Reverse(lo, 8), Reverse(hi, 8), 8);
    XorComm(Reverse(h, 16), Reverse(lo, 16));
  }

  lemma {:induction false} ReverseShl(v: nat, j: nat, k: nat)
    ensures Reverse(Shl(v, j), j + k) == Reverse(v, k)
  {
    if j > 0 {
      ShlZero(j + k - 1);
      ReverseShl(v, j - 1, k);
    }
  }

  // ---------- the checksum is a remainder ----------

  lemma BackBelow(x: nat)
    requires x < 0x10000
    ensures Back(x) < 0x10000
  {
    Widths();
    XorBelow(x / 2, KERMIT, 16);
  }

  lemma SmallPowers()
    ensures Pow2(0) == 1 && Pow2(1) == 2 && Pow2(2) == 4 && Pow2(3) == 8
    ensures Pow2(4) == 16 && Pow2(5) == 32 && Pow2(6) == 64 && Pow2(7) == 128
  {
    assert Pow2(4) == 2 * Pow2(3);
    assert Pow2(7) == 2 * Pow2(6);
  }

  /** The bytes of the constant reversed, bit by bit. */
  lemma ConstantBytes()
    ensures Reverse(0x84, 8) == 0x21 && Reverse(0x08, 8) == 0x10
  {
    hide Pow2, Reverse;
    SmallPowers();
    ReverseStep(0x84, 8, 128);
    ReverseStep(0x42, 7, 64);
    ReverseStep(0x21, 6, 32);
    ReverseStep(0x10, 5, 16);
    ReverseStep(0x08, 4, 8);
    ReverseStep(0x04, 3, 4);
    ReverseStep(0x02, 2, 2);
    ReverseStep(0x01, 1, 1);
    ReverseStep(0x08, 8, 128);
    ReverseStep(0x04, 7, 64);
    ReverseStep(0x02, 6, 32);
    ReverseStep(0x01, 5, 16);
    ReverseZero(4);
    ReverseZero(0);
  }

  lemma ReverseStep(v: nat, k: nat, p: nat)
    requires 0 < k <= 8 && p == Pow2(k - 1)
    ensures Reverse(v, k) == p * (v % 2) + Reverse(v / 2, k - 1)
  {
    ShlBit(v % 2, k - 1);
  }

  /** The constants are one polynomial. */
  lemma SamePolynomial()
    ensures Reverse(KERMIT, 16) == CCITT_LOW
  {
    hide Reverse, Pow2, Shl;
    ConstantBytes();
    ReverseBytes(0x84, 0x08);
  }

  /** The lowest bit comes first. */
  lemma TopBitFirst(x: nat)
    requires x / 2 < Pow2(15)
    ensures Reverse(x, 16) == (if x % 2 == 1 then Pow2(15) else 0) + Reverse(x / 2, 15)
    ensures Reverse(x / 2, 16) == 2 * Reverse(x / 2, 15)
  {
    hide Pow2;
    ShlBit(x % 2, 15);
    ReverseWider(x / 2, 15, 1);
    DoubleIsShl(Reverse(x / 2, 15));
    ReverseOneMore(x, 15);
  }

  lemma ReverseOneMore(v: nat, k: nat)
    ensures Reverse(v, k + 1) == Shl(v % 2, k) + Reverse(v / 2, k)
  {
  }

  lemma DoubleIsShl(v: nat)
    ensures Shl(v, 1) == 2 * v
  {
  }

  /** One bit of one checksum is one bit of the other. */
  lemma BackIsShift(x: nat)
    requires x < 0x10000
    ensures Reverse(x, 16) < 0x10000
    ensures Reverse(Back(x), 16) == Shift(Reverse(x, 16))
  {
    hide Xor, Pow2, Shl, Reverse;
    var h := x / 2;
    Widths();
    ReverseBelow(x, 16);
    ReverseBelow(h, 15);
    TopBitFirst(x);
    if x % 2 == 1 {
      ReverseXor(h, KERMIT, 16);
      SamePolynomial();
    }
  }

  lemma {:induction false} BacksIsShifts(x: nat, k: nat)
    requires x < 0x10000
    ensures Reverse(x, 16) < 0x10000 && Backs(x, k) < 0x10000
    ensures Reverse(Backs(x, k), 16) == Shifts(Reverse(x, 16), k)
  {
    hide Xor, Pow2, Reverse, Back, Shift;
    Widths();
    ReverseBelow(x, 16);
    if k > 0 {
      BacksIsShifts(x, k - 1);
      BackBelow(Backs(x, k - 1));
      BackIsShift(Backs(x, k - 1));
    }
  }

  /** The message with the bits of each byte reversed. */
  function Mirrored(d: Bytes): (m: Bytes) { seq(|d|, i requires 0 <= i < |d| => Reverse(d[i], 8)) }

  lemma MirroredBytes(d: Bytes)
    ensures AreBytes(Mirrored(d))
  {
    Widths();
    forall i | 0 <= i < |d|
      ensures Mirrored(d)[i] < 256
    {
      ReverseBelow(d[i], 8);
    }
  }

  lemma {:induction false} SerialBelow(d: Bytes, n: nat)
    requires AreBytes(d) && n <= |d|
    ensures Serial(d, n) < 0x10000
  {
    hide Xor, Pow2, Backs;
    if n > 0 {
      SerialBelow(d, n - 1);
      Widths();
      XorBelow(Serial(d, n - 1), d[n - 1], 16);
      BacksIsShifts(Xor(Serial(d, n - 1), d[n - 1]), 8);
    }
  }

  /** One more byte. */
  lemma StepIsByte(s: nat, b: nat)
    requires s < 0x10000 && b < 256
    ensures Reverse(s, 16) < 0x10000 && Reverse(b, 8) < 256
    ensures Reverse(Backs(Xor(s, b), 8), 16) == Byte(Reverse(s, 16), Reverse(b, 8))
  {
    hide Xor, Pow2, Backs, Shifts, Reverse, Shl;
    Widths();
    ReverseBelow(s, 16);
    ReverseBelow(b, 8);
    XorBelow(s, b, 16);
    BacksIsShifts(Xor(s, b), 8);
    ReverseXor(s, b, 16);
    ReverseWider(b, 8, 8);
    ShlByte(Reverse(b, 8));
  }

  lemma {:induction false} SerialIsRegister(d: Bytes, n: nat)
    requires AreBytes(d) && n <= |d|
    ensures AreBytes(Mirrored(d))
    ensures Reverse(Serial(d, n), 16) == Register(0, Mirrored(d), n)
  {
    hide Xor, Pow2, Backs, Byte, Reverse;
    MirroredBytes(d);
    if n == 0 {
      ReverseZero(16);
    } else {
      SerialIsRegister(d, n - 1);
      SerialBelow(d, n - 1);
      StepIsByte(Serial(d, n - 1), d[n - 1]);
    }
  }

  /** `crc16_kermit` is a polynomial remainder by x^16 + x^12 + x^5 + 1. */
  lemma SerialIsRem(d: Bytes, n: nat)
    requires AreBytes(d) && n <= |d|
    ensures Reverse(Serial(d, n), 16) == Rem(0x11021, Shl(Number(Mirrored(d), n), 16))
  {
    hide Xor, Pow2, Serial, Number, Reverse, Rem, Shl, Register;
    SerialIsRegister(d, n);
    RegisterIsRem(0, Mirrored(d), n);
    ShlZero(8 * n);
    XorZero(Shl(Number(Mirrored(d), n), 16));
  }

  /** An entry of the table, for the byte `b`. */
  lemma EntryIsRem(b: nat)
    requires b < 256
    ensures Backs(b, 8) < 0x10000
    ensures Reverse(Backs(b, 8), 16) == Rem(0x11021, Shl(Reverse(b, 8), 16))
  {
    hide Xor, Pow2, Reverse, Rem, Shl, Shifts, Backs;
    var r := Reverse(b, 8);
    Widths();
    BacksIsShifts(b, 8);
    ReverseWider(b, 8, 8);
    ReverseBelow(b, 8);
    ShiftsIsRem(Reverse(b, 16), 8);
    ShlShl(r, 8, 8);
  }

  /** Two more bytes, the low one first, make it zero exactly when they are the checksum. */
  lemma KermitResidue(d: Bytes, lo: nat, hi: nat)
    requires AreBytes(d) && lo < 256 && hi < 256
    ensures Serial(d + [lo, hi], |d| + 2) == 0 <==> Serial(d, |d|) == 256 * hi + lo
  {
    hide Xor, Pow2, Serial, Register, Reverse, Shl;
    var e, s, r := d + [lo, hi], 256 * hi + lo, Serial(d, |d|);
    Widths();
    SerialBelow(d, |d|);
    SerialBelow(e, |e|);
    SerialIsRegister(d, |d|);
    SerialIsRegister(e, |e|);
    ReverseBelow(lo, 8);
    ReverseBelow(hi, 8);
    assert Mirrored(e) == Mirrored(d) + [Reverse(lo, 8), Reverse(hi, 8)];
    Residue(0, Mirrored(d), Reverse(lo, 8), Reverse(hi, 8));
    ReverseBytes(hi, lo);
    ReverseZero(16);
    if Reverse(r, 16) == Reverse(s, 16) { ReverseInjective(r, s, 16); }
    if Reverse(Serial(e, |e|), 16) == 0 { ReverseInjective(Serial(e, |e|), 0, 16); }
  }

  // ---------- the loops ----------

  /** `crc16_init` */
  method Crc16Init(table: array<nat>)
    requires table.Length == 256
    modifies table
    ensures forall i :: 0 <= i < 256 ==> table[i] == Backs(i, 8)
    ensures forall i :: 0 <= i < 256 ==> Reverse(table[i], 16) == Rem(0x11021, Shl(Reverse(i, 8), 16))
  {
    hide Xor, Pow2, Reverse, Rem, Shl;
    for i := 0 to 256
      invariant forall k :: 0 <= k < i ==> table[k] == Backs(k, 8)
      invariant forall k :: 0 <= k < i ==> Reverse(table[k], 16) == Rem(0x11021, Shl(Reverse(k, 8), 16))
    {
      var crc := i;
      for j := 0 to 8
        invariant crc == Backs(i, j)
      {
        if crc % 2 == 1 {
          crc := Xor(crc / 2, KERMIT);
        } else {
          crc := crc / 2;
        }
      }
      EntryIsRem(i);
      table[i] := crc;
    }
  }

  lemma XorLowByte(s: nat, b: nat)
    requires b < 256
    ensures Xor(s, b) / 256 == s / 256
  {
    var h, l := s / 256, s % 256;
    assert Pow2(8) == 256;
    ShlByte(h);
    ShlByte(Xor(h, 0));
    XorConcat(h, 0, l, b, 8);
    ShlZero(8);
    XorZero(h);
    XorBelow(l, b, 8);
  }

  /** `crc16_kermit`: the table gives the same checksum as one bit at a time. */
  method Crc16Kermit(table: array<nat>, data: seq<nat>, len: nat) returns (crc: nat)
    requires table.Length == 256 && forall i :: 0 <= i < 256 ==> table[i] == Backs(i, 8)
    requires len <= |data| && AreBytes(data)
    ensures crc == Serial(data, len)
    ensures Reverse(crc, 16) == Rem(0x11021, Shl(Number(Mirrored(data), len), 16))
  {
    crc := 0;
    for i := 0 to len
      invariant crc == Serial(data, i)
    {
      XorLowByte(crc, data[i]);
      BacksByTable(Xor(crc, data[i]));
      crc := Xor(table[Xor(crc, data[i]) % 256], crc / 256);
    }
    SerialIsRem(data, len);
  }
}
