/** Words as arrays of bits, highest bit first, one bit in each cell (frame_decode.c). */
module Words {
  import opened Gf2
  import opened Gf2Division

  type Bits = seq<nat>

  /** The first `n` cells read as a number; only the lowest bit of each cell counts. */
  function Value(bits: Bits, n: nat): (v: nat)
    requires n <= |bits|
  {
    if n == 0 then 0 else 2 * Value(bits, n - 1) + bits[n - 1] % 2
  }

  /** The `n` lowest bits of `v`. */
  function BitsOf(v: nat, n: nat): (bits: Bits)
    ensures |bits| == n
  {
    if n == 0 then [] else BitsOf(v / 2, n - 1) + [v % 2]
  }

  /** `v >> k` */
  function Shr(v: nat, k: nat): (r: nat) { if k == 0 then v else Shr(v / 2, k - 1) }

  lemma {:induction false} ShrUndoesShl(v: nat, r: nat, k: nat)
    requires r < Pow2(k)
    ensures Shr(Shl(v, k) + r, k) == v
  {
    if k > 0 {
      assert (Shl(v, k) + r) / 2 == Shl(v, k - 1) + r / 2;
      ShrUndoesShl(v, r / 2, k - 1);
    }
  }

  predicate AreBits(bits: Bits) { forall i :: 0 <= i < |bits| ==> bits[i] < 2 }

  lemma {:induction false} ValueBelow(bits: Bits, n: nat)
    requires n <= |bits|
    ensures Value(bits, n) < Pow2(n)
  {
    if n > 0 { ValueBelow(bits, n - 1); }
  }

  /** The value looks at no cell from `n` on. */
  lemma {:induction false} ValuePrefix(a: Bits, b: Bits, n: nat)
    requires n <= |a| && n <= |b| && forall i :: 0 <= i < n ==> a[i] == b[i]
    ensures Value(a, n) == Value(b, n)
  {
    if n > 0 { ValuePrefix(a, b, n - 1); }
  }

  lemma {:induction false} ValueOfBits(v: nat, n: nat)
    requires v < Pow2(n)
    ensures Value(BitsOf(v, n), n) == v
  {
    if n > 0 {
      ValueOfBits(v / 2, n - 1);
      ValuePrefix(BitsOf(v, n), BitsOf(v / 2, n - 1), n - 1);
    }
  }

  lemma {:induction false} BitsOfValue(bits: Bits, n: nat)
    requires n <= |bits| && AreBits(bits)
    ensures BitsOf(Value(bits, n), n) == bits[..n]
  {
    if n > 0 {
      BitsOfValue(bits, n - 1);
      assert bits[..n] == bits[..n - 1] + [bits[n - 1]];
    }
  }

  /** The first cell is the highest bit. */
  lemma {:induction false} ValueBit(bits: Bits, n: nat, i: nat)
    requires i < n <= |bits|
    ensures Bit(Value(bits, n), n - 1 - i) <==> bits[i] % 2 == 1
  {
    if i < n - 1 { ValueBit(bits, n - 1, i); }
  }

  lemma {:induction false} BitsOfBit(v: nat, n: nat, i: nat)
    requires i < n
    ensures BitsOf(v, n)[i] == if Bit(v, n - 1 - i) then 1 else 0
  {
    if i < n - 1 { BitsOfBit(v / 2, n - 1, i); }
  }

  /** `bits_to_uint`: the word is 32 bits wide, so what is shifted out on the left is lost. */
  method BitsToUint(bits: array<nat>, from: nat, n: nat) returns (val: nat)
    requires from + n <= bits.Length && n <= WORD_BITS
    ensures val == Value(bits[from..], n)
  {
    val := 0;
    ghost var cells := bits[from..];
    WordIsPow2();
    for i := 0 to n
      invariant val == Value(cells, i)
    {
      ValueBelow(cells, i + 1);
      Pow2Grows(i + 1, WORD_BITS);
      val := Truncate(2 * val + bits[from + i] % 2);
    }
  }

  /** `uint_to_bits` */
  method UintToBits(val: nat, bits: array<nat>, n: nat)
    requires n <= bits.Length
    modifies bits
    ensures bits[..n] == BitsOf(val, n)
    ensures forall i :: n <= i < bits.Length ==> bits[i] == old(bits[i])
  {
    var v := val;
    var i := n;
    while i > 0
      invariant 0 <= i <= n
      invariant BitsOf(v, i) + bits[i..n] == BitsOf(val, n)
      invariant forall k :: n <= k < bits.Length ==> bits[k] == old(bits[k])
    {
      ghost var tail := bits[i..n];
      i := i - 1;
      bits[i] := v % 2;
      assert bits[i..n] == [v % 2] + tail;
      assert BitsOf(v, i + 1) + tail == BitsOf(v / 2, i) + ([v % 2] + tail);
      v := v / 2;
    }
  }
}
