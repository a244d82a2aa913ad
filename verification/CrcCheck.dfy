/** The checksum of a decoded data burst (ida_decode.c): how its bits are packed into bytes and compared. */
module CrcCheck {
  import opened Gf2
  import opened Gf2Division
  import opened Words
  import opened Crc

  /** `v |= b << k`, where `b` is a bit. */
  function SetBit(v: nat, k: nat, b: nat): (r: nat) { if b == 1 && !Bit(v, k) then v + Pow2(k) else v }

  /** The eight cells from `8 * k` on as a byte; cells beyond the end are zero. */
  function Packed(bits: Bits, k: nat): (b: nat) { Value(Padded(bits, 8 * k), 8) }

  /** Eight cells from `from` on. */
  function Padded(bits: Bits, from: nat): (r: Bits)
    ensures |r| == 8
  {
    seq(8, i requires 0 <= i < 8 => if from + i < |bits| then bits[from + i] else 0)
  }

  lemma LowestBit(v: nat, b: nat)
    requires b < 2
    ensures SetBit(2 * v, 0, b) == 2 * v + b
  {
  }

  lemma HigherBit(v: nat, x: nat, k: nat, b: nat)
    requires x < 2
    ensures SetBit(2 * v + x, k + 1, b) == 2 * SetBit(v, k, b) + x
  {
    assert Bit(2 * v + x, k + 1) == Bit(v, k);
  }

  lemma {:induction false} SetCell(cells: Bits, n: nat, i: nat, b: nat)
    requires i < n <= |cells| && AreBits(cells) && b < 2 && cells[i] == 0
    ensures Value(cells[i := b], n) == SetBit(Value(cells, n), n - 1 - i, b)
  {
    hide Bit, Pow2;
    if i == n - 1 {
      ValuePrefix(cells[i := b], cells, n - 1);
      LowestBit(Value(cells, n - 1), b);
    } else {
      SetCell(cells, n - 1, i, b);
      HigherBit(Value(cells, n - 1), cells[n - 1], n - 2 - i, b);
    }
  }

  /** One more cell changes one byte, in one bit. */
  lemma PackedGrows(bits: Bits, b: nat, k: nat)
    requires AreBits(bits) && b < 2
    ensures Packed(bits + [b], k) == if k == |bits| / 8 then SetBit(Packed(bits, k), 7 - |bits| % 8, b) else Packed(bits, k)
  {
    var i := |bits| % 8;
    if k == |bits| / 8 {
      assert Padded(bits + [b], 8 * k) == Padded(bits, 8 * k)[i := b];
      SetCell(Padded(bits, 8 * k), 8, i, b);
    } else {
      assert Padded(bits + [b], 8 * k) == Padded(bits, 8 * k);
    }
  }

  /** Zeros change nothing. */
  lemma PackedZeros(bits: Bits, k: nat, z: nat)
    ensures Packed(bits + seq(z, i => 0), k) == Packed(bits, k)
  {
    assert Padded(bits + seq(z, i => 0), 8 * k) == Padded(bits, 8 * k);
  }

  /** The first `m` bytes. */
  function PackedBytes(bits: Bits, m: nat): (d: Bytes)
    ensures |d| == m && AreBytes(d)
  {
    var d := seq(m, k requires 0 <= k < m => Packed(bits, k));
    assert AreBytes(d) by {
      forall k | 0 <= k < m
        ensures d[k] < 256
      {
        ValueBelow(Padded(bits, 8 * k), 8);
        assert Pow2(8) == 256;
      }
    }
    d
  }

  /** The bits the checksum covers: twelve zeros follow the header, and the last four bits are left out. */
  function Covered(stream: Bits): (bits: Bits)
    requires |stream| >= 24
    ensures |bits| == |stream| + 8
  {
    stream[..20] + seq(12, i => 0) + stream[20..|stream| - 4]
  }

  datatype Check = Check(ok: bool, stored: nat, computed: nat)

  /** How many bytes the covered bits take. */
  function ByteCount(bits: nat): (m: nat) { (bits + 7) / 8 }

  /** What the check reports. */
  function Checked(stream: Bits, daLen: nat): (c: Check) {
    if daLen == 0 || |stream| < 196 then Check(false, 0, 0)
    else
      var stored := Value(stream[180..], 16);
      if ByteCount(|stream| + 8) > 64 then Check(false, stored, 0)
      else
        var m := ByteCount(|stream| + 8);
        var computed := Register(INIT, PackedBytes(Covered(stream), m), m);
        Check(computed == 0, stored, computed)
  }

  /** `crc_buf[pos / 8] |= bits[i] << (7 - pos % 8)` for each bit. */
  method PackBits(input: Bits, buf: array<nat>, pos: nat, ghost before: Bits) returns (pos': nat)
    requires AreBits(input) && AreBits(before) && pos == |before| && |before| + |input| <= 8 * buf.Length
    requires forall k :: 0 <= k < buf.Length ==> buf[k] == Packed(before, k)
    modifies buf
    ensures pos' == pos + |input| && forall k :: 0 <= k < buf.Length ==> buf[k] == Packed(before + input, k)
  {
    pos' := pos;
    assert before + input[..0] == before;
    for i := 0 to |input|
      invariant pos' == pos + i && forall k :: 0 <= k < buf.Length ==> buf[k] == Packed(before + input[..i], k)
    {
      ghost var now := before + input[..i];
      assert before + input[..i + 1] == now + [input[i]];
      forall k: nat
        ensures Packed(now + [input[i]], k) == if k == |now| / 8 then SetBit(Packed(now, k), 7 - |now| % 8, input[i]) else Packed(now, k)
      {
        PackedGrows(now, input[i], k);
      }
      buf[pos' / 8] := SetBit(buf[pos' / 8], 7 - pos' % 8, input[i]);
      pos' := pos' + 1;
    }
    assert input[..|input|] == input;
  }

  /** The part of `ida_decode` that verifies the checksum. */
  method CheckCrc(stream: Bits, daLen: nat) returns (c: Check)
    requires AreBits(stream)
    ensures c == Checked(stream, daLen)
  {
    if daLen == 0 || |stream| < 196 {
      return Check(false, 0, 0);
    }
    var stored := 0;
    ghost var cells := stream[180..];
    for i := 0 to 16
      invariant stored == Value(cells, i)
    {
      stored := 2 * stored + stream[180 + i];
    }
    if ByteCount(|stream| + 8) > 64 {
      return Check(false, stored, 0);
    }
    var computed := Compute(stream);
    return Check(computed == 0, stored, computed);
  }

  method Compute(stream: Bits) returns (computed: nat)
    requires AreBits(stream) && 196 <= |stream| && ByteCount(|stream| + 8) <= 64
    ensures computed == Register(INIT, PackedBytes(Covered(stream), ByteCount(|stream| + 8)), ByteCount(|stream| + 8))
  {
    var buf := new nat[64](_ => 0);
    EmptyPacked();
    var pos := PackBits(stream[..20], buf, 0, []);
    ghost var zeros := stream[..20] + seq(12, i => 0);
    forall k: nat
      ensures Packed(zeros, k) == Packed(stream[..20], k)
    {
      PackedZeros(stream[..20], k, 12);
    }
    assert [] + stream[..20] == stream[..20];
    pos := PackBits(stream[20..|stream| - 4], buf, pos + 12, zeros);
    var m := ByteCount(pos);
    assert buf[..m] == PackedBytes(Covered(stream), m);
    computed := CrcCcitt(buf[..m], m);
  }

  lemma EmptyPacked()
    ensures forall k: nat :: Packed([], k) == 0
  {
    forall k: nat
      ensures Packed([], k) == 0
    {
      ZeroValue(Padded([], 8 * k), 8);
    }
  }

  lemma {:induction false} ZeroValue(cells: Bits, n: nat)
    requires n <= |cells| && forall i :: 0 <= i < n ==> cells[i] == 0
    ensures Value(cells, n) == 0
  {
    if n > 0 { ZeroValue(cells, n - 1); }
  }

  lemma {:induction false} ValueConcat(cells: Bits, i: nat, j: nat)
    requires i + j <= |cells|
    ensures Value(cells, i + j) == Shl(Value(cells, i), j) + Value(cells[i..], j)
  {
    if j > 0 { ValueConcat(cells, i, j - 1); }
  }

  /** With 200 decoded bits the checksum is right exactly when it is the one stored. */
  lemma OkMeansStored(stream: Bits, daLen: nat)
    requires AreBits(stream) && |stream| == 200 && daLen > 0
    ensures var c := Checked(stream, daLen);
      c.ok <==> c.stored == Register(INIT, PackedBytes(stream[..20] + seq(12, i => 0) + stream[20..180], 24), 24)
  {
    var covered, front := Covered(stream), stream[..20] + seq(12, i => 0) + stream[20..180];
    var hi, lo := Packed(covered, 24), Packed(covered, 25);
    var d := PackedBytes(front, 24);
    var all := PackedBytes(covered, 26);
    assert all[24] < 256 && all[25] < 256;
    assert d + [hi, lo] == all by {
      forall k | 0 <= k < 24
        ensures Packed(covered, k) == Packed(front, k)
      {
        assert Padded(covered, 8 * k) == Padded(front, 8 * k);
      }
    }
    Residue(INIT, d, hi, lo);
    StoredBytes(stream);
  }

  lemma StoredBytes(stream: Bits)
    requires |stream| == 200
    ensures Value(stream[180..], 16) == 256 * Packed(Covered(stream), 24) + Packed(Covered(stream), 25)
  {
    var cells := stream[180..];
    ValueConcat(cells, 8, 8);
    ShlByte(Value(cells, 8));
    ValuePrefix(Padded(Covered(stream), 192), cells, 8);
    ValuePrefix(Padded(Covered(stream), 200), cells[8..], 8);
  }

  // ---------- at every length ----------

  /** The bits with zeros behind them that fill `m` bytes. */
  function Filled(bits: Bits, m: nat): (r: Bits)
    requires |bits| <= 8 * m
    ensures |r| == 8 * m
  {
    bits + seq(8 * m - |bits|, i => 0)
  }

  lemma {:induction false} NumberOfPacked(bits: Bits, m: nat, k: nat)
    requires k <= m && |bits| <= 8 * m
    ensures Number(PackedBytes(bits, m), k) == Value(Filled(bits, m), 8 * k)
  {
    if k > 0 {
      var cells := Filled(bits, m);
      NumberOfPacked(bits, m, k - 1);
      ValueConcat(cells, 8 * (k - 1), 8);
      ValuePrefix(Padded(bits, 8 * (k - 1)), cells[8 * (k - 1)..], 8);
    }
  }

  lemma BytesHold(n: nat)
    ensures n <= 8 * ByteCount(n) < n + 8
  {
  }

  /** The header, twelve zeros and the rest but its last four bits, filled up with zeros to whole bytes, leave no remainder. */
  predicate NoRemainder(stream: Bits)
    requires |stream| >= 24
  {
    var cells := stream[..20] + seq(12, i => 0) + stream[20..|stream| - 4];
    var m := ByteCount(|cells|);
    |cells| <= 8 * m && Rem(0x11021, Xor(Shl(0xFFFF, 8 * m), Shl(Value(Filled(cells, m), 8 * m), 16))) == 0
  }

  /** The checksum is right exactly when the burst has data and from 196 to 504 decoded bits, which leave no remainder. */
  lemma OkMeansNoRemainder(stream: Bits, daLen: nat)
    requires AreBits(stream)
    ensures Checked(stream, daLen).ok <==> daLen > 0 && 196 <= |stream| <= 504 && NoRemainder(stream)
    ensures daLen > 0 && |stream| >= 196 ==> Checked(stream, daLen).stored == Value(stream[180..196], 16)
  {
    hide Rem, Xor, Shl, Register, Value, PackedBytes, Number;
    if daLen > 0 && |stream| >= 196 {
      StoredCells(stream);
      var cells := Covered(stream);
      var m := ByteCount(|cells|);
      BytesHold(|cells|);
      NumberOfPacked(cells, m, m);
      RegisterIsRem(INIT, PackedBytes(cells, m), m);
    }
  }

  lemma StoredCells(stream: Bits)
    requires |stream| >= 196
    ensures Value(stream[180..], 16) == Value(stream[180..196], 16)
  {
    ValuePrefix(stream[180..], stream[180..196], 16);
  }
}
