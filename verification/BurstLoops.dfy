/** The loops of burst_detect.c, on the buffers they change, each shown to compute its part of a frame. */
module BurstLoops {
  import opened BurstSpec

  /** `simd_relative_mag` */
  method RelativeMag(mag: Row, sum: array<real>, out: array<real>)
    requires |mag| == sum.Length == out.Length && sum != out
    modifies out
    ensures out[..] == Relative(mag, sum[..])
  {
    for i := 0 to |mag|
      invariant forall k :: 0 <= k < i ==> out[k] == Relative(mag, sum[..])[k]
    {
      out[i] := if sum[i] > 0.0 then mag[i] / sum[i] else 0.0;
    }
  }

  /** `simd_baseline_update` */
  method BaselineUpdate(sum: array<real>, row: Row, mag: Row)
    requires |mag| == |row| == sum.Length
    modifies sum
    ensures forall i :: 0 <= i < sum.Length ==> sum[i] == old(sum[i]) - row[i] + mag[i]
  {
    for i := 0 to sum.Length
      invariant forall k :: 0 <= k < i ==> sum[k] == old(sum[k]) - row[k] + mag[k]
      invariant forall k :: i <= k < sum.Length ==> sum[k] == old(sum[k])
    {
      sum[i] := sum[i] - row[i];
      sum[i] := sum[i] + mag[i];
    }
  }

  /** `update_bursts` */
  method UpdateBursts(c: Config, rel: array<real>, index: nat, bs: seq<Burst>) returns (r: seq<Burst>)
    requires forall i :: 0 <= i < |bs| ==> bs[i].bin < rel.Length
    ensures r == Touched(c, rel[..], index, bs)
  {
    r := bs;
    for i := 0 to |bs|
      invariant |r| == |bs|
      invariant forall k :: 0 <= k < i ==> r[k] == Touch(c, rel[..], index, bs[k])
      invariant forall k :: i <= k < |bs| ==> r[k] == bs[k]
    {
      var cb := bs[i].bin;
      if (cb > 0 && rel[cb - 1] > c.threshold) || rel[cb] > c.threshold
         || (cb < rel.Length - 1 && rel[cb + 1] > c.threshold)
      {
        r := r[i := r[i].(lastActive := index)];
      }
    }
  }

  /** `mask_burst` */
  method MaskBurst(c: Config, mask: array<bool>, bin: nat)
    requires mask.Length == c.fft
    modifies mask
    ensures forall i :: 0 <= i < c.fft ==> mask[i] == (old(mask[i]) && !Reaches(c, bin, i))
  {
    var clearStart := bin - c.Half();
    var clearStop := bin + c.Half();
    if clearStart < 0 { clearStart := 0; }
    if clearStop >= c.fft { clearStop := c.fft - 1; }
    forall i | clearStart <= i <= clearStop { mask[i] := false; }
  }

  lemma CoveredGrows(c: Config, bs: seq<Burst>, b: Burst, i: int)
    ensures Covered(c, bs + [b], i) <==> Covered(c, bs, i) || Reaches(c, b.bin, i)
  {
    var all := bs + [b];
    if Covered(c, bs, i) {
      var k :| 0 <= k < |bs| && Reaches(c, bs[k].bin, i);
      assert all[k] == bs[k];
    }
    if Reaches(c, b.bin, i) { assert all[|bs|] == b; }
  }

  /** Masking one more burst. */
  method MaskOneMore(c: Config, mask: array<bool>, ghost bs: seq<Burst>, b: Burst)
    requires mask.Length == c.fft && mask[..] == MaskOf(c, bs)
    modifies mask
    ensures mask[..] == MaskOf(c, bs + [b])
  {
    ghost var was := mask[..];
    MaskBurst(c, mask, b.bin);
    forall i | 0 <= i < c.fft
      ensures mask[i] == MaskOf(c, bs + [b])[i]
    {
      assert was[i] == MaskOf(c, bs)[i];
      CoveredGrows(c, bs, b, i);
    }
  }

  /** `update_burst_mask` */
  method UpdateBurstMask(c: Config, mask: array<bool>, bs: seq<Burst>)
    requires mask.Length == c.fft
    modifies mask
    ensures mask[..] == MaskOf(c, bs)
  {
    forall i | 0 <= i < c.fft { mask[i] := true; }
    assert mask[..] == MaskOf(c, bs[..0]);
    for i := 0 to |bs|
      invariant mask[..] == MaskOf(c, bs[..i])
    {
      MaskOneMore(c, mask, bs[..i], bs[i]);
      assert bs[..i + 1] == bs[..i] + [bs[i]];
    }
    assert bs[..|bs|] == bs;
  }

  /** `delete_gone_bursts`: bursts are removed in place and appended to the gone ones. */
  method DeleteGoneBursts(c: Config, bs: seq<Burst>, gone: seq<Burst>, index: nat)
      returns (bs': seq<Burst>, gone': seq<Burst>, updateNoise: bool)
    ensures bs' == Kept(c, bs, index) && gone' == gone + Gone(c, bs, index) && updateNoise == AnyTooLong(c, bs)
  {
    hide Kept, Gone, AnyTooLong;
    bs', gone', updateNoise := bs, gone, false;
    var i := 0;
    ghost var n := 0;
    NoneKept(c, bs, index);
    assert [] + bs == bs && gone + [] == gone && bs[0..] == bs;
    while i < |bs'|
      invariant 0 <= n <= |bs| && i <= |bs'| && bs' == Kept(c, bs[..n], index) + bs[n..] && i == |Kept(c, bs[..n], index)|
      invariant gone' == gone + Gone(c, bs[..n], index)
      invariant updateNoise == AnyTooLong(c, bs[..n])
      decreases |bs'| - i
    {
      var b := bs'[i];
      assert n < |bs| && b == bs[n] && bs[n..] == [b] + bs[n + 1..];
      Parted(Kept(c, bs[..n], index), b, bs[n + 1..]);
      KeptGrows(c, bs, n, index);
      LongGrows(c, bs, n);
      var longBurst := false;
      if c.maxLen > 0 {
        if b.lastActive - b.start > c.maxLen {
          updateNoise := true;
          longBurst := true;
        }
      }
      if 0 <= b.lastActive + c.post <= index || longBurst {
        Joined(gone, Gone(c, bs[..n], index), b.(stop := index));
        gone' := gone' + [b.(stop := index)];
        bs' := bs'[..i] + bs'[i + 1..];
      } else {
        i := i + 1;
      }
      n := n + 1;
    }
    assert n == |bs|;
    assert bs[..n] == bs;
  }

  /** A burst taken out from between others, or left with those before. */
  lemma Parted(before: seq<Burst>, b: Burst, after: seq<Burst>)
    ensures var all := before + ([b] + after);
      all[..|before|] + all[|before| + 1..] == before + after && all == (before + [b]) + after
  {
  }

  lemma Joined(a: seq<Burst>, b: seq<Burst>, x: Burst)
    ensures (a + b) + [x] == a + (b + [x])
  {
  }

  lemma NoneKept(c: Config, bs: seq<Burst>, index: nat)
    ensures Kept(c, bs[..0], index) == [] && Gone(c, bs[..0], index) == [] && !AnyTooLong(c, bs[..0])
  {
  }

  /** One more burst stays or goes. */
  lemma KeptGrows(c: Config, bs: seq<Burst>, n: nat, index: nat)
    requires n < |bs|
    ensures var kept := Kept(c, bs[..n], index);
      Kept(c, bs[..n + 1], index) == if Over(c, bs[n], index) then kept else kept + [bs[n]]
    ensures var gone := Gone(c, bs[..n], index);
      Gone(c, bs[..n + 1], index) == if Over(c, bs[n], index) then gone + [bs[n].(stop := index)] else gone
  {
    assert bs[..n + 1][..n] == bs[..n];
  }

  lemma LongGrows(c: Config, bs: seq<Burst>, n: nat)
    requires n < |bs|
    ensures AnyTooLong(c, bs[..n + 1]) <==> AnyTooLong(c, bs[..n]) || TooLong(c, bs[n])
  {
    if AnyTooLong(c, bs[..n]) {
      var i :| 0 <= i < n && TooLong(c, bs[..n][i]);
      assert bs[..n + 1][i] == bs[..n][i];
    }
    if TooLong(c, bs[n]) { assert bs[..n + 1][n] == bs[n]; }
  }

  /** `remove_peaks_around_bursts` */
  method RemovePeaksAroundBursts(rel: array<real>, mask: array<bool>)
    requires rel.Length == mask.Length
    modifies rel
    ensures rel[..] == Masked(old(rel[..]), mask[..])
  {
    for i := 0 to rel.Length
      invariant forall k :: 0 <= k < i ==> rel[k] == if mask[k] then old(rel[k]) else 0.0
      invariant forall k :: i <= k < rel.Length ==> rel[k] == old(rel[k])
    {
      rel[i] := if mask[i] then rel[i] else 0.0;
    }
  }

  /** `extract_peaks` before sorting. */
  method ExtractPeaks(c: Config, rel: array<real>) returns (ps: seq<Peak>)
    requires rel.Length == c.fft
    ensures ps == Peaks(c, rel[..], c.fft)
  {
    var halfBw := c.Half();
    var dcBin := c.fft / 2;
    ps := [];
    NoPeaks(c, rel[..], 0, if halfBw <= c.fft then halfBw else c.fft);
    var bin := halfBw;
    while bin < c.fft - halfBw
      invariant bin <= c.fft ==> ps == Peaks(c, rel[..], bin)
      invariant halfBw <= bin && (bin > c.fft - halfBw ==> bin == halfBw)
      invariant bin > c.fft ==> ps == Peaks(c, rel[..], c.fft)
    {
      if dcBin - 3 <= bin <= dcBin + 3 {
      } else if rel[bin] > c.threshold {
        ps := ps + [Peak(bin, rel[bin])];
      }
      bin := bin + 1;
    }
    if bin <= c.fft { NoPeaks(c, rel[..], bin, c.fft); }
  }

  /** Bins that are not eligible add no peaks. */
  lemma {:induction false} NoPeaks(c: Config, rel: Row, m: nat, n: nat)
    requires m <= n <= |rel| && forall i :: m <= i < n ==> !Eligible(c, i)
    ensures Peaks(c, rel, n) == Peaks(c, rel, m)
  {
    if m < n { NoPeaks(c, rel, m, n - 1); }
  }

  /** The loop of `create_new_bursts`. */
  method CreateNewBursts(c: Config, mask: array<bool>, bs: seq<Burst>, ps: seq<Peak>, id: nat, index: nat)
      returns (bs': seq<Burst>, id': nat)
    requires mask.Length == c.fft && mask[..] == MaskOf(c, bs) && forall i :: 0 <= i < |ps| ==> ps[i].bin < c.fft
    modifies mask
    ensures var made := Made(c, bs, ps, |ps|, id, index);
      bs' == bs + made && id' == id + 10 * |made| && mask[..] == MaskOf(c, bs + made)
  {
    bs', id' := bs, id;
    assert bs + [] == bs;
    for i := 0 to |ps|
      invariant bs' == bs + Made(c, bs, ps, i, id, index) && id' == id + 10 * |Made(c, bs, ps, i, id, index)|
      invariant mask[..] == MaskOf(c, bs')
    {
      var p := ps[i];
      assert mask[p.bin] == mask[..][p.bin] == !Covered(c, bs', p.bin);
      if mask[p.bin] {
        var b := NewBurst(c, id', index, p.bin);
        MaskOneMore(c, mask, bs', b);
        bs' := bs' + [b];
        id' := id' + 10;
      }
    }
  }

  /** The loop of the squelch that moves older bursts to the gone ones; what is left was made in this frame. */
  method MoveOlder(bs: seq<Burst>, gone: seq<Burst>, start: int, index: nat)
      returns (left: seq<Burst>, gone': seq<Burst>)
    ensures left == Younger(bs, start) && gone' == gone + Stopped(Older(bs, start), index)
  {
    hide Stopped, Older, Younger;
    left, gone' := bs, gone;
    var i := 0;
    ghost var n := 0;
    NoneStopped(bs, start, index);
    while i < |left|
      invariant 0 <= n <= |bs| && left == Younger(bs[..n], start) + bs[n..] && i == |Younger(bs[..n], start)|
      invariant gone' == gone + Stopped(Older(bs[..n], start), index)
      decreases |left| - i
    {
      var b := left[i];
      assert n < |bs| && b == bs[n] && bs[n..] == [b] + bs[n + 1..];
      Parted(Younger(bs[..n], start), b, bs[n + 1..]);
      OlderGrows(bs, n, start);
      if b.start != start {
        StoppedGrows(Older(bs[..n], start), b, index);
        Joined(gone, Stopped(Older(bs[..n], start), index), b.(stop := index));
        gone' := gone' + [b.(stop := index)];
        left := left[..i] + left[i + 1..];
      } else {
        i := i + 1;
      }
      n := n + 1;
    }
    assert n == |bs|;
    assert bs[..n] == bs;
  }

  lemma NoneStopped(bs: seq<Burst>, start: int, index: nat)
    ensures Older(bs[..0], start) == [] && Younger(bs[..0], start) == [] && Stopped([], index) == []
  {
  }

  lemma OlderGrows(bs: seq<Burst>, n: nat, start: int)
    requires n < |bs|
    ensures Older(bs[..n + 1], start) == if bs[n].start != start then Older(bs[..n], start) + [bs[n]] else Older(bs[..n], start)
    ensures Younger(bs[..n + 1], start) == if bs[n].start != start then Younger(bs[..n], start) else Younger(bs[..n], start) + [bs[n]]
  {
    assert bs[..n + 1][..n] == bs[..n];
  }

  lemma StoppedGrows(bs: seq<Burst>, b: Burst, index: nat)
    ensures Stopped(bs + [b], index) == Stopped(bs, index) + [b.(stop := index)]
  {
  }
}
