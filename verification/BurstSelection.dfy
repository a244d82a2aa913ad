/** Which bins get bursts: the mask, the distance between bursts, and no peak left without one. */
module BurstSelection {
  import opened BurstSpec

  ghost predicate Descending(ps: seq<Peak>) {
    forall i, j :: 0 <= i < j < |ps| ==> ps[i].level >= ps[j].level
  }

  /** What `qsort` with `peak_cmp_desc` promises. */
  ghost predicate Sorts(sort: Sort) {
    forall ps :: multiset(sort(ps)) == multiset(ps) && Descending(sort(ps))
  }

  predicate IsPeak(c: Config, rel: Row, p: Peak) {
    Eligible(c, p.bin) && p.bin < |rel| && p.level == rel[p.bin] > c.threshold
  }

  /** Exactly the eligible bins above the threshold are peaks. */
  lemma {:induction false} PeaksAre(c: Config, rel: Row, n: nat, p: Peak)
    requires n <= |rel|
    ensures p in Peaks(c, rel, n) <==> IsPeak(c, rel, p) && p.bin < n
  {
    if n > 0 { PeaksAre(c, rel, n - 1, p); }
  }

  lemma SortedPeaks(c: Config, sort: Sort, rel: Row, p: Peak)
    requires Sorts(sort)
    ensures p in sort(Peaks(c, rel, |rel|)) <==> IsPeak(c, rel, p)
  {
    var ps := Peaks(c, rel, |rel|);
    PeaksAre(c, rel, |rel|, p);
    assert multiset(sort(ps)) == multiset(ps);
    assert p in sort(ps) <==> p in multiset(sort(ps));
  }

  /** No two bursts are within half a burst width. */
  ghost predicate Separated(c: Config, bs: seq<Burst>) {
    forall i, j :: 0 <= i < j < |bs| ==> !Reaches(c, bs[i].bin, bs[j].bin)
  }

  lemma {:induction false} KeptIn(c: Config, bs: seq<Burst>, index: nat, b: Burst)
    requires b in Kept(c, bs, index)
    ensures b in bs && !Over(c, b, index)
  {
    if |bs| > 0 {
      var last := bs[|bs| - 1];
      if b != last || Over(c, last, index) { KeptIn(c, bs[..|bs| - 1], index, b); }
    }
  }

  lemma {:induction false} KeptSeparated(c: Config, bs: seq<Burst>, index: nat)
    requires Separated(c, bs)
    ensures Separated(c, Kept(c, bs, index))
  {
    if |bs| > 0 {
      var front, b := bs[..|bs| - 1], bs[|bs| - 1];
      KeptSeparated(c, front, index);
      var rest := Kept(c, front, index);
      forall k | 0 <= k < |rest|
        ensures !Reaches(c, rest[k].bin, b.bin)
      {
        KeptIn(c, front, index, rest[k]);
        var i :| 0 <= i < |front| && front[i] == rest[k];
        assert bs[i] == rest[k];
      }
    }
  }

  lemma TouchedBins(c: Config, rel: Row, index: nat, bs: seq<Burst>)
    ensures var r := Touched(c, rel, index, bs); forall i :: 0 <= i < |bs| ==> r[i].bin == bs[i].bin
    ensures Separated(c, bs) ==> Separated(c, Touched(c, rel, index, bs))
  {
  }

  lemma {:induction false} MadeSeparated(c: Config, bs: seq<Burst>, ps: seq<Peak>, n: nat, id: nat, index: nat)
    requires n <= |ps| && Separated(c, bs)
    ensures Separated(c, bs + Made(c, bs, ps, n, id, index))
  {
    if n == 0 {
      assert bs + [] == bs;
    } else {
      MadeSeparated(c, bs, ps, n - 1, id, index);
      var r := Made(c, bs, ps, n - 1, id, index);
      var b := NewBurst(c, id + 10 * |r|, index, ps[n - 1].bin);
      if !Covered(c, bs + r, b.bin) {
        assert bs + (r + [b]) == (bs + r) + [b];
      }
    }
  }

  /** The new burst at the peak `q`. */
  predicate MadeAt(r: seq<Burst>, q: Peak) { exists k :: 0 <= k < |r| && r[k].bin == q.bin }

  /** A peak that a new burst at least as strong stands for. */
  ghost predicate Served(c: Config, r: seq<Burst>, ps: seq<Peak>, p: Peak) {
    exists q :: q in ps && MadeAt(r, q) && Reaches(c, q.bin, p.bin) && q.level >= p.level
  }

  lemma {:induction false} MadeFrom(c: Config, bs: seq<Burst>, ps: seq<Peak>, n: nat, id: nat, index: nat, k: nat)
    requires n <= |ps| && k < |Made(c, bs, ps, n, id, index)|
    ensures exists j :: 0 <= j < n && ps[j].bin == Made(c, bs, ps, n, id, index)[k].bin
  {
    if n > 0 {
      var r := Made(c, bs, ps, n - 1, id, index);
      if k < |r| { MadeFrom(c, bs, ps, n - 1, id, index, k); }
    }
  }

  /** Every peak not near an old burst gets a new one near it, at least as strong. */
  lemma {:induction false} MadeServes(c: Config, bs: seq<Burst>, ps: seq<Peak>, n: nat, id: nat, index: nat, i: nat)
    requires i < n <= |ps| && Descending(ps) && !Covered(c, bs, ps[i].bin)
    ensures Served(c, Made(c, bs, ps, n, id, index), ps, ps[i])
  {
    var r, r' := Made(c, bs, ps, n - 1, id, index), Made(c, bs, ps, n, id, index);
    if i < n - 1 {
      MadeServes(c, bs, ps, n - 1, id, index, i);
      var q :| q in ps && MadeAt(r, q) && Reaches(c, q.bin, ps[i].bin) && q.level >= ps[i].level;
      MadeStays(r, r', q);
    } else if Covered(c, bs + r, ps[i].bin) {
      var k :| 0 <= k < |bs + r| && Reaches(c, (bs + r)[k].bin, ps[i].bin);
      NotOld(c, bs, r, k, ps[i].bin);
      MadeFrom(c, bs, ps, n - 1, id, index, k - |bs|);
      var j :| 0 <= j < n - 1 && ps[j].bin == r[k - |bs|].bin;
      assert MadeAt(r', ps[j]);
    } else {
      assert r'[|r|].bin == ps[i].bin;
      assert MadeAt(r', ps[i]);
    }
  }

  lemma NotOld(c: Config, bs: seq<Burst>, r: seq<Burst>, k: nat, bin: nat)
    requires k < |bs + r| && Reaches(c, (bs + r)[k].bin, bin) && !Covered(c, bs, bin)
    ensures |bs| <= k && (bs + r)[k] == r[k - |bs|]
  {
  }

  lemma MadeStays(r: seq<Burst>, r': seq<Burst>, q: Peak)
    requires r <= r' && MadeAt(r, q)
    ensures MadeAt(r', q)
  {
    var k :| 0 <= k < |r| && r[k].bin == q.bin;
    assert r'[k].bin == q.bin;
  }

  // ---------- a frame ----------

  /** The mask and the bursts agree, and bursts are apart. */
  ghost predicate Selected(c: Config, d: Detector) {
    d.mask == MaskOf(c, d.bursts) && Separated(c, d.bursts)
  }

  function KeptOf(c: Config, d: Detector, mag: Row): (bs: seq<Burst>)
    requires c.Valid() && Shaped(c, d) && |mag| == c.fft
  {
    Kept(c, Touched(c, Relative(mag, d.noise.sum), d.index, d.bursts), d.index)
  }

  function PeaksOf(c: Config, sort: Sort, d: Detector, mag: Row): (ps: seq<Peak>)
    requires c.Valid() && Shaped(c, d) && |mag| == c.fft
  {
    sort(Peaks(c, Masked(Relative(mag, d.noise.sum), d.mask), c.fft))
  }

  function MadeOf(c: Config, sort: Sort, d: Detector, mag: Row): (bs: seq<Burst>)
    requires c.Valid() && Shaped(c, d) && |mag| == c.fft
  {
    var ps := PeaksOf(c, sort, d, mag);
    Made(c, KeptOf(c, d, mag), ps, |ps|, d.nextId, d.index)
  }

  /** The squelch closes this frame. */
  predicate Squelches(c: Config, sort: Sort, d: Detector, mag: Row)
    requires c.Valid() && Shaped(c, d) && |mag| == c.fft
  {
    d.noise.primed && Crowded(c, |KeptOf(c, d, mag)| + |MadeOf(c, sort, d, mag)|)
  }

  lemma FrameBursts(c: Config, sort: Sort, d: Detector, mag: Row)
    requires c.Valid() && Shaped(c, d) && |mag| == c.fft
    ensures var d' := Frame(c, sort, d, mag);
      if !d.noise.primed then d'.bursts == d.bursts && d'.mask == d.mask
      else if Squelches(c, sort, d, mag) then d'.bursts == [] && d'.mask == MaskOf(c, [])
      else d'.bursts == KeptOf(c, d, mag) + MadeOf(c, sort, d, mag) && d'.mask == MaskOf(c, d'.bursts)
  {
  }

  lemma KeptOfSeparated(c: Config, d: Detector, mag: Row)
    requires c.Valid() && Shaped(c, d) && |mag| == c.fft && Separated(c, d.bursts)
    ensures Separated(c, KeptOf(c, d, mag))
  {
    var rel := Relative(mag, d.noise.sum);
    TouchedBins(c, rel, d.index, d.bursts);
    KeptSeparated(c, Touched(c, rel, d.index, d.bursts), d.index);
  }

  lemma FrameSelects(c: Config, sort: Sort, d: Detector, mag: Row)
    requires c.Valid() && Shaped(c, d) && |mag| == c.fft && Selected(c, d)
    ensures Selected(c, Frame(c, sort, d, mag))
  {
    FrameBursts(c, sort, d, mag);
    if d.noise.primed {
      var ps := PeaksOf(c, sort, d, mag);
      KeptOfSeparated(c, d, mag);
      MadeSeparated(c, KeptOf(c, d, mag), ps, |ps|, d.nextId, d.index);
    }
  }

  /** What stays active was active. */
  lemma KeptOfFrom(c: Config, d: Detector, mag: Row, k: nat)
    requires c.Valid() && Shaped(c, d) && |mag| == c.fft && k < |KeptOf(c, d, mag)|
    ensures exists i :: 0 <= i < |d.bursts| && d.bursts[i].bin == KeptOf(c, d, mag)[k].bin
  {
    var rel := Relative(mag, d.noise.sum);
    var touched := Touched(c, rel, d.index, d.bursts);
    var b := KeptOf(c, d, mag)[k];
    KeptIn(c, touched, d.index, b);
    var i :| 0 <= i < |touched| && touched[i] == b;
    TouchedBins(c, rel, d.index, d.bursts);
    assert d.bursts[i].bin == b.bin;
  }

  lemma KeptCovers(c: Config, d: Detector, mag: Row, bin: nat)
    requires c.Valid() && Shaped(c, d) && |mag| == c.fft && Covered(c, KeptOf(c, d, mag), bin)
    ensures Covered(c, d.bursts, bin)
  {
    var kept := KeptOf(c, d, mag);
    var k :| 0 <= k < |kept| && Reaches(c, kept[k].bin, bin);
    KeptOfFrom(c, d, mag, k);
    var i :| 0 <= i < |d.bursts| && d.bursts[i].bin == kept[k].bin;
    assert Reaches(c, d.bursts[i].bin, bin);
  }

  /** A peak is never near a burst that was active before. */
  lemma PeakIsFree(c: Config, d: Detector, mag: Row, p: Peak)
    requires c.Valid() && Shaped(c, d) && |mag| == c.fft && Selected(c, d) && c.threshold >= 0.0
    requires IsPeak(c, Masked(Relative(mag, d.noise.sum), d.mask), p)
    ensures !Covered(c, KeptOf(c, d, mag), p.bin)
  {
    assert d.mask[p.bin];
    if Covered(c, KeptOf(c, d, mag), p.bin) { KeptCovers(c, d, mag, p.bin); }
  }

  /** A peak has a new burst near it, at least as strong. */
  lemma PeakServed(c: Config, sort: Sort, d: Detector, mag: Row, p: Peak)
    requires c.Valid() && Shaped(c, d) && |mag| == c.fft && Selected(c, d) && c.threshold >= 0.0 && Sorts(sort)
    requires IsPeak(c, Masked(Relative(mag, d.noise.sum), d.mask), p)
    ensures Served(c, MadeOf(c, sort, d, mag), PeaksOf(c, sort, d, mag), p)
  {
    var ps := PeaksOf(c, sort, d, mag);
    SortedPeaks(c, sort, Masked(Relative(mag, d.noise.sum), d.mask), p);
    var i :| 0 <= i < |ps| && ps[i] == p;
    PeakIsFree(c, d, mag, p);
    assert Descending(ps);
    MadeServes(c, KeptOf(c, d, mag), ps, |ps|, d.nextId, d.index, i);
  }

  /** Absent squelch, each eligible bin above the threshold and off the mask is near a new burst at least as strong. */
  lemma SelectionIsMaximal(c: Config, sort: Sort, d: Detector, mag: Row, p: Peak)
    requires c.Valid() && Shaped(c, d) && |mag| == c.fft && Selected(c, d) && c.threshold >= 0.0 && Sorts(sort)
    requires d.noise.primed && !Squelches(c, sort, d, mag)
    requires IsPeak(c, Masked(Relative(mag, d.noise.sum), d.mask), p)
    ensures Served(c, MadeOf(c, sort, d, mag), PeaksOf(c, sort, d, mag), p)
    ensures Frame(c, sort, d, mag).bursts == KeptOf(c, d, mag) + MadeOf(c, sort, d, mag)
  {
    FrameBursts(c, sort, d, mag);
    PeakServed(c, sort, d, mag, p);
  }
}
