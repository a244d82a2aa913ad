/**
 What a frame does to the bursts, said of the magnitudes, the rows of the history and the threshold alone:
 which bursts go on, which end, and where new ones stand.
 */
module BurstDetection {
  import opened BurstSpec
  import opened BurstSelection
  import opened BurstLifetime

  // ---------- what is heard ----------

  /** The history of bin `i`. */
  function Floor(c: Config, d: Detector, i: nat): (x: real)
    requires Shaped(c, d) && i < c.fft
  {
    ColumnSum(d.noise.history, i, c.historySize)
  }

  /** Bin `i` rises above the threshold times its history. */
  predicate Loud(c: Config, d: Detector, mag: Row, i: int)
    requires Shaped(c, d) && |mag| == c.fft
  {
    0 <= i < c.fft && Floor(c, d, i) > 0.0 && mag[i] > c.threshold * Floor(c, d, i)
  }

  lemma RatioAbove(m: real, s: real, t: real)
    requires s > 0.0
    ensures m / s > t <==> m > t * s
  {
    var q := m / s;
    assert q * s == m;
    if q > t {
      assert (q - t) * s > 0.0;
    } else {
      assert (t - q) * s >= 0.0;
    }
  }

  lemma RatioAtLeast(m: real, s: real, k: real, t: real)
    requires s > 0.0 && t > 0.0 && m / s >= k / t
    ensures m * t >= k * s
  {
    var q, r := m / s, k / t;
    assert q * s == m && r * t == k;
    assert (q - r) * s >= 0.0;
    assert ((q - r) * s) * t >= 0.0;
    assert (q * s) * t == m * t && (r * s) * t == (r * t) * s;
  }

  lemma LoudIff(c: Config, d: Detector, mag: Row, i: nat)
    requires Shaped(c, d) && |mag| == c.fft && Summed(c, d.noise) && c.threshold >= 0.0 && i < c.fft
    ensures Relative(mag, d.noise.sum)[i] > c.threshold <==> Loud(c, d, mag, i)
  {
    hide ColumnSum;
    if d.noise.sum[i] > 0.0 { RatioAbove(mag[i], d.noise.sum[i], c.threshold); }
  }

  // ---------- bursts that go on ----------

  /** The burst after the frame: heard now if its bin or a neighbour is loud. */
  function Again(c: Config, d: Detector, mag: Row, b: Burst): (b': Burst)
    requires Shaped(c, d) && |mag| == c.fft
  {
    if Loud(c, d, mag, b.bin - 1) || Loud(c, d, mag, b.bin) || Loud(c, d, mag, b.bin + 1) then b.(lastActive := d.index) else b
  }

  /** The silence after it is as long as `post`, unless that ends before the first sample, or the burst is too long. */
  predicate Ends(c: Config, b: Burst, index: nat) {
    || (b.lastActive + c.post >= 0 && index - b.lastActive >= c.post)
    || (c.maxLen > 0 && b.lastActive > b.start + c.maxLen)
  }

  lemma TouchIsAgain(c: Config, d: Detector, mag: Row, b: Burst)
    requires Shaped(c, d) && |mag| == c.fft && Summed(c, d.noise) && c.threshold >= 0.0 && b.bin < c.fft
    ensures Touch(c, Relative(mag, d.noise.sum), d.index, b) == Again(c, d, mag, b)
  {
    hide Relative, Loud, Summed;
    LoudIff(c, d, mag, b.bin);
    LoudSomewhere(c, d, mag, b.bin);
    if b.bin > 0 { LoudIff(c, d, mag, b.bin - 1); }
    if b.bin + 1 < c.fft { LoudIff(c, d, mag, b.bin + 1); }
  }

  lemma LoudSomewhere(c: Config, d: Detector, mag: Row, i: nat)
    requires Shaped(c, d) && |mag| == c.fft && i < c.fft
    ensures i == 0 ==> !Loud(c, d, mag, i - 1)
    ensures i + 1 == c.fft ==> !Loud(c, d, mag, i + 1)
  {
  }

  /** `r` is what `f` picks of `bs`, in order. */
  predicate Picks(bs: seq<Burst>, f: seq<nat>, r: seq<Burst>) {
    && |f| == |r| && (forall k :: 0 <= k < |f| ==> f[k] < |bs| && r[k] == bs[f[k]])
    && forall j, k :: 0 <= j < k < |f| ==> f[j] < f[k]
  }

  lemma PicksMore(bs: seq<Burst>, f: seq<nat>, r: seq<Burst>, b: Burst)
    requires Picks(bs, f, r)
    ensures Picks(bs + [b], f, r) && Picks(bs + [b], f + [|bs|], r + [b])
  {
  }

  /** `f` names exactly those bursts that end at `t`, or those that do not. */
  ghost predicate Names(c: Config, bs: seq<Burst>, t: nat, f: seq<nat>, over: bool) {
    forall i: nat :: i < |bs| ==> (i in f <==> Ends(c, bs[i], t) == over)
  }

  lemma NamesMore(c: Config, bs: seq<Burst>, t: nat, f: seq<nat>, over: bool, b: Burst)
    requires Names(c, bs, t, f, over) && forall k :: 0 <= k < |f| ==> f[k] < |bs|
    ensures Names(c, bs + [b], t, if Ends(c, b, t) == over then f + [|bs|] else f, over)
  {
    hide Ends;
    var g, r := if Ends(c, b, t) == over then f + [|bs|] else f, bs + [b];
    forall i: nat | i < |r|
      ensures i in g <==> Ends(c, r[i], t) == over
    {
      if i < |bs| { assert r[i] == bs[i]; }
    }
  }

  lemma EndsIsOver(c: Config, b: Burst, t: nat)
    ensures Ends(c, b, t) == Over(c, b, t)
  {
  }

  lemma FrontAndLast(bs: seq<Burst>, t: nat)
    requires |bs| > 0
    ensures var front, b := bs[..|bs| - 1], bs[|bs| - 1]; bs == front + [b] && Stopped(bs, t) == Stopped(front, t) + [b.(stop := t)]
  {
  }

  /** Those that stay, in order. */
  lemma {:induction false} KeptPicks(c: Config, bs: seq<Burst>, t: nat) returns (f: seq<nat>)
    ensures Picks(bs, f, Kept(c, bs, t)) && Names(c, bs, t, f, false)
  {
    if |bs| == 0 {
      f := [];
    } else {
      hide Names, Ends, Over, Stopped;
      var front, b := bs[..|bs| - 1], bs[|bs| - 1];
      f := KeptPicks(c, front, t);
      FrontAndLast(bs, t);
      EndsIsOver(c, b, t);
      PicksMore(front, f, Kept(c, front, t), b);
      NamesMore(c, front, t, f, false, b);
      if !Ends(c, b, t) { f := f + [|front|]; }
    }
  }

  /** Those that go, in order. */
  lemma {:induction false} GonePicks(c: Config, bs: seq<Burst>, t: nat) returns (f: seq<nat>)
    ensures Picks(Stopped(bs, t), f, Gone(c, bs, t)) && Names(c, bs, t, f, true)
  {
    if |bs| == 0 {
      f := [];
    } else {
      hide Names, Ends, Over, Stopped;
      var front, b := bs[..|bs| - 1], bs[|bs| - 1];
      f := GonePicks(c, front, t);
      FrontAndLast(bs, t);
      EndsIsOver(c, b, t);
      PicksMore(Stopped(front, t), f, Gone(c, front, t), b.(stop := t));
      NamesMore(c, front, t, f, true, b);
      if Ends(c, b, t) { f := f + [|front|]; }
    }
  }

  /** All bursts heard again or not, before any ends. */
  function AllAgain(c: Config, d: Detector, mag: Row): (bs: seq<Burst>)
    requires Shaped(c, d) && |mag| == c.fft
  {
    seq(|d.bursts|, i requires 0 <= i < |d.bursts| => Again(c, d, mag, d.bursts[i]))
  }

  lemma TouchedIsAgain(c: Config, d: Detector, mag: Row)
    requires Shaped(c, d) && |mag| == c.fft && Summed(c, d.noise) && c.threshold >= 0.0
    ensures Touched(c, Relative(mag, d.noise.sum), d.index, d.bursts) == AllAgain(c, d, mag)
  {
    hide Relative, Touch, Again, Summed;
    forall i | 0 <= i < |d.bursts|
      ensures Touch(c, Relative(mag, d.noise.sum), d.index, d.bursts[i]) == Again(c, d, mag, d.bursts[i])
    {
      TouchIsAgain(c, d, mag, d.bursts[i]);
    }
  }

  // ---------- new bursts ----------

  /** Bin `i` may get a burst: off the edges and the centre, and more than half a width from every burst. */
  predicate Free(c: Config, d: Detector, i: int) {
    && c.width / 2 <= i < c.fft - c.width / 2 && (i < c.fft / 2 - 3 || c.fft / 2 + 3 < i)
    && forall k :: 0 <= k < |d.bursts| ==> i < d.bursts[k].bin - c.width / 2 || d.bursts[k].bin + c.width / 2 < i
  }

  /** Bin `j` rises over its history at least as much as bin `i` over its own. */
  predicate AsStrong(c: Config, d: Detector, mag: Row, j: nat, i: nat)
    requires Shaped(c, d) && |mag| == c.fft && i < c.fft && j < c.fft
  {
    mag[j] * Floor(c, d, i) >= mag[i] * Floor(c, d, j)
  }

  lemma PeakIff(c: Config, d: Detector, mag: Row, i: nat)
    requires Shaped(c, d) && |mag| == c.fft && Summed(c, d.noise) && c.threshold >= 0.0 && Selected(c, d) && i < c.fft
    ensures var rel := Masked(Relative(mag, d.noise.sum), d.mask);
      IsPeak(c, rel, Peak(i, rel[i])) <==> Free(c, d, i) && Loud(c, d, mag, i)
  {
    hide Relative, Loud, Summed;
    LoudIff(c, d, mag, i);
    assert d.mask[i] <==> !Covered(c, d.bursts, i);
    assert Covered(c, d.bursts, i) <==> exists k :: 0 <= k < |d.bursts| && Reaches(c, d.bursts[k].bin, i);
  }

  lemma LevelIs(c: Config, d: Detector, mag: Row, i: nat)
    requires Shaped(c, d) && |mag| == c.fft && Summed(c, d.noise) && Selected(c, d) && i < c.fft
    requires Free(c, d, i) && Loud(c, d, mag, i)
    ensures Masked(Relative(mag, d.noise.sum), d.mask)[i] == mag[i] / Floor(c, d, i)
  {
    hide ColumnSum;
    assert !Covered(c, d.bursts, i);
  }

  /** The bursts of this frame: numbered on, at free and loud bins. */
  ghost predicate Opens(c: Config, d: Detector, mag: Row, made: seq<Burst>)
    requires Shaped(c, d) && |mag| == c.fft
  {
    forall k :: 0 <= k < |made| ==>
      && made[k] == Burst(d.nextId + 10 * k, d.index - c.pre, 0, d.index - c.pre, made[k].bin)
      && Free(c, d, made[k].bin) && Loud(c, d, mag, made[k].bin)
  }

  /** Burst `b` is within half a width of bin `i` and at least as strong. */
  predicate StandsFor(c: Config, d: Detector, mag: Row, b: Burst, i: nat)
    requires Shaped(c, d) && |mag| == c.fft && i < c.fft
  {
    b.bin < c.fft && b.bin - c.width / 2 <= i <= b.bin + c.width / 2 && AsStrong(c, d, mag, b.bin, i)
  }

  /** Every free and loud bin has a burst that stands for it. */
  ghost predicate Serves(c: Config, d: Detector, mag: Row, made: seq<Burst>)
    requires Shaped(c, d) && |mag| == c.fft
  {
    forall i: nat :: i < c.fft && Free(c, d, i) && Loud(c, d, mag, i) ==> exists k :: 0 <= k < |made| && StandsFor(c, d, mag, made[k], i)
  }

  lemma {:induction false} MadeBurst(c: Config, bs: seq<Burst>, ps: seq<Peak>, n: nat, id: nat, t: nat, k: nat)
    requires n <= |ps| && k < |Made(c, bs, ps, n, id, t)|
    ensures var b := Made(c, bs, ps, n, id, t)[k]; b == Burst(id + 10 * k, t - c.pre, 0, t - c.pre, b.bin)
  {
    if n > 0 {
      var r := Made(c, bs, ps, n - 1, id, t);
      if k < |r| { MadeBurst(c, bs, ps, n - 1, id, t, k); }
    }
  }

  lemma MadeOpens(c: Config, sort: Sort, d: Detector, mag: Row)
    requires c.Valid() && Shaped(c, d) && |mag| == c.fft && Summed(c, d.noise) && c.threshold >= 0.0 && Selected(c, d) && Sorts(sort)
    ensures Opens(c, d, mag, MadeOf(c, sort, d, mag))
  {
    hide Made, Kept, Peaks, Relative, Touched, Summed, Selected, Sorts, Loud, Free, IsPeak;
    var ps, kept, made := PeaksOf(c, sort, d, mag), KeptOf(c, d, mag), MadeOf(c, sort, d, mag);
    var rel := Masked(Relative(mag, d.noise.sum), d.mask);
    forall k | 0 <= k < |made|
      ensures made[k] == Burst(d.nextId + 10 * k, d.index - c.pre, 0, d.index - c.pre, made[k].bin)
      ensures Free(c, d, made[k].bin) && Loud(c, d, mag, made[k].bin)
    {
      MadeBurst(c, kept, ps, |ps|, d.nextId, d.index, k);
      MadeFrom(c, kept, ps, |ps|, d.nextId, d.index, k);
      var j :| 0 <= j < |ps| && ps[j].bin == made[k].bin;
      SortedPeaks(c, sort, rel, ps[j]);
      PeakHolds(c, rel, ps[j]);
      PeakIff(c, d, mag, ps[j].bin);
    }
  }

  lemma PeakHolds(c: Config, rel: Row, p: Peak)
    requires IsPeak(c, rel, p)
    ensures p.bin < |rel| && p == Peak(p.bin, rel[p.bin])
  {
  }

  lemma MadeStandsFor(c: Config, sort: Sort, d: Detector, mag: Row, i: nat)
    requires c.Valid() && Shaped(c, d) && |mag| == c.fft && Summed(c, d.noise) && c.threshold >= 0.0 && Selected(c, d) && Sorts(sort)
    requires i < c.fft && Free(c, d, i) && Loud(c, d, mag, i)
    ensures exists k :: 0 <= k < |MadeOf(c, sort, d, mag)| && StandsFor(c, d, mag, MadeOf(c, sort, d, mag)[k], i)
  {
    hide Made, Kept, Peaks, Relative, Touched, Summed, Selected, Sorts, Loud, Free, IsPeak, Masked;
    var ps, made := PeaksOf(c, sort, d, mag), MadeOf(c, sort, d, mag);
    var rel := Masked(Relative(mag, d.noise.sum), d.mask);
    var p := Peak(i, rel[i]);
    PeakIff(c, d, mag, i);
    PeakServed(c, sort, d, mag, p);
    var q :| q in ps && MadeAt(made, q) && Reaches(c, q.bin, p.bin) && q.level >= p.level;
    SortedPeaks(c, sort, rel, q);
    PeakHolds(c, rel, q);
    PeakIff(c, d, mag, q.bin);
    LevelsCompare(c, d, mag, q.bin, i);
    var k :| 0 <= k < |made| && made[k].bin == q.bin;
    assert StandsFor(c, d, mag, made[k], i);
  }

  lemma LevelsCompare(c: Config, d: Detector, mag: Row, j: nat, i: nat)
    requires Shaped(c, d) && |mag| == c.fft && Summed(c, d.noise) && Selected(c, d) && i < c.fft && j < c.fft
    requires Free(c, d, i) && Loud(c, d, mag, i) && Free(c, d, j) && Loud(c, d, mag, j)
    requires var rel := Masked(Relative(mag, d.noise.sum), d.mask); rel[j] >= rel[i]
    ensures AsStrong(c, d, mag, j, i)
  {
    hide ColumnSum, Masked, Relative, Selected, Summed, Free;
    LevelIs(c, d, mag, i);
    LevelIs(c, d, mag, j);
    RatioAtLeast(mag[j], Floor(c, d, j), mag[i], Floor(c, d, i));
  }

  // ---------- the frame ----------

  /** What happens to the bursts of `d`: `kept` go on, `gone` end at this frame. */
  ghost predicate Continues(c: Config, d: Detector, mag: Row, kept: seq<Burst>, gone: seq<Burst>)
    requires Shaped(c, d) && |mag| == c.fft
  {
    var bs := AllAgain(c, d, mag);
    && (exists f :: Picks(bs, f, kept) && Names(c, bs, d.index, f, false))
    && exists g :: Picks(Stopped(bs, d.index), g, gone) && Names(c, bs, d.index, g, true)
  }

  lemma KeptContinues(c: Config, d: Detector, mag: Row)
    requires c.Valid() && Shaped(c, d) && |mag| == c.fft && Summed(c, d.noise) && c.threshold >= 0.0
    ensures Continues(c, d, mag, KeptOf(c, d, mag), GoneOf(c, d, mag))
  {
    hide Kept, Gone, Touched, AllAgain, Relative, Summed, Shaped, Stopped, Picks, Names;
    TouchedIsAgain(c, d, mag);
    var f := KeptPicks(c, AllAgain(c, d, mag), d.index);
    var g := GonePicks(c, AllAgain(c, d, mag), d.index);
  }

  /**
   What a frame makes of `d`: bursts that go on, end and open. Where too many would be active, none is: those of earlier
   frames end and those of this frame are dropped.
   */
  ghost predicate FrameIs(c: Config, d: Detector, mag: Row, d': Detector, kept: seq<Burst>, gone: seq<Burst>, made: seq<Burst>)
    requires Shaped(c, d) && |mag| == c.fft
  {
    && Continues(c, d, mag, kept, gone) && Opens(c, d, mag, made) && Serves(c, d, mag, made) && Separated(c, kept + made)
    && d'.index == d.index + c.fft && d'.nextId == d.nextId + 10 * |made|
    && if 0 < c.maxBursts < |kept| + |made| then
         && d'.bursts == [] && d'.ended == d.ended + gone + Stopped(kept, d.index)
         && d'.dropped == d.dropped + Ids(made)
       else
         d'.bursts == kept + made && d'.ended == d.ended + gone && d'.dropped == d.dropped
  }

  /** The law of every frame with a noise floor. */
  lemma FrameLaw(c: Config, sort: Sort, d: Detector, mag: Row) returns (kept: seq<Burst>, gone: seq<Burst>, made: seq<Burst>)
    requires c.Valid() && Shaped(c, d) && |mag| == c.fft && Summed(c, d.noise) && c.threshold >= 0.0
    requires Selected(c, d) && Earlier(c, d) && Sorts(sort) && d.noise.primed
    ensures FrameIs(c, d, mag, Frame(c, sort, d, mag), kept, gone, made)
  {
    hide Frame, Kept, Gone, Touched, Relative, Summed, Made, PeaksOf, Continues, Opens, Serves, Separated, Earlier, Sorts, Stopped, Ids;
    kept, gone, made := KeptOf(c, d, mag), GoneOf(c, d, mag), MadeOf(c, sort, d, mag);
    KeptContinues(c, d, mag);
    MadeOpens(c, sort, d, mag);
    MadeAllServed(c, sort, d, mag);
    FrameBursts(c, sort, d, mag);
    FrameEnds(c, sort, d, mag);
    FramePlace(c, sort, d, mag);
    MadeApart(c, sort, d, mag);
  }

  lemma MadeAllServed(c: Config, sort: Sort, d: Detector, mag: Row)
    requires c.Valid() && Shaped(c, d) && |mag| == c.fft && Summed(c, d.noise) && c.threshold >= 0.0 && Selected(c, d) && Sorts(sort)
    ensures Serves(c, d, mag, MadeOf(c, sort, d, mag))
  {
    hide Summed, Selected, Sorts, Free, Loud, MadeOf, StandsFor;
    forall i: nat | i < c.fft && Free(c, d, i) && Loud(c, d, mag, i)
      ensures exists k :: 0 <= k < |MadeOf(c, sort, d, mag)| && StandsFor(c, d, mag, MadeOf(c, sort, d, mag)[k], i)
    {
      MadeStandsFor(c, sort, d, mag, i);
    }
  }

  lemma MadeApart(c: Config, sort: Sort, d: Detector, mag: Row)
    requires c.Valid() && Shaped(c, d) && |mag| == c.fft && Selected(c, d)
    ensures Separated(c, KeptOf(c, d, mag) + MadeOf(c, sort, d, mag))
  {
    var ps := PeaksOf(c, sort, d, mag);
    KeptOfSeparated(c, d, mag);
    MadeSeparated(c, KeptOf(c, d, mag), ps, |ps|, d.nextId, d.index);
  }
}
