/** How long bursts last, which ids are where, and what the noise floor is. */
module BurstLifetime {
  import opened BurstSpec
  import opened BurstSelection

  // ---------- lifetimes ----------

  /** The burst starts so long before the first sample that the end of its silence, as an unsigned number, is never reached. */
  predicate Lost(c: Config, b: Burst) { b.start + c.post < 0 }

  /** An active burst after the frame at `t`: unless it is lost, it was heard within the post length or is new, and is not too long. */
  ghost predicate Live(c: Config, b: Burst, t: int) {
    && 0 <= b.start + c.pre && b.start <= b.lastActive <= t
    && (Lost(c, b) || t < b.lastActive + c.post || t == b.start + c.pre)
    && (c.maxLen > 0 ==> b.lastActive - b.start <= c.maxLen)
  }

  /** A burst that has ended: unless it is lost, its length is limited where there is a limit. */
  ghost predicate Bounded(c: Config, b: Burst) {
    && 0 <= b.start + c.pre && b.start <= b.lastActive <= b.stop
    && (c.maxLen > 0 ==> Lost(c, b) || b.stop - b.start < c.Span())
  }

  /** A burst that is not heard again ends by itself if and only if it is not lost. */
  lemma EndsByItselfIff(c: Config, b: Burst)
    requires b.lastActive == b.start
    ensures (exists t: nat :: Over(c, b, t)) <==> !Lost(c, b)
  {
    if !Lost(c, b) { assert Over(c, b, b.lastActive + c.post); }
  }

  ghost predicate AllLive(c: Config, bs: seq<Burst>, t: int) { forall i :: 0 <= i < |bs| ==> Live(c, bs[i], t) }

  ghost predicate AllBounded(c: Config, bs: seq<Burst>) { forall i :: 0 <= i < |bs| ==> Bounded(c, bs[i]) }

  ghost predicate AllBefore(c: Config, bs: seq<Burst>, t: int) { forall i :: 0 <= i < |bs| ==> bs[i].start + c.pre < t }

  lemma {:induction false} KeptLive(c: Config, rel: Row, bs: seq<Burst>, t: nat)
    requires c.Valid() && AllLive(c, bs, t - c.fft)
    ensures AllLive(c, Kept(c, Touched(c, rel, t, bs), t), t)
  {
    var touched := Touched(c, rel, t, bs);
    var kept := Kept(c, touched, t);
    forall k | 0 <= k < |kept|
      ensures Live(c, kept[k], t)
    {
      KeptIn(c, touched, t, kept[k]);
      var i :| 0 <= i < |touched| && touched[i] == kept[k];
      assert Live(c, bs[i], t - c.fft);
    }
  }

  lemma {:induction false} KeptBefore(c: Config, rel: Row, bs: seq<Burst>, t: nat)
    requires AllBefore(c, bs, t)
    ensures AllBefore(c, Kept(c, Touched(c, rel, t, bs), t), t)
  {
    var touched := Touched(c, rel, t, bs);
    var kept := Kept(c, touched, t);
    forall k | 0 <= k < |kept|
      ensures kept[k].start + c.pre < t
    {
      KeptIn(c, touched, t, kept[k]);
    }
  }

  lemma {:induction false} GoneFrom(c: Config, bs: seq<Burst>, t: nat, b: Burst)
    requires b in Gone(c, bs, t)
    ensures exists i :: 0 <= i < |bs| && Over(c, bs[i], t) && b == bs[i].(stop := t)
  {
    if |bs| > 0 {
      var front, last := bs[..|bs| - 1], bs[|bs| - 1];
      if Over(c, last, t) && b == last.(stop := t) {
      } else {
        GoneFrom(c, front, t, b);
        var i :| 0 <= i < |front| && Over(c, front[i], t) && b == front[i].(stop := t);
        assert bs[i] == front[i];
      }
    }
  }

  lemma GoneBounded(c: Config, rel: Row, bs: seq<Burst>, t: nat)
    requires c.Valid() && AllLive(c, bs, t - c.fft)
    ensures AllBounded(c, Gone(c, Touched(c, rel, t, bs), t))
  {
    var touched := Touched(c, rel, t, bs);
    var gone := Gone(c, touched, t);
    forall k | 0 <= k < |gone|
      ensures Bounded(c, gone[k])
    {
      GoneFrom(c, touched, t, gone[k]);
      var i :| 0 <= i < |touched| && Over(c, touched[i], t) && gone[k] == touched[i].(stop := t);
      assert Live(c, bs[i], t - c.fft);
    }
  }

  /** Bursts of the frame at `t`, numbered from `id` on. */
  ghost predicate Fresh(c: Config, r: seq<Burst>, id: nat, t: nat) {
    forall k :: 0 <= k < |r| ==> r[k].start == t - c.pre && r[k].lastActive == t - c.pre && r[k].id == id + 10 * k
  }

  lemma {:induction false} MadeStarts(c: Config, bs: seq<Burst>, ps: seq<Peak>, n: nat, id: nat, t: nat)
    requires n <= |ps|
    ensures Fresh(c, Made(c, bs, ps, n, id, t), id, t)
  {
    if n > 0 { MadeStarts(c, bs, ps, n - 1, id, t); }
  }

  /** Kept bursts are older than this frame's, made ones are this frame's. */
  lemma {:induction false} OlderIs(a: seq<Burst>, b: seq<Burst>, start: int)
    requires forall i :: 0 <= i < |a| ==> a[i].start != start
    requires forall i :: 0 <= i < |b| ==> b[i].start == start
    ensures Older(a + b, start) == a && Younger(a + b, start) == b
  {
    if |b| > 0 {
      assert (a + b)[..|a + b| - 1] == a + b[..|b| - 1];
      OlderIs(a, b[..|b| - 1], start);
    } else if |a| > 0 {
      assert (a + b)[..|a + b| - 1] == a[..|a| - 1] + [];
      OlderIs(a[..|a| - 1], [], start);
    }
  }

  function GoneOf(c: Config, d: Detector, mag: Row): (bs: seq<Burst>)
    requires c.Valid() && Shaped(c, d) && |mag| == c.fft
  {
    Gone(c, Touched(c, Relative(mag, d.noise.sum), d.index, d.bursts), d.index)
  }

  /** The invariant of lifetimes before the frame at `d.index`. */
  ghost predicate Lively(c: Config, d: Detector) {
    AllLive(c, d.bursts, d.index - c.fft) && AllBounded(c, d.ended)
  }

  /** Every active burst is of an earlier frame than the one at `d.index`. */
  ghost predicate Earlier(c: Config, d: Detector) { AllBefore(c, d.bursts, d.index) }

  /** What a frame ends and drops: the squelch ends what it found and drops just what this frame made. */
  lemma FrameEnds(c: Config, sort: Sort, d: Detector, mag: Row)
    requires c.Valid() && Shaped(c, d) && |mag| == c.fft && Earlier(c, d)
    ensures var d' := Frame(c, sort, d, mag);
      if !d.noise.primed then d'.ended == d.ended && d'.dropped == d.dropped && d'.nextId == d.nextId
      else if Squelches(c, sort, d, mag) then
        && d'.ended == d.ended + GoneOf(c, d, mag) + Stopped(KeptOf(c, d, mag), d.index)
        && d'.dropped == d.dropped + Ids(MadeOf(c, sort, d, mag))
        && d'.nextId == d.nextId + 10 * |MadeOf(c, sort, d, mag)|
      else
        && d'.ended == d.ended + GoneOf(c, d, mag) && d'.dropped == d.dropped
        && d'.nextId == d.nextId + 10 * |MadeOf(c, sort, d, mag)|
  {
    hide Kept, Gone, Made, Touched, Older, Younger, MaskOf, Learn, Quiet, Peaks, Masked, Relative, Stopped, Ids, AnyTooLong;
    if d.noise.primed {
      var ps, kept, made := PeaksOf(c, sort, d, mag), KeptOf(c, d, mag), MadeOf(c, sort, d, mag);
      KeptBefore(c, Relative(mag, d.noise.sum), d.bursts, d.index);
      MadeStarts(c, kept, ps, |ps|, d.nextId, d.index);
      OlderIs(kept, made, d.index - c.pre);
    }
  }

  lemma FrameEarlier(c: Config, sort: Sort, d: Detector, mag: Row)
    requires c.Valid() && Shaped(c, d) && |mag| == c.fft && Earlier(c, d)
    ensures Earlier(c, Frame(c, sort, d, mag))
  {
    FrameBursts(c, sort, d, mag);
    if d.noise.primed {
      var ps, kept := PeaksOf(c, sort, d, mag), KeptOf(c, d, mag);
      KeptBefore(c, Relative(mag, d.noise.sum), d.bursts, d.index);
      MadeStarts(c, kept, ps, |ps|, d.nextId, d.index);
    }
  }

  lemma FrameLively(c: Config, sort: Sort, d: Detector, mag: Row)
    requires c.Valid() && Shaped(c, d) && |mag| == c.fft && Earlier(c, d) && Lively(c, d) && (!d.noise.primed ==> d.bursts == [])
    ensures Lively(c, Frame(c, sort, d, mag))
  {
    hide Frame, Squelches, Kept, Gone, Made, Touched, PeaksOf;
    FrameEnds(c, sort, d, mag);
    FrameBursts(c, sort, d, mag);
    FramePlace(c, sort, d, mag);
    if d.noise.primed {
      var ps, kept := PeaksOf(c, sort, d, mag), KeptOf(c, d, mag);
      KeptLive(c, Relative(mag, d.noise.sum), d.bursts, d.index);
      GoneBounded(c, Relative(mag, d.noise.sum), d.bursts, d.index);
      MadeStarts(c, kept, ps, |ps|, d.nextId, d.index);
    }
  }

  lemma FramePlace(c: Config, sort: Sort, d: Detector, mag: Row)
    requires c.Valid() && Shaped(c, d) && |mag| == c.fft
    ensures Frame(c, sort, d, mag).index == d.index + c.fft
  {
    hide Detect, Learn;
  }

  // ---------- ids ----------

  /** The ids given out so far. */
  function Issued(n: nat): (ids: seq<nat>)
    ensures |ids| == n
  {
    seq(n, k => 10 * k)
  }

  ghost predicate ConservedWith(d: Detector, n: nat) {
    d.nextId == 10 * n && multiset(Ids(d.bursts)) + multiset(Ids(d.ended)) + multiset(d.dropped) == multiset(Issued(n))
  }

  /** Every id given out is in exactly one place: active, ended or dropped by the squelch. */
  ghost predicate Conserved(d: Detector) { exists n: nat :: ConservedWith(d, n) }

  lemma IdsAppend(a: seq<Burst>, b: seq<Burst>)
    ensures Ids(a + b) == Ids(a) + Ids(b)
  {
  }

  lemma {:induction false} KeptOrGone(c: Config, bs: seq<Burst>, t: nat)
    ensures multiset(Ids(Kept(c, bs, t))) + multiset(Ids(Gone(c, bs, t))) == multiset(Ids(bs))
  {
    if |bs| == 0 { return; }
    hide Ids, Over;
    if |bs| > 0 {
      var front, b := bs[..|bs| - 1], bs[|bs| - 1];
      KeptOrGone(c, front, t);
      assert bs == front + [b];
      IdsAppend(front, [b]);
      IdsAppend(Kept(c, front, t), [b]);
      IdsAppend(Gone(c, front, t), [b.(stop := t)]);
      OneId(b);
      OneId(b.(stop := t));
    }
  }

  lemma OneId(b: Burst)
    ensures Ids([b]) == [b.id]
  {
  }

  lemma IssuedGrows(n: nat, m: nat, made: seq<Burst>)
    requires |made| == m && forall k :: 0 <= k < m ==> made[k].id == 10 * n + 10 * k
    ensures Issued(n + m) == Issued(n) + Ids(made)
  {
  }

  lemma Balance(k: seq<nat>, g: seq<nat>, b: seq<nat>, e: seq<nat>, d: seq<nat>, i: seq<nat>, m: seq<nat>)
    requires multiset(k) + multiset(g) == multiset(b)
    requires multiset(b) + multiset(e) + multiset(d) == multiset(i)
    ensures multiset(k + m) + multiset(e + g) + multiset(d) == multiset(i + m)
    ensures multiset(e + g + k) + multiset(d + m) == multiset(i + m)
  {
  }

  /** The bursts that stayed and ended are those of `d`, and the new ones are numbered from `d.nextId` on. */
  ghost predicate Accounts(d: Detector, kept: seq<Burst>, gone: seq<Burst>, made: seq<Burst>) {
    && multiset(Ids(kept)) + multiset(Ids(gone)) == multiset(Ids(d.bursts))
    && forall k :: 0 <= k < |made| ==> made[k].id == d.nextId + 10 * k
  }

  lemma PlainConserves(d: Detector, d': Detector, kept: seq<Burst>, gone: seq<Burst>, made: seq<Burst>, n: nat)
    requires ConservedWith(d, n) && Accounts(d, kept, gone, made) && d'.nextId == d.nextId + 10 * |made|
    requires d'.bursts == kept + made && d'.ended == d.ended + gone && d'.dropped == d.dropped
    ensures ConservedWith(d', n + |made|)
  {
    hide Ids, Issued;
    IssuedGrows(n, |made|, made);
    IdsAppend(kept, made);
    IdsAppend(d.ended, gone);
    Balance(Ids(kept), Ids(gone), Ids(d.bursts), Ids(d.ended), d.dropped, Issued(n), Ids(made));
  }

  lemma SquelchConserves(d: Detector, d': Detector, kept: seq<Burst>, gone: seq<Burst>, made: seq<Burst>, n: nat, t: nat)
    requires ConservedWith(d, n) && Accounts(d, kept, gone, made) && d'.nextId == d.nextId + 10 * |made|
    requires d'.bursts == [] && d'.ended == d.ended + gone + Stopped(kept, t) && d'.dropped == d.dropped + Ids(made)
    ensures ConservedWith(d', n + |made|)
  {
    IssuedGrows(n, |made|, made);
    IdsAppend(d.ended, gone);
    IdsAppend(d.ended + gone, Stopped(kept, t));
    assert Ids(Stopped(kept, t)) == Ids(kept);
    Balance(Ids(kept), Ids(gone), Ids(d.bursts), Ids(d.ended), d.dropped, Issued(n), Ids(made));
  }

  lemma FrameAccounts(c: Config, sort: Sort, d: Detector, mag: Row)
    requires c.Valid() && Shaped(c, d) && |mag| == c.fft
    ensures Accounts(d, KeptOf(c, d, mag), GoneOf(c, d, mag), MadeOf(c, sort, d, mag))
  {
    var rel, ps := Relative(mag, d.noise.sum), PeaksOf(c, sort, d, mag);
    MadeStarts(c, KeptOf(c, d, mag), ps, |ps|, d.nextId, d.index);
    KeptOrGone(c, Touched(c, rel, d.index, d.bursts), d.index);
    assert Ids(Touched(c, rel, d.index, d.bursts)) == Ids(d.bursts);
  }

  lemma FrameConserves(c: Config, sort: Sort, d: Detector, mag: Row)
    requires c.Valid() && Shaped(c, d) && |mag| == c.fft && Earlier(c, d) && Conserved(d)
    ensures Conserved(Frame(c, sort, d, mag))
  {
    hide Frame, Squelches, ConservedWith, Accounts, KeptOf, GoneOf, MadeOf;
    var d' := Frame(c, sort, d, mag);
    var n: nat :| ConservedWith(d, n);
    FrameEnds(c, sort, d, mag);
    FrameBursts(c, sort, d, mag);
    if !d.noise.primed {
      SameConserved(d, d', n);
    } else {
      var kept, gone, made := KeptOf(c, d, mag), GoneOf(c, d, mag), MadeOf(c, sort, d, mag);
      FrameAccounts(c, sort, d, mag);
      if Squelches(c, sort, d, mag) {
        SquelchConserves(d, d', kept, gone, made, n, d.index);
      } else {
        PlainConserves(d, d', kept, gone, made, n);
      }
    }
  }

  lemma SameConserved(d: Detector, d': Detector, n: nat)
    requires ConservedWith(d, n)
    requires d'.bursts == d.bursts && d'.ended == d.ended && d'.dropped == d.dropped && d'.nextId == d.nextId
    ensures ConservedWith(d', n)
  {
  }

  // ---------- the noise floor ----------

  function ColumnSum(rows: seq<Row>, i: nat, n: nat): (x: real)
    requires n <= |rows| && forall j :: 0 <= j < |rows| ==> i < |rows[j]|
  {
    if n == 0 then 0.0 else ColumnSum(rows, i, n - 1) + rows[n - 1][i]
  }

  /** The sum is the sum of the rows in the history. */
  ghost predicate Summed(c: Config, n: Noise) {
    n.Fits(c) && forall i :: 0 <= i < c.fft ==> n.sum[i] == ColumnSum(n.history, i, c.historySize)
  }

  lemma {:induction false} ColumnUpdate(rows: seq<Row>, i: nat, n: nat, k: nat, row: Row)
    requires n <= |rows| && k < |rows| && i < |row| && forall j :: 0 <= j < |rows| ==> i < |rows[j]|
    ensures ColumnSum(rows[k := row], i, n) == ColumnSum(rows, i, n) + if k < n then row[i] - rows[k][i] else 0.0
  {
    if n > 0 { ColumnUpdate(rows, i, n - 1, k, row); }
  }

  lemma LearnSums(c: Config, n: Noise, mag: Row)
    requires Summed(c, n) && |mag| == c.fft
    ensures Summed(c, Learn(c, n, mag))
  {
    forall i | 0 <= i < c.fft
      ensures Learn(c, n, mag).sum[i] == ColumnSum(Learn(c, n, mag).history, i, c.historySize)
    {
      ColumnUpdate(n.history, i, c.historySize, n.next, mag);
    }
  }

  lemma {:induction false} ZeroColumn(rows: seq<Row>, i: nat, n: nat)
    requires n <= |rows| && forall j :: 0 <= j < |rows| ==> i < |rows[j]| && rows[j][i] == 0.0
    ensures ColumnSum(rows, i, n) == 0.0
  {
    if n > 0 { ZeroColumn(rows, i, n - 1); }
  }

  lemma QuietSums(c: Config)
    requires c.Valid()
    ensures Summed(c, Quiet(c))
  {
    forall i | 0 <= i < c.fft
      ensures Quiet(c).sum[i] == ColumnSum(Quiet(c).history, i, c.historySize)
    {
      ZeroColumn(Quiet(c).history, i, c.historySize);
    }
  }

  lemma FrameSums(c: Config, sort: Sort, d: Detector, mag: Row)
    requires c.Valid() && Shaped(c, d) && |mag| == c.fft && Summed(c, d.noise)
    ensures Summed(c, Frame(c, sort, d, mag).noise)
  {
    LearnSums(c, d.noise, mag);
    QuietSums(c);
    LearnSums(c, Quiet(c), mag);
    LearnSums(c, Learn(c, d.noise, mag), mag);
  }

  // ---------- the rest ----------

  /** Bursts are found only with a noise floor, and there are never more than allowed after a frame. */
  ghost predicate Tame(c: Config, d: Detector) {
    (!d.noise.primed ==> d.bursts == []) && !Crowded(c, |d.bursts|)
  }

  lemma FrameTame(c: Config, sort: Sort, d: Detector, mag: Row)
    requires c.Valid() && Shaped(c, d) && |mag| == c.fft && Tame(c, d)
    ensures Tame(c, Frame(c, sort, d, mag))
  {
  }

  lemma FrameShaped(c: Config, sort: Sort, d: Detector, mag: Row)
    requires c.Valid() && Shaped(c, d) && |mag| == c.fft && Sorts(sort)
    ensures Shaped(c, Frame(c, sort, d, mag))
  {
    FrameBursts(c, sort, d, mag);
    if d.noise.primed {
      var kept, made, ps := KeptOf(c, d, mag), MadeOf(c, sort, d, mag), PeaksOf(c, sort, d, mag);
      forall k | 0 <= k < |kept|
        ensures kept[k].bin < c.fft
      {
        KeptOfFrom(c, d, mag, k);
      }
      forall k | 0 <= k < |made|
        ensures made[k].bin < c.fft
      {
        MadeFrom(c, kept, ps, |ps|, d.nextId, d.index, k);
        var j :| 0 <= j < |ps| && ps[j].bin == made[k].bin;
        SortedPeaks(c, sort, Masked(Relative(mag, d.noise.sum), d.mask), ps[j]);
      }
    }
  }

  /** A primed detector has seen a whole history. */
  ghost predicate Sited(c: Config, d: Detector) {
    d.index >= c.fft * (if d.noise.primed then c.historySize else d.noise.next)
  }

  /** And then no burst starts before the first sample. */
  ghost predicate Rooted(c: Config, d: Detector) { Sited(c, d) && AllFromZero(d.bursts) && AllFromZero(d.ended) }

  ghost predicate AllFromZero(bs: seq<Burst>) { forall i :: 0 <= i < |bs| ==> bs[i].start >= 0 }

  lemma KeptFromZero(c: Config, rel: Row, bs: seq<Burst>, t: nat)
    requires AllFromZero(bs)
    ensures AllFromZero(Kept(c, Touched(c, rel, t, bs), t)) && AllFromZero(Gone(c, Touched(c, rel, t, bs), t))
  {
    hide Kept, Gone;
    var touched := Touched(c, rel, t, bs);
    var kept, gone := Kept(c, touched, t), Gone(c, touched, t);
    forall k | 0 <= k < |kept|
      ensures kept[k].start >= 0
    {
      KeptIn(c, touched, t, kept[k]);
    }
    forall k | 0 <= k < |gone|
      ensures gone[k].start >= 0
    {
      GoneFrom(c, touched, t, gone[k]);
    }
  }

  lemma FrameRooted(c: Config, sort: Sort, d: Detector, mag: Row)
    requires c.Valid() && Shaped(c, d) && |mag| == c.fft && Earlier(c, d) && Rooted(c, d) && c.pre <= c.fft * c.historySize
    ensures Rooted(c, Frame(c, sort, d, mag))
  {
    hide Frame, Squelches, Kept, Gone, Made, Touched, PeaksOf;
    FrameEnds(c, sort, d, mag);
    FrameBursts(c, sort, d, mag);
    FrameSited(c, sort, d, mag);
    if d.noise.primed {
      var ps := PeaksOf(c, sort, d, mag);
      KeptFromZero(c, Relative(mag, d.noise.sum), d.bursts, d.index);
      MadeStarts(c, KeptOf(c, d, mag), ps, |ps|, d.nextId, d.index);
    }
  }

  lemma LearnLate(c: Config, n: Noise, mag: Row, index: nat)
    requires n.Fits(c) && |mag| == c.fft && index >= c.fft * (if n.primed then c.historySize else n.next)
    ensures var n' := Learn(c, n, mag); index + c.fft >= c.fft * (if n'.primed then c.historySize else n'.next)
  {
    assert c.fft * (n.next + 1) == c.fft * n.next + c.fft;
  }

  lemma FrameSited(c: Config, sort: Sort, d: Detector, mag: Row)
    requires c.Valid() && Shaped(c, d) && |mag| == c.fft && Sited(c, d)
    ensures Sited(c, Frame(c, sort, d, mag))
  {
    LearnLate(c, d.noise, mag, d.index);
    LearnLate(c, Quiet(c), mag, d.index);
    if d.noise.primed { LearnLate(c, Learn(c, d.noise, mag), mag, d.index); }
  }
}
