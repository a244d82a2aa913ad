/** Whole runs of the detector: they depend only on the stream of samples, and keep the invariants. */
module BurstRun {
  import opened BurstSpec
  import opened BurstSelection
  import opened BurstLifetime
  import opened BurstDetection
  import opened BurstFloor

  datatype Sample = Sample(re: real, im: real)

  /** The magnitudes of one frame: window, transform and square. */
  type Spectrum = seq<Sample> -> Row

  /** A detector's fixed parts. */
  datatype Plan = Plan(c: Config, sort: Sort, spectrum: Spectrum) {
    ghost predicate Valid() {
      c.Valid() && Sorts(sort) && forall f :: |f| == c.fft ==> |spectrum(f)| == c.fft
    }
  }

  /** The frame at the detector's index. */
  ghost function Next(p: Plan, d: Detector, stream: seq<Sample>): (d': Detector)
    requires p.Valid() && Shaped(p.c, d) && d.index + p.c.fft <= |stream|
    ensures Shaped(p.c, d') && d'.index == d.index + p.c.fft
  {
    var mag := p.spectrum(stream[d.index..d.index + p.c.fft]);
    FrameShaped(p.c, p.sort, d, mag);
    Frame(p.c, p.sort, d, mag)
  }

  /** All complete frames of the stream. */
  ghost function Run(p: Plan, d: Detector, stream: seq<Sample>): (d': Detector)
    requires p.Valid() && Shaped(p.c, d)
    ensures Shaped(p.c, d')
    decreases |stream| - d.index
  {
    if d.index + p.c.fft <= |stream| then Run(p, Next(p, d, stream), stream) else d
  }

  /** More samples do not change what the first ones did. */
  lemma {:induction false} RunInSteps(p: Plan, d: Detector, a: seq<Sample>, b: seq<Sample>)
    requires p.Valid() && Shaped(p.c, d)
    ensures Run(p, Run(p, d, a), a + b) == Run(p, d, a + b)
    decreases |a| - d.index
  {
    hide Frame, Shaped, Sorts;
    if d.index + p.c.fft <= |a| {
      assert (a + b)[d.index..d.index + p.c.fft] == a[d.index..d.index + p.c.fft];
      assert Next(p, d, a + b) == Next(p, d, a);
      RunInSteps(p, Next(p, d, a), a, b);
    }
  }

  function Joined(chunks: seq<seq<Sample>>): (s: seq<Sample>) {
    if |chunks| == 0 then [] else Joined(chunks[..|chunks| - 1]) + chunks[|chunks| - 1]
  }

  /** Feeding the chunks one after the other. */
  ghost function Fed(p: Plan, chunks: seq<seq<Sample>>): (d: Detector)
    requires p.Valid()
    ensures Shaped(p.c, d)
  {
    if |chunks| == 0 then Init(p.c) else Run(p, Fed(p, chunks[..|chunks| - 1]), Joined(chunks))
  }

  /** The detector depends only on the whole stream, not on how it was cut. */
  lemma {:induction false} ChunksDoNotMatter(p: Plan, chunks: seq<seq<Sample>>)
    requires p.Valid()
    ensures Fed(p, chunks) == Run(p, Init(p.c), Joined(chunks))
  {
    if |chunks| > 0 {
      var front := chunks[..|chunks| - 1];
      ChunksDoNotMatter(p, front);
      RunInSteps(p, Init(p.c), Joined(front), chunks[|chunks| - 1]);
    }
  }

  // ---------- batches ----------

  /** `gpu_flush_batch`: the first `n` frames of the batch. */
  ghost function Flushed(p: Plan, d: Detector, batch: seq<seq<Sample>>, n: nat): (d': Detector)
    requires p.Valid() && Shaped(p.c, d) && n <= |batch| && forall i :: 0 <= i < |batch| ==> |batch[i]| == p.c.fft
    ensures Shaped(p.c, d')
  {
    if n == 0 then d
    else
      var d1, mag := Flushed(p, d, batch, n - 1), p.spectrum(batch[n - 1]);
      FrameShaped(p.c, p.sort, d1, mag);
      Frame(p.c, p.sort, d1, mag)
  }

  /** The batch path: frames from `read` on are gathered and flushed `size` at a time, and the rest at the end. */
  ghost function Batched(p: Plan, d: Detector, stream: seq<Sample>, batch: seq<seq<Sample>>, read: nat, size: nat): (d': Detector)
    requires p.Valid() && Shaped(p.c, d) && forall i :: 0 <= i < |batch| ==> |batch[i]| == p.c.fft
    ensures Shaped(p.c, d')
    decreases |stream| - read
  {
    if read + p.c.fft <= |stream| then
      var batch' := batch + [stream[read..read + p.c.fft]];
      if |batch'| >= size then Batched(p, Flushed(p, d, batch', |batch'|), stream, [], read + p.c.fft, size)
      else Batched(p, d, stream, batch', read + p.c.fft, size)
    else Flushed(p, d, batch, |batch|)
  }

  /** The frames waiting are the next ones of the stream. */
  ghost predicate Waiting(p: Plan, d: Detector, stream: seq<Sample>, batch: seq<seq<Sample>>, read: nat)
    requires p.Valid() && Shaped(p.c, d)
  {
    && (forall i :: 0 <= i < |batch| ==> |batch[i]| == p.c.fft)
    && read <= |stream| && Flushed(p, d, batch, |batch|).index == read
    && Run(p, Flushed(p, d, batch, |batch|), stream) == Run(p, d, stream)
  }

  lemma {:induction false} FlushPrefix(p: Plan, d: Detector, a: seq<seq<Sample>>, b: seq<seq<Sample>>, n: nat)
    requires p.Valid() && Shaped(p.c, d) && n <= |a| && n <= |b| && a[..n] == b[..n]
    requires (forall i :: 0 <= i < |a| ==> |a[i]| == p.c.fft) && forall i :: 0 <= i < |b| ==> |b[i]| == p.c.fft
    ensures Flushed(p, d, a, n) == Flushed(p, d, b, n)
  {
    if n > 0 {
      assert a[..n - 1] == a[..n][..n - 1] == b[..n - 1];
      assert a[n - 1] == a[..n][n - 1] == b[n - 1];
      FlushPrefix(p, d, a, b, n - 1);
    }
  }

  lemma WaitingGrows(p: Plan, d: Detector, stream: seq<Sample>, batch: seq<seq<Sample>>, read: nat)
    requires p.Valid() && Shaped(p.c, d) && Waiting(p, d, stream, batch, read) && read + p.c.fft <= |stream|
    ensures Waiting(p, d, stream, batch + [stream[read..read + p.c.fft]], read + p.c.fft)
  {
    hide Frame, Shaped, Sorts;
    var batch' := batch + [stream[read..read + p.c.fft]];
    FlushPrefix(p, d, batch', batch, |batch|);
    assert Flushed(p, d, batch', |batch'|) == Next(p, Flushed(p, d, batch, |batch|), stream);
  }

  lemma {:induction false} BatchedRuns(p: Plan, d: Detector, stream: seq<Sample>, batch: seq<seq<Sample>>, read: nat, size: nat)
    requires p.Valid() && Shaped(p.c, d) && Waiting(p, d, stream, batch, read)
    ensures Batched(p, d, stream, batch, read, size) == Run(p, d, stream)
    decreases |stream| - read
  {
    hide Frame, Shaped, Next, Sorts;
    if read + p.c.fft <= |stream| {
      var batch', read' := batch + [stream[read..read + p.c.fft]], read + p.c.fft;
      WaitingGrows(p, d, stream, batch, read);
      if |batch'| >= size {
        BatchedRuns(p, Flushed(p, d, batch', |batch'|), stream, [], read', size);
      } else {
        BatchedRuns(p, d, stream, batch', read', size);
      }
    }
  }

  /** Batches of any size compute what the frames do one at a time. */
  lemma BatchesDoNotMatter(p: Plan, d: Detector, stream: seq<Sample>, size: nat)
    requires p.Valid() && Shaped(p.c, d) && d.index <= |stream|
    ensures Batched(p, d, stream, [], d.index, size) == Run(p, d, stream)
  {
    BatchedRuns(p, d, stream, [], d.index, size);
  }

  // ---------- invariants ----------

  /** What every detector reached from the start satisfies. */
  ghost predicate Steady(c: Config, d: Detector) {
    && Shaped(c, d) && Selected(c, d) && Earlier(c, d) && Lively(c, d)
    && Conserved(d) && Summed(c, d.noise) && Tame(c, d)
  }

  /** No more samples before a burst are asked for than the noise floor has seen. */
  ghost predicate Rooting(c: Config) { c.pre <= c.fft * c.historySize }

  lemma InitSteady(c: Config)
    requires c.Valid()
    ensures Steady(c, Init(c)) && Rooted(c, Init(c))
    ensures var d := Init(c); d.bursts == [] && d.ended == [] && d.dropped == [] && d.index == 0 && d.squelch == 0 && !d.noise.primed
  {
    var d := Init(c);
    QuietSums(c);
    assert d.mask == MaskOf(c, []);
    assert Ids([]) == [] == Issued(0);
    assert ConservedWith(d, 0);
  }

  lemma FrameSteady(c: Config, sort: Sort, d: Detector, mag: Row)
    requires c.Valid() && Sorts(sort) && |mag| == c.fft && Steady(c, d)
    ensures Steady(c, Frame(c, sort, d, mag))
  {
    hide Frame, Selected, Earlier, Lively, Conserved, Summed;
    FrameShaped(c, sort, d, mag);
    FrameSelects(c, sort, d, mag);
    FrameEarlier(c, sort, d, mag);
    FrameLively(c, sort, d, mag);
    FrameConserves(c, sort, d, mag);
    FrameSums(c, sort, d, mag);
    FrameTame(c, sort, d, mag);
  }

  lemma {:induction false} RunSteady(p: Plan, d: Detector, stream: seq<Sample>)
    requires p.Valid() && Steady(p.c, d)
    ensures Steady(p.c, Run(p, d, stream))
    ensures Rooting(p.c) && Rooted(p.c, d) ==> Rooted(p.c, Run(p, d, stream))
    decreases |stream| - d.index
  {
    hide Frame, Sorts, Selected, Earlier, Lively, Conserved, Summed, Tame, Rooted;
    if d.index + p.c.fft <= |stream| {
      var mag := p.spectrum(stream[d.index..d.index + p.c.fft]);
      FrameSteady(p.c, p.sort, d, mag);
      if Rooting(p.c) && Rooted(p.c, d) { FrameRooted(p.c, p.sort, d, mag); }
      RunSteady(p, Next(p, d, stream), stream);
    }
  }

  /** A run stops less than a frame before the end of the stream. */
  lemma {:induction false} RunPlace(p: Plan, d: Detector, stream: seq<Sample>)
    requires p.Valid() && Shaped(p.c, d)
    ensures var d' := Run(p, d, stream); d'.index >= d.index && |stream| < d'.index + p.c.fft
    ensures d.index <= |stream| ==> Run(p, d, stream).index <= |stream|
    decreases |stream| - d.index
  {
    hide Frame, Shaped, Sorts;
    if d.index + p.c.fft <= |stream| { RunPlace(p, Next(p, d, stream), stream); }
  }

  /**
   Over every run, with any lengths: mask and bursts agree and bursts are apart, bursts that are not lost are limited, no
   id is lost or doubled, the noise floor is the sum of its history, and there are no bursts without it nor more than
   allowed.
   */
  lemma FedSteady(p: Plan, chunks: seq<seq<Sample>>)
    requires p.Valid()
    ensures Steady(p.c, Fed(p, chunks))
  {
    ChunksDoNotMatter(p, chunks);
    InitSteady(p.c);
    RunSteady(p, Init(p.c), Joined(chunks));
  }

  /** Over every run, when enough samples come before it, every burst starts at a sample. */
  lemma FedRooted(p: Plan, chunks: seq<seq<Sample>>)
    requires p.Valid() && Rooting(p.c)
    ensures Rooted(p.c, Fed(p, chunks))
  {
    ChunksDoNotMatter(p, chunks);
    InitSteady(p.c);
    RunSteady(p, Init(p.c), Joined(chunks));
  }

  /**
   With no more samples before a burst than after it, or than the noise floor has seen, no burst is lost: all are limited.
   */
  lemma FedLimited(p: Plan, chunks: seq<seq<Sample>>, b: Burst)
    requires p.Valid() && (Rooting(p.c) || p.c.pre <= p.c.post) && b in Fed(p, chunks).ended
    ensures b.start <= b.lastActive <= b.stop && (p.c.maxLen > 0 ==> b.stop - b.start < p.c.Span())
  {
    FedSteady(p, chunks);
    if Rooting(p.c) { FedRooted(p, chunks); }
    assert Bounded(p.c, b);
  }

  /** After every run the next frame obeys the law. */
  lemma FedFrameLaw(p: Plan, chunks: seq<seq<Sample>>, mag: Row) returns (kept: seq<Burst>, gone: seq<Burst>, made: seq<Burst>)
    requires p.Valid() && p.c.threshold >= 0.0 && |mag| == p.c.fft && Fed(p, chunks).noise.primed
    ensures var d := Fed(p, chunks); FrameIs(p.c, d, mag, Frame(p.c, p.sort, d, mag), kept, gone, made)
  {
    hide Frame, FrameIs, Sorts, Selected, Earlier, Lively, Conserved, Summed, Tame;
    FedSteady(p, chunks);
    kept, gone, made := FrameLaw(p.c, p.sort, Fed(p, chunks), mag);
  }

  lemma {:induction false} RunRemembers(p: Plan, d: Detector, stream: seq<Sample>, rows: seq<Row>) returns (rows': seq<Row>)
    requires p.Valid() && p.c.threshold >= 0.0 && Steady(p.c, d) && Remembers(p.c, d.noise, rows)
    ensures Remembers(p.c, Run(p, d, stream).noise, rows')
    decreases |stream| - d.index
  {
    hide Frame, Sorts, Selected, Earlier, Lively, Conserved, Summed, Tame, Remembers, RowsAfter, Squelches;
    rows' := rows;
    if d.index + p.c.fft <= |stream| {
      var mag := p.spectrum(stream[d.index..d.index + p.c.fft]);
      var d1 := Next(p, d, stream);
      FrameSteady(p.c, p.sort, d, mag);
      FrameRemembers(p.c, p.sort, d, mag, rows);
      rows' := RunRemembers(p, d1, stream, RowsAfter(p.c, d, mag, rows, Squelches(p.c, p.sort, d, mag), d1.bursts == []));
    }
  }

  /** Over every run the noise floor is the sum of the rows learned last. */
  lemma FedRemembers(p: Plan, chunks: seq<seq<Sample>>) returns (rows: seq<Row>)
    requires p.Valid() && p.c.threshold >= 0.0
    ensures Remembers(p.c, Fed(p, chunks).noise, rows)
  {
    ChunksDoNotMatter(p, chunks);
    InitSteady(p.c);
    NothingRemembered(p.c);
    rows := RunRemembers(p, Init(p.c), Joined(chunks), []);
  }

  /** The bursts a run ends come after those ended before, and end no earlier than it began. */
  ghost predicate EndsFrom(c: Config, a: seq<Burst>, b: seq<Burst>, t: int) {
    a <= b && forall i :: |a| <= i < |b| ==> t <= b[i].stop && b[i].start + c.pre < b[i].stop
  }

  lemma EndsFromOn(c: Config, a: seq<Burst>, b: seq<Burst>, e: seq<Burst>, t: int, u: int)
    requires EndsFrom(c, a, b, t) && EndsFrom(c, b, e, u) && t <= u
    ensures EndsFrom(c, a, e, t)
  {
  }

  lemma FrameEndsFrom(c: Config, sort: Sort, d: Detector, mag: Row)
    requires c.Valid() && Shaped(c, d) && |mag| == c.fft && Earlier(c, d)
    ensures EndsFrom(c, d.ended, Frame(c, sort, d, mag).ended, d.index)
  {
    FrameEnds(c, sort, d, mag);
    var touched := Touched(c, Relative(mag, d.noise.sum), d.index, d.bursts);
    var gone := GoneOf(c, d, mag);
    KeptBefore(c, Relative(mag, d.noise.sum), d.bursts, d.index);
    forall k | 0 <= k < |gone|
      ensures gone[k].stop == d.index && gone[k].start + c.pre < d.index
    {
      GoneFrom(c, touched, d.index, gone[k]);
    }
  }

  lemma {:induction false} RunEndsFrom(p: Plan, d: Detector, stream: seq<Sample>)
    requires p.Valid() && Steady(p.c, d)
    ensures EndsFrom(p.c, d.ended, Run(p, d, stream).ended, d.index)
    decreases |stream| - d.index
  {
    hide Frame, Sorts, Selected, Conserved, Summed, Tame, Earlier, Lively, EndsFrom;
    if d.index + p.c.fft <= |stream| {
      var mag := p.spectrum(stream[d.index..d.index + p.c.fft]);
      FrameSteady(p.c, p.sort, d, mag);
      FrameEndsFrom(p.c, p.sort, d, mag);
      var d1 := Next(p, d, stream);
      RunEndsFrom(p, d1, stream);
      EndsFromOn(p.c, d.ended, d1.ended, Run(p, d1, stream).ended, d.index, d1.index);
    } else {
      EndsFromSame(p.c, d.ended, d.index);
    }
  }

  lemma EndsFromSame(c: Config, a: seq<Burst>, t: int)
    ensures EndsFrom(c, a, a, t)
  {
  }

  lemma FrameIndex(c: Config, sort: Sort, d: Detector, mag: Row)
    requires c.Valid() && Shaped(c, d) && |mag| == c.fft
    ensures Frame(c, sort, d, mag).index == d.index + c.fft
  {
  }

  lemma {:induction false} FlushedSteady(p: Plan, d: Detector, batch: seq<seq<Sample>>, n: nat)
    requires p.Valid() && Steady(p.c, d)
    requires n <= |batch| && forall i :: 0 <= i < |batch| ==> |batch[i]| == p.c.fft
    ensures Steady(p.c, Flushed(p, d, batch, n)) && d.index <= Flushed(p, d, batch, n).index
    ensures EndsFrom(p.c, d.ended, Flushed(p, d, batch, n).ended, d.index)
  {
    hide Frame, Sorts, Selected, Earlier, Lively, Conserved, Summed, Tame, EndsFrom;
    if n > 0 {
      FlushedSteady(p, d, batch, n - 1);
      var d1, mag := Flushed(p, d, batch, n - 1), p.spectrum(batch[n - 1]);
      FrameSteady(p.c, p.sort, d1, mag);
      FrameIndex(p.c, p.sort, d1, mag);
      FrameEndsFrom(p.c, p.sort, d1, mag);
      EndsFromOn(p.c, d.ended, d1.ended, Frame(p.c, p.sort, d1, mag).ended, d.index, d1.index);
    } else {
      EndsFromSame(p.c, d.ended, d.index);
    }
  }
}
