/** The burst detector as it runs (burst_detect.c): one object whose buffers change in place. */
module BurstDetector {
  import opened BurstSpec
  import opened BurstSelection
  import opened BurstLifetime
  import opened BurstRun
  import opened BurstLoops
  import SampleRing

  /** What is handed on for a burst: the callback's data. */
  datatype Emission = Emission(burst: Burst, samples: seq<Sample>)

  class Detector {
    const plan: Plan
    const ring: SampleRing.Ring
    const mask: array<bool>
    const rel: array<real>
    const sum: array<real>
    const history: array<Row>
    var historyIndex: nat
    var primed: bool
    var bursts: seq<Burst>
    var gone: seq<Burst>
    var burstId: nat
    var sampleCount: nat
    var index: nat
    var squelch: nat
    /** Bursts handed on, and ids the squelch forgot. */
    ghost var emitted: seq<Burst>
    ghost var dropped: seq<nat>

    /** The detector as a value. */
    ghost function Abs(): (d: BurstSpec.Detector)
      reads this, mask, sum, history
    {
      BurstSpec.Detector(Noise(history[..], sum[..], historyIndex, primed), mask[..], bursts, emitted + gone, dropped,
                         burstId, index, squelch)
    }

    /** The buffers have their sizes. */
    ghost predicate Built()
      reads this, mask, sum, history
    {
      plan.Valid() && rel.Length == plan.c.fft && rel != sum && mask.Length == plan.c.fft && Abs().noise.Fits(plan.c)
    }

    ghost predicate Formed()
      reads this, mask, sum, history
    {
      Built() && Shaped(plan.c, Abs())
    }

    /** `burst_detector_create` */
    constructor (plan: Plan, ringSize: nat)
      requires plan.Valid() && ringSize > 0
      ensures Formed() && Abs() == Init(plan.c) && this.plan == plan && gone == [] && emitted == []
      ensures ring.Valid() && ring.stream == [] && ring.cells.Length == ringSize && sampleCount == 0
      ensures fresh(ring) && fresh(ring.cells) && fresh(mask) && fresh(rel) && fresh(sum) && fresh(history)
    {
      var c := plan.c;
      this.plan := plan;
      ring := new SampleRing.Ring(ringSize, Sample(0.0, 0.0));
      mask := new bool[c.fft](_ => true);
      rel := new real[c.fft](_ => 0.0);
      sum := new real[c.fft](_ => 0.0);
      var zeros := Zeros(c.fft);
      history := new Row[c.historySize](_ => zeros);
      historyIndex, primed, bursts, gone, burstId, sampleCount, index, squelch := 0, false, [], [], 0, 0, 0, 0;
      emitted, dropped := [], [];
      new;
      assert history[..] == Quiet(plan.c).history;
      assert sum[..] == Quiet(plan.c).sum;
      assert mask[..] == Init(plan.c).mask;
    }

    /** `update_filters_post` */
    method UpdateFiltersPost(mag: Row, force: bool)
      requires Built() && |mag| == plan.c.fft
      modifies `historyIndex, `primed, sum, history
      ensures Built()
      ensures Abs() == if old(bursts) == [] || force then old(Abs()).(noise := Learn(plan.c, old(Abs()).noise, mag)) else old(Abs())
    {
      if |bursts| == 0 || force {
        ghost var n := Abs().noise;
        BaselineUpdate(sum, history[historyIndex], mag);
        history[historyIndex] := mag;
        historyIndex := historyIndex + 1;
        if historyIndex == plan.c.historySize {
          primed := true;
          historyIndex := 0;
        }
        assert sum[..] == Learn(plan.c, n, mag).sum;
        assert history[..] == Learn(plan.c, n, mag).history;
      }
    }

    /** The squelch check of `create_new_bursts`. */
    method SettleSquelch()
      requires Built()
      modifies `bursts, `gone, `squelch, `historyIndex, `primed, `dropped, mask, sum, history
      ensures Built() && Abs() == Settle(plan.c, old(Abs()))
    {
      hide MaskOf, Older, Younger, Stopped, Quiet, Ids;
      ghost var d := Abs();
      var c := plan.c;
      if c.maxBursts > 0 && |bursts| > c.maxBursts {
        bursts, gone := MoveOlder(bursts, gone, index - c.pre, index);
        dropped := dropped + Ids(bursts);
        bursts := [];
        UpdateBurstMask(c, mask, []);
        squelch := squelch + 3;
        if squelch >= 10 {
          Reset();
          squelch := 0;
        }
        assert emitted + gone == d.ended + Stopped(Older(d.bursts, d.index - c.pre), d.index);
      } else if squelch > 0 {
        squelch := squelch - 1;
      }
    }

    /** The noise estimate starts again. */
    method Reset()
      requires sum.Length == plan.c.fft && history.Length == plan.c.historySize > 0
      modifies `historyIndex, `primed, sum, history
      ensures Abs().noise == Quiet(plan.c)
    {
      historyIndex, primed := 0, false;
      var zeros := Zeros(plan.c.fft);
      forall j | 0 <= j < history.Length { history[j] := zeros; }
      forall i | 0 <= i < sum.Length { sum[i] := 0.0; }
      assert history[..] == Quiet(plan.c).history;
      assert sum[..] == Quiet(plan.c).sum;
    }

    /** The steps of a frame up to the new bursts. */
    method DetectPeaks(mag: Row) returns (ps: seq<Peak>)
      requires Formed() && |mag| == plan.c.fft
      modifies `bursts, rel
      ensures ps == PeaksOf(plan.c, plan.sort, old(Abs()), mag)
      ensures Abs() == old(Abs()).(bursts := Touched(plan.c, Relative(mag, old(Abs()).noise.sum), index, old(bursts)))
    {
      RelativeMag(mag, sum, rel);
      bursts := UpdateBursts(plan.c, rel, index, bursts);
      RemovePeaksAroundBursts(rel, mask);
      ps := ExtractPeaks(plan.c, rel);
      ps := plan.sort(ps);
    }

    /** `delete_gone_bursts` */
    method DeleteGone(mag: Row)
      requires Built() && |mag| == plan.c.fft
      modifies `bursts, `gone, `historyIndex, `primed, sum, history
      ensures Built()
      ensures Abs() == Delete(plan.c, old(Abs()), mag)
    {
      ghost var d := Abs();
      var updateNoise;
      bursts, gone, updateNoise := DeleteGoneBursts(plan.c, bursts, gone, index);
      assert emitted + gone == d.ended + Gone(plan.c, d.bursts, index);
      if updateNoise {
        UpdateFiltersPost(mag, true);
      }
    }

    /** `update_burst_mask` and `create_new_bursts`. */
    method CreateBursts(ps: seq<Peak>)
      requires Built() && forall i :: 0 <= i < |ps| ==> ps[i].bin < plan.c.fft
      modifies `bursts, `gone, `burstId, `squelch, `historyIndex, `primed, `dropped, mask, sum, history
      ensures Built()
      ensures Abs() == Create(plan.c, old(Abs()), ps)
    {
      UpdateBurstMask(plan.c, mask, bursts);
      bursts, burstId := CreateNewBursts(plan.c, mask, bursts, ps, burstId, index);
      SettleSquelch();
    }

    /** `update_bursts` to `create_new_bursts`. */
    method DetectFrame(mag: Row)
      requires Formed() && |mag| == plan.c.fft
      modifies `bursts, `gone, `burstId, `squelch, `historyIndex, `primed, `dropped, rel, mask, sum, history
      ensures Built() && Abs() == Detect(plan.c, plan.sort, old(Abs()), mag)
    {
      PeaksInRange(plan.c, plan.sort, Abs(), mag);
      hide Relative, Peaks, Masked, Touched, Delete, Create;
      var ps := DetectPeaks(mag);
      DeleteGone(mag);
      CreateBursts(ps);
    }

    /** `process_magnitude_frame`, and the step to the next frame. */
    method ProcessMagnitudeFrame(mag: Row)
      requires Formed() && |mag| == plan.c.fft
      modifies `bursts, `gone, `burstId, `squelch, `historyIndex, `primed, `dropped, `index, rel, mask, sum, history
      ensures Formed() && Abs() == Frame(plan.c, plan.sort, old(Abs()), mag)
    {
      FrameShaped(plan.c, plan.sort, Abs(), mag);
      if primed {
        DetectFrame(mag);
      }
      UpdateFiltersPost(mag, false);
      index := index + plan.c.fft;
    }

    /** The stream is in the ring as far as the frames still to come need it. */
    ghost predicate Buffered()
      reads this, ring, ring.cells
    {
      ring.Valid() && sampleCount == |ring.stream| && SampleRing.Oldest(|ring.stream|, ring.cells.Length) <= index <= sampleCount
    }

    /** The frame loop of `burst_detector_feed`, one frame at a time. */
    method ProcessFrames()
      requires Formed() && Buffered() && plan.c.fft <= ring.cells.Length
      modifies `bursts, `gone, `burstId, `squelch, `historyIndex, `primed, `dropped, `index, rel, mask, sum, history
      ensures Formed() && Buffered() && Abs() == Run(plan, old(Abs()), ring.stream)
    {
      hide Frame, Shaped, Sorts;
      ghost var end := Run(plan, Abs(), ring.stream);
      while index + plan.c.fft <= sampleCount
        invariant Formed() && Buffered() && Run(plan, Abs(), ring.stream) == end
        decreases sampleCount - index
      {
        var frame := ring.Copy(index, plan.c.fft);
        assert frame == ring.stream[index..index + plan.c.fft];
        ghost var d := Abs();
        ProcessMagnitudeFrame(plan.spectrum(frame));
        assert Abs() == Next(plan, d, ring.stream);
      }
    }

    /** `emit_gone_bursts` */
    method EmitGoneBursts() returns (out: seq<Emission>)
      requires ring.Valid() && forall i :: 0 <= i < |gone| ==> Extractable(gone[i], plan.c.pre, ring.start, ring.cells.Length)
      modifies `gone, `emitted
      ensures gone == [] && emitted == old(emitted + gone) && Abs() == old(Abs())
      ensures Sent(old(gone), out, plan.c.pre, ring.start, ring.stream, ring.cells.Length)
    {
      out := [];
      assert gone[..0] == [];
      for i := 0 to |gone|
        invariant gone == old(gone) && emitted == old(emitted)
        invariant Sent(gone[..i], out, plan.c.pre, ring.start, ring.stream, ring.cells.Length)
      {
        var ab := gone[i];
        var samples := ring.Extract(ab.start, ab.stop + plan.c.pre);
        ghost var was := out;
        if |samples| != 0 {
          out := out + [Emission(ab, samples)];
        }
        assert gone[..i + 1] == gone[..i] + [ab];
        SentOne(gone[..i], was, ab, samples, plan.c.pre, ring.start, ring.stream, ring.cells.Length);
      }
      assert gone[..|gone|] == gone;
      emitted, gone := emitted + gone, [];
      assert emitted + gone == old(emitted + gone);
    }

    /** What holds between feeds. */
    ghost predicate Ready()
      reads this, ring, ring.cells, mask, sum, history
    {
      && Formed() && gone == [] && ring.Valid() && sampleCount == |ring.stream| && index <= sampleCount < index + plan.c.fft
      && Steady(plan.c, Abs())
    }

    /** The bursts that feeding `samples` ends can be taken from the ring. */
    ghost predicate Fits(samples: seq<Sample>)
      reads this, ring, ring.cells, mask, sum, history
      requires Formed()
    {
      EndsExtractable(plan, Abs(), ring.stream + samples, SampleRing.Lag(sampleCount, ring.cells.Length, ring.start), ring.cells.Length)
    }

    /** `burst_detector_feed`, one frame at a time. */
    method Feed(samples: seq<Sample>) returns (out: seq<Emission>)
      requires Ready() && |samples| + plan.c.fft <= ring.cells.Length && Fits(samples)
      modifies this, ring, ring.cells, rel, mask, sum, history
      ensures Ready()
      ensures ring.stream == old(ring.stream) + samples && Abs() == Run(plan, old(Abs()), ring.stream)
      ensures old(emitted) <= emitted
      ensures Sent(emitted[|old(emitted)|..], out, plan.c.pre, ring.start, ring.stream, ring.cells.Length)
      ensures Roomy(plan.c, |samples|, ring.cells.Length) ==>
        Handed(Begun(emitted[|old(emitted)|..]), out, plan.c.pre, ring.stream)
    {
      hide Run, Steady, Sent, Handed;
      ghost var d := Abs();
      ring.Write(samples, sampleCount);
      sampleCount := sampleCount + |samples|;
      ProcessFrames();
      RunSteady(plan, d, ring.stream);
      RunPlace(plan, d, ring.stream);
      RunEndsFrom(plan, d, ring.stream);
      assert d.ended == emitted;
      GoneExtract(plan, d, ring.stream, gone, ring.start, ring.cells.Length);
      out := EmitGoneBursts();
      assert emitted[|old(emitted)|..] == Abs().ended[|d.ended|..];
      if Roomy(plan.c, |samples|, ring.cells.Length) {
        SteadyLively(plan.c, Abs());
        AllHanded(plan.c, d, Abs(), |samples|, out, ring.start, ring.stream, ring.cells.Length);
      }
    }

    /** `gpu_flush_batch`, when the transform succeeds. */
    method FlushBatch(batch: seq<seq<Sample>>)
      requires Formed() && forall i :: 0 <= i < |batch| ==> |batch[i]| == plan.c.fft
      modifies `bursts, `gone, `burstId, `squelch, `historyIndex, `primed, `dropped, `index, rel, mask, sum, history
      ensures Formed() && Abs() == Flushed(plan, old(Abs()), batch, |batch|)
    {
      hide Frame, Shaped, Sorts;
      for i := 0 to |batch|
        invariant Formed() && Abs() == Flushed(plan, old(Abs()), batch, i)
      {
        ProcessMagnitudeFrame(plan.spectrum(batch[i]));
      }
    }

    /** The frame loop of `burst_detector_feed`, in batches of `size` frames; ended bursts are handed on after each. */
    method ProcessBatches(size: nat) returns (out: seq<Emission>)
      requires Formed() && Buffered() && plan.c.fft <= ring.cells.Length && gone == [] && Steady(plan.c, Abs())
      requires EndsExtractable(plan, Abs(), ring.stream, ring.start, ring.cells.Length)
      modifies `bursts, `gone, `burstId, `squelch, `historyIndex, `primed, `dropped, `index, `emitted, rel, mask, sum, history
      ensures Formed() && gone == [] && Abs() == Run(plan, old(Abs()), ring.stream) && old(emitted) <= emitted
      ensures Sent(emitted[|old(emitted)|..], out, plan.c.pre, ring.start, ring.stream, ring.cells.Length)
    {
      hide Frame, Shaped, Sorts, Run, Flushed, Steady, Sent, Waiting;
      var readIdx, batch := index, [];
      out := [];
      NothingWaits(plan, Abs(), ring.stream);
      assert emitted[|old(emitted)|..] == [];
      NothingSent(plan.c.pre, ring.start, ring.stream, ring.cells.Length);
      while readIdx + plan.c.fft <= sampleCount
        invariant Formed() && gone == [] && old(emitted) <= emitted && Steady(plan.c, Abs())
        invariant SampleRing.Oldest(|ring.stream|, ring.cells.Length) <= readIdx
        invariant Waiting(plan, Abs(), ring.stream, batch, readIdx)
        invariant Run(plan, Abs(), ring.stream) == Run(plan, old(Abs()), ring.stream)
        invariant EndsExtractable(plan, Abs(), ring.stream, ring.start, ring.cells.Length)
        invariant Sent(emitted[|old(emitted)|..], out, plan.c.pre, ring.start, ring.stream, ring.cells.Length)
        decreases sampleCount - readIdx
      {
        var frame := ring.Copy(readIdx, plan.c.fft);
        assert frame == ring.stream[readIdx..readIdx + plan.c.fft];
        WaitingGrows(plan, Abs(), ring.stream, batch, readIdx);
        batch := batch + [frame];
        readIdx := readIdx + plan.c.fft;
        if |batch| >= size {
          out := FlushAndEmit(batch, readIdx, out, old(emitted));
          batch := [];
        }
      }
      out := FlushAndEmit(batch, readIdx, out, old(emitted));
      RunDone(plan, Abs(), ring.stream, readIdx);
    }

    /** `burst_detector_feed` in batches. */
    method FeedBatched(samples: seq<Sample>, size: nat) returns (out: seq<Emission>)
      requires Ready() && |samples| + plan.c.fft <= ring.cells.Length && Fits(samples)
      modifies this, ring, ring.cells, rel, mask, sum, history
      ensures Ready()
      ensures ring.stream == old(ring.stream) + samples && Abs() == Run(plan, old(Abs()), ring.stream)
      ensures old(emitted) <= emitted
      ensures Sent(emitted[|old(emitted)|..], out, plan.c.pre, ring.start, ring.stream, ring.cells.Length)
      ensures Roomy(plan.c, |samples|, ring.cells.Length) ==>
        Handed(Begun(emitted[|old(emitted)|..]), out, plan.c.pre, ring.stream)
    {
      hide Run, Steady, Sent, Handed;
      ghost var d := Abs();
      ring.Write(samples, sampleCount);
      sampleCount := sampleCount + |samples|;
      out := ProcessBatches(size);
      RunSteady(plan, d, ring.stream);
      RunPlace(plan, d, ring.stream);
      RunEndsFrom(plan, d, ring.stream);
      assert emitted[|old(emitted)|..] == Abs().ended[|d.ended|..];
      if Roomy(plan.c, |samples|, ring.cells.Length) {
        SteadyLively(plan.c, Abs());
        AllHanded(plan.c, d, Abs(), |samples|, out, ring.start, ring.stream, ring.cells.Length);
      }
    }

    /** A flush, and the bursts it ended handed on. */
    method FlushAndEmit(batch: seq<seq<Sample>>, ghost read: nat, sofar: seq<Emission>, ghost before: seq<Burst>)
        returns (out: seq<Emission>)
      requires Formed() && ring.Valid() && gone == [] && before <= emitted && Steady(plan.c, Abs())
      requires Waiting(plan, Abs(), ring.stream, batch, read)
      requires EndsExtractable(plan, Abs(), ring.stream, ring.start, ring.cells.Length)
      requires Sent(emitted[|before|..], sofar, plan.c.pre, ring.start, ring.stream, ring.cells.Length)
      modifies `bursts, `gone, `burstId, `squelch, `historyIndex, `primed, `dropped, `index, `emitted, rel, mask, sum, history
      ensures Formed() && gone == [] && before <= emitted && Steady(plan.c, Abs()) && index == read
      ensures Waiting(plan, Abs(), ring.stream, [], read)
      ensures Run(plan, Abs(), ring.stream) == Run(plan, old(Abs()), ring.stream)
      ensures EndsExtractable(plan, Abs(), ring.stream, ring.start, ring.cells.Length)
      ensures Sent(emitted[|before|..], out, plan.c.pre, ring.start, ring.stream, ring.cells.Length)
    {
      hide Frame, Shaped, Sorts, Run, Flushed, Steady, Sent, Waiting, EndsExtractable;
      ghost var d, was := Abs(), emitted;
      WaitingMeans(plan, d, ring.stream, batch, read);
      FlushBatch(batch);
      FlushedSteady(plan, d, batch, |batch|);
      assert d.ended == emitted;
      FlushExtracts(plan, d, Abs(), ring.stream, gone, ring.start, ring.cells.Length);
      NothingWaits(plan, Abs(), ring.stream);
      var more := EmitGoneBursts();
      SentMore(was[|before|..], sofar, emitted[|was|..], more, plan.c.pre, ring.start, ring.stream, ring.cells.Length);
      out := sofar + more;
      assert emitted[|before|..] == was[|before|..] + emitted[|was|..];
    }
  }

  // ---------- what is handed on ----------

  /** The ring can serve the request for a burst. */
  ghost predicate Extractable(b: Burst, pre: nat, start: nat, size: nat) {
    0 <= b.stop && (b.start >= 0 ==> b.stop + pre - SampleRing.Clamped(b.start, start) <= size)
  }

  /** The ring can serve the requests for all bursts that end. */
  ghost predicate EndsExtractable(p: Plan, d: BurstSpec.Detector, stream: seq<Sample>, start: nat, size: nat)
    requires p.Valid() && Shaped(p.c, d)
  {
    var ended := Run(p, d, stream).ended;
    forall i :: |d.ended| <= i < |ended| ==> Extractable(ended[i], p.c.pre, start, size)
  }

  /** Some samples of the burst are not before the start of the ring. */
  ghost predicate Gives(b: Burst, pre: nat, start: nat) {
    b.start >= 0 && SampleRing.Clamped(b.start, start) < b.stop + pre
  }

  /** `e` is the burst with its samples from the start of the ring on; those still stored are the stream's. */
  ghost predicate Carries(e: Emission, b: Burst, pre: nat, start: nat, stream: seq<Sample>, size: nat)
    requires b.start >= 0
  {
    var first := SampleRing.Clamped(b.start, start);
    && e.burst == b && |e.samples| == b.stop + pre - first
    && SampleRing.Taken(e.samples, stream, first, SampleRing.Oldest(|stream|, size))
  }

  /** The bursts that give samples are handed on, in order. */
  ghost predicate Sent(bs: seq<Burst>, out: seq<Emission>, pre: nat, start: nat, stream: seq<Sample>, size: nat) {
    if |bs| == 0 then out == []
    else
      var front, b := bs[..|bs| - 1], bs[|bs| - 1];
      if Gives(b, pre, start)
      then |out| > 0 && Carries(out[|out| - 1], b, pre, start, stream, size) && Sent(front, out[..|out| - 1], pre, start, stream, size)
      else Sent(front, out, pre, start, stream, size)
  }

  lemma NothingSent(pre: nat, start: nat, stream: seq<Sample>, size: nat)
    ensures Sent([], [], pre, start, stream, size)
  {
  }

  lemma SentOne(bs: seq<Burst>, out: seq<Emission>, b: Burst, samples: seq<Sample>, pre: nat, start: nat, stream: seq<Sample>, size: nat)
    requires Sent(bs, out, pre, start, stream, size) && (b.start < 0 ==> samples == [])
    requires b.start >= 0 ==>
      var first := SampleRing.Clamped(b.start, start);
      && |samples| == (if b.stop + pre <= first then 0 else b.stop + pre - first)
      && SampleRing.Taken(samples, stream, first, SampleRing.Oldest(|stream|, size))
    ensures Sent(bs + [b], if samples == [] then out else out + [Emission(b, samples)], pre, start, stream, size)
  {
    assert (bs + [b])[..|bs + [b]| - 1] == bs;
    if samples != [] { assert (out + [Emission(b, samples)])[..|out|] == out; }
  }

  lemma {:induction false} SentMore(bs: seq<Burst>, out: seq<Emission>, bs': seq<Burst>, out': seq<Emission>, pre: nat, start: nat,
                                    stream: seq<Sample>, size: nat)
    requires Sent(bs, out, pre, start, stream, size) && Sent(bs', out', pre, start, stream, size)
    ensures Sent(bs + bs', out + out', pre, start, stream, size)
  {
    if |bs'| == 0 {
      assert bs + bs' == bs && out + out' == out;
    } else {
      var front, b := bs'[..|bs'| - 1], bs'[|bs'| - 1];
      assert (bs + bs')[..|bs + bs'| - 1] == bs + front;
      if Gives(b, pre, start) {
        assert (out + out')[..|out + out'| - 1] == out + out'[..|out'| - 1];
        SentMore(bs, out, front, out'[..|out'| - 1], pre, start, stream, size);
      } else {
        SentMore(bs, out, front, out', pre, start, stream, size);
      }
    }
  }

  lemma GoneExtract(p: Plan, d: BurstSpec.Detector, stream: seq<Sample>, gone: seq<Burst>, start: nat, size: nat)
    requires p.Valid() && Shaped(p.c, d) && EndsExtractable(p, d, stream, start, size) && Run(p, d, stream).ended == d.ended + gone
    ensures forall i :: 0 <= i < |gone| ==> Extractable(gone[i], p.c.pre, start, size)
  {
    var ended := Run(p, d, stream).ended;
    forall i | 0 <= i < |gone|
      ensures Extractable(gone[i], p.c.pre, start, size)
    {
      assert ended[|d.ended| + i] == gone[i];
    }
  }

  /** What a flush ends is part of what the run ends. */
  lemma FlushExtracts(p: Plan, d: BurstSpec.Detector, d1: BurstSpec.Detector, stream: seq<Sample>, gone: seq<Burst>, start: nat, size: nat)
    requires p.Valid() && Shaped(p.c, d) && EndsExtractable(p, d, stream, start, size)
    requires Steady(p.c, d1) && d1.ended == d.ended + gone && Run(p, d1, stream) == Run(p, d, stream)
    ensures forall i :: 0 <= i < |gone| ==> Extractable(gone[i], p.c.pre, start, size)
    ensures EndsExtractable(p, d1, stream, start, size)
  {
    hide Run, Extractable, Shaped, Selected, Earlier, Conserved, Summed, Tame, Sorts;
    RunEndsFrom(p, d1, stream);
    var ended := Run(p, d, stream).ended;
    assert d1.ended <= ended;
    forall i | 0 <= i < |gone|
      ensures Extractable(gone[i], p.c.pre, start, size)
    {
      assert ended[|d.ended| + i] == d1.ended[|d.ended| + i] == gone[i];
    }
  }

  lemma NothingWaits(p: Plan, d: BurstSpec.Detector, stream: seq<Sample>)
    requires p.Valid() && Shaped(p.c, d) && d.index <= |stream|
    ensures Waiting(p, d, stream, [], d.index)
  {
  }

  lemma WaitingMeans(p: Plan, d: BurstSpec.Detector, stream: seq<Sample>, batch: seq<seq<Sample>>, read: nat)
    requires p.Valid() && Shaped(p.c, d) && Waiting(p, d, stream, batch, read)
    ensures forall i :: 0 <= i < |batch| ==> |batch[i]| == p.c.fft
    ensures read <= |stream| && Flushed(p, d, batch, |batch|).index == read
    ensures Run(p, Flushed(p, d, batch, |batch|), stream) == Run(p, d, stream)
  {
  }

  lemma RunDone(p: Plan, d: BurstSpec.Detector, stream: seq<Sample>, read: nat)
    requires p.Valid() && Shaped(p.c, d) && d.index == read && read + p.c.fft > |stream|
    ensures Run(p, d, stream) == d
  {
  }

  // ---------- when the samples are all there ----------

  /** The bursts that start at a sample; the others give no samples. */
  function Begun(bs: seq<Burst>): (r: seq<Burst>) {
    if |bs| == 0 then []
    else
      var b, rest := bs[|bs| - 1], Begun(bs[..|bs| - 1]);
      if b.start >= 0 then rest + [b] else rest
  }

  lemma {:induction false} AllBegun(bs: seq<Burst>)
    requires AllFromZero(bs)
    ensures Begun(bs) == bs
  {
    if |bs| > 0 { AllBegun(bs[..|bs| - 1]); }
  }

  /** All samples of the bursts that start at one are still in the ring. */
  ghost predicate AllStored(bs: seq<Burst>, start: nat, oldest: nat) {
    forall i :: 0 <= i < |bs| && bs[i].start >= 0 ==> start <= bs[i].start < bs[i].stop && oldest <= bs[i].start
  }

  /** The samples handed on are those of the stream, from the start of the burst on. */
  ghost predicate Faithful(e: Emission, pre: nat, stream: seq<Sample>) {
    && 0 <= e.burst.start && |e.samples| == e.burst.stop + pre - e.burst.start
    && forall j :: 0 <= j < |e.samples| && e.burst.start + j < |stream| ==> e.samples[j] == stream[e.burst.start + j]
  }

  /** Every burst is handed on, in order, with its samples. */
  ghost predicate Handed(bs: seq<Burst>, out: seq<Emission>, pre: nat, stream: seq<Sample>) {
    |out| == |bs| && forall i :: 0 <= i < |bs| ==> out[i].burst == bs[i] && Faithful(out[i], pre, stream)
  }

  lemma {:induction false} SentHanded(bs: seq<Burst>, out: seq<Emission>, pre: nat, start: nat, stream: seq<Sample>, size: nat)
    requires Sent(bs, out, pre, start, stream, size) && AllStored(bs, start, SampleRing.Oldest(|stream|, size))
    ensures Handed(Begun(bs), out, pre, stream)
  {
    if |bs| > 0 {
      var front, b := bs[..|bs| - 1], bs[|bs| - 1];
      if b.start >= 0 {
        assert start <= b.start < b.stop;
        SentHanded(front, out[..|out| - 1], pre, start, stream, size);
      } else {
        SentHanded(front, out, pre, start, stream, size);
      }
    }
  }

  lemma SteadyLively(c: Config, d: BurstSpec.Detector)
    requires Steady(c, d)
    ensures Lively(c, d)
  {
  }

  /** Bursts have a limit, and the ring has room for the longest, a feed of `n` samples and a frame. */
  ghost predicate Roomy(c: Config, n: nat, size: nat) { c.maxLen > 0 && c.Span() + c.fft + n <= size }

  lemma AllHanded(c: Config, d: BurstSpec.Detector, d': BurstSpec.Detector, n: nat, out: seq<Emission>, start: nat,
                  stream: seq<Sample>, size: nat)
    requires Roomy(c, n, size) && Lively(c, d') && EndsFrom(c, d.ended, d'.ended, d.index)
    requires start <= SampleRing.Oldest(|stream|, size) && |stream| < d.index + c.fft + n
    requires Sent(d'.ended[|d.ended|..], out, c.pre, start, stream, size)
    ensures Handed(Begun(d'.ended[|d.ended|..]), out, c.pre, stream)
  {
    var bs := d'.ended[|d.ended|..];
    forall i | 0 <= i < |bs| && bs[i].start >= 0
      ensures start <= bs[i].start < bs[i].stop && SampleRing.Oldest(|stream|, size) <= bs[i].start
    {
      assert bs[i] == d'.ended[|d.ended| + i];
      assert Bounded(c, bs[i]);
    }
    SentHanded(bs, out, c.pre, start, stream, size);
  }

  /** The bursts can be taken from a ring with room for the longest. */
  lemma RoomExtracts(p: Plan, d: BurstSpec.Detector, stream: seq<Sample>, start: nat, size: nat)
    requires p.Valid() && Steady(p.c, d) && p.c.maxLen > 0 && p.c.Span() + p.c.pre <= size
    ensures EndsExtractable(p, d, stream, start, size)
  {
    RunSteady(p, d, stream);
    RunEndsFrom(p, d, stream);
    var ended := Run(p, d, stream).ended;
    forall i | |d.ended| <= i < |ended|
      ensures Extractable(ended[i], p.c.pre, start, size)
    {
      assert Bounded(p.c, ended[i]);
    }
  }

  lemma PeaksInRange(c: Config, sort: Sort, d: BurstSpec.Detector, mag: Row)
    requires c.Valid() && Shaped(c, d) && |mag| == c.fft && Sorts(sort)
    ensures var ps := PeaksOf(c, sort, d, mag); forall i :: 0 <= i < |ps| ==> ps[i].bin < c.fft
  {
    var ps := PeaksOf(c, sort, d, mag);
    forall i | 0 <= i < |ps|
      ensures ps[i].bin < c.fft
    {
      SortedPeaks(c, sort, Masked(Relative(mag, d.noise.sum), d.mask), ps[i]);
    }
  }
}
