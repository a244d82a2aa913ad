/**
 The burst detector (burst_detect.c) as a value and what one frame of magnitudes does to it. Magnitudes are
 real numbers; how ties are sorted is the choice of `sort`.
 */
module BurstSpec {

  datatype Config = Config(
    fft: nat,
    pre: nat,
    post: nat,
    width: nat,
    maxBursts: nat,
    maxLen: nat,
    threshold: real,
    historySize: nat
  ) {
    predicate Valid() { fft > 0 && historySize > 0 }

    /**
     What the length of a burst stays below where there is a limit. Unless the samples before a burst are more than those
     after it and the longest together, it is `max_burst_len + burst_post_len + fft_size`.
     */
    function Span(): (n: nat) { (if pre < maxLen + post then maxLen + post else pre + 1) + fft }

    function Half(): (h: nat) { width / 2 }
  }

  datatype Burst = Burst(id: nat, start: int, stop: int, lastActive: int, bin: nat)

  datatype Peak = Peak(bin: nat, level: real)

  type Row = seq<real>

  /** The noise floor: a circular history of rows, their sum, and where the next row goes. */
  datatype Noise = Noise(history: seq<Row>, sum: Row, next: nat, primed: bool) {
    predicate Fits(c: Config) {
      && |history| == c.historySize && |sum| == c.fft && next < c.historySize
      && forall j :: 0 <= j < |history| ==> |history[j]| == c.fft
    }
  }

  /**
   `ended` and `dropped` keep all bursts that ended and the ids of those squelched, which the program hands on
   or forgets.
   */
  datatype Detector = Detector(
    noise: Noise,
    mask: seq<bool>,
    bursts: seq<Burst>,
    ended: seq<Burst>,
    dropped: seq<nat>,
    nextId: nat,
    index: nat,
    squelch: nat
  )

  predicate Shaped(c: Config, d: Detector) {
    d.noise.Fits(c) && |d.mask| == c.fft && forall i :: 0 <= i < |d.bursts| ==> d.bursts[i].bin < c.fft
  }

  function Zeros(n: nat): (r: Row)
    ensures |r| == n
  {
    seq(n, i => 0.0)
  }

  function Quiet(c: Config): (n: Noise)
    requires c.historySize > 0
    ensures n.Fits(c)
  {
    Noise(seq(c.historySize, j => Zeros(c.fft)), Zeros(c.fft), 0, false)
  }

  /** `burst_detector_create` */
  function Init(c: Config): (d: Detector)
    requires c.Valid()
    ensures Shaped(c, d)
  {
    Detector(Quiet(c), seq(c.fft, i => true), [], [], [], 0, 0, 0)
  }

  // ---------- the noise floor ----------

  /** `simd_relative_mag` */
  function Relative(mag: Row, sum: Row): (r: Row)
    requires |mag| == |sum|
    ensures |r| == |mag|
  {
    seq(|mag|, i requires 0 <= i < |mag| => if sum[i] > 0.0 then mag[i] / sum[i] else 0.0)
  }

  /** `update_filters_post` when it updates. */
  function Learn(c: Config, n: Noise, mag: Row): (n': Noise)
    requires n.Fits(c) && |mag| == c.fft
    ensures n'.Fits(c)
  {
    var row := n.history[n.next];
    var sum := seq(c.fft, i requires 0 <= i < c.fft => n.sum[i] - row[i] + mag[i]);
    var full := n.next + 1 == c.historySize;
    Noise(n.history[n.next := mag], sum, if full then 0 else n.next + 1, n.primed || full)
  }

  // ---------- active bursts ----------

  /** The burst's bin or a neighbour is above the threshold. */
  predicate Heard(c: Config, rel: Row, bin: nat)
    requires bin < |rel|
  {
    || (bin > 0 && rel[bin - 1] > c.threshold)
    || rel[bin] > c.threshold
    || (bin < |rel| - 1 && rel[bin + 1] > c.threshold)
  }

  /** `update_bursts` for one burst. */
  function Touch(c: Config, rel: Row, index: nat, b: Burst): (b': Burst) {
    if b.bin < |rel| && Heard(c, rel, b.bin) then b.(lastActive := index) else b
  }

  function Touched(c: Config, rel: Row, index: nat, bs: seq<Burst>): (r: seq<Burst>)
    ensures |r| == |bs|
  {
    seq(|bs|, i requires 0 <= i < |bs| => Touch(c, rel, index, bs[i]))
  }

  predicate Reaches(c: Config, bin: nat, i: int) { bin - c.Half() <= i <= bin + c.Half() }

  /** Bin `i` is within half a burst width of one of `bs`. */
  predicate Covered(c: Config, bs: seq<Burst>, i: int) {
    exists k :: 0 <= k < |bs| && Reaches(c, bs[k].bin, i)
  }

  /** The mask is open where no burst is near. */
  function MaskOf(c: Config, bs: seq<Burst>): (m: seq<bool>)
    ensures |m| == c.fft
  {
    seq(c.fft, i => !Covered(c, bs, i))
  }

  predicate TooLong(c: Config, b: Burst) { c.maxLen > 0 && b.lastActive - b.start > c.maxLen }

  /** Positions are unsigned: one that is negative here is larger than any index. */
  predicate Over(c: Config, b: Burst, index: nat) { 0 <= b.lastActive + c.post <= index || TooLong(c, b) }

  /** `delete_gone_bursts`: the bursts that stay. */
  function Kept(c: Config, bs: seq<Burst>, index: nat): (r: seq<Burst>) {
    if |bs| == 0 then []
    else
      var b, rest := bs[|bs| - 1], Kept(c, bs[..|bs| - 1], index);
      if Over(c, b, index) then rest else rest + [b]
  }

  /** Those that go, with their end. */
  function Gone(c: Config, bs: seq<Burst>, index: nat): (r: seq<Burst>) {
    if |bs| == 0 then []
    else
      var b, rest := bs[|bs| - 1], Gone(c, bs[..|bs| - 1], index);
      if Over(c, b, index) then rest + [b.(stop := index)] else rest
  }

  predicate AnyTooLong(c: Config, bs: seq<Burst>) { exists i :: 0 <= i < |bs| && TooLong(c, bs[i]) }

  // ---------- new bursts ----------

  /** `remove_peaks_around_bursts` */
  function Masked(rel: Row, mask: seq<bool>): (r: Row)
    requires |rel| == |mask|
    ensures |r| == |rel|
  {
    seq(|rel|, i requires 0 <= i < |rel| => if mask[i] then rel[i] else 0.0)
  }

  /** Bins near the edges and within three bins of the centre are not considered. */
  predicate Eligible(c: Config, i: int) {
    c.Half() <= i < c.fft - c.Half() && !(c.fft / 2 - 3 <= i <= c.fft / 2 + 3)
  }

  /** The peaks below bin `n`, in order of bins. */
  function Peaks(c: Config, rel: Row, n: nat): (ps: seq<Peak>)
    requires n <= |rel|
  {
    if n == 0 then []
    else if Eligible(c, n - 1) && rel[n - 1] > c.threshold then Peaks(c, rel, n - 1) + [Peak(n - 1, rel[n - 1])]
    else Peaks(c, rel, n - 1)
  }

  function NewBurst(c: Config, id: nat, index: nat, bin: nat): (b: Burst) {
    Burst(id, index - c.pre, 0, index - c.pre, bin)
  }

  /** The bursts made of the first `n` peaks: those not near a burst of `bs` or one made before. */
  function Made(c: Config, bs: seq<Burst>, ps: seq<Peak>, n: nat, id: nat, index: nat): (r: seq<Burst>)
    requires n <= |ps|
  {
    if n == 0 then []
    else
      var r := Made(c, bs, ps, n - 1, id, index);
      if Covered(c, bs + r, ps[n - 1].bin) then r
      else r + [NewBurst(c, id + 10 * |r|, index, ps[n - 1].bin)]
  }

  /** Bursts that did not start in this frame. */
  function Older(bs: seq<Burst>, start: int): (r: seq<Burst>) {
    if |bs| == 0 then []
    else
      var b, rest := bs[|bs| - 1], Older(bs[..|bs| - 1], start);
      if b.start != start then rest + [b] else rest
  }

  function Younger(bs: seq<Burst>, start: int): (r: seq<Burst>) {
    if |bs| == 0 then []
    else
      var b, rest := bs[|bs| - 1], Younger(bs[..|bs| - 1], start);
      if b.start != start then rest else rest + [b]
  }

  function Stopped(bs: seq<Burst>, index: nat): (r: seq<Burst>)
    ensures |r| == |bs|
  {
    seq(|bs|, i requires 0 <= i < |bs| => bs[i].(stop := index))
  }

  function Ids(bs: seq<Burst>): (r: seq<nat>)
    ensures |r| == |bs|
  {
    seq(|bs|, i requires 0 <= i < |bs| => bs[i].id)
  }

  predicate Crowded(c: Config, n: nat) { 0 < c.maxBursts < n }

  /** The squelch check at the end of `create_new_bursts`. */
  function Settle(c: Config, d: Detector): (d': Detector)
    requires c.historySize > 0
    ensures d.noise.Fits(c) ==> d'.noise.Fits(c)
  {
    if Crowded(c, |d.bursts|) then
      var start := d.index - c.pre;
      var reset := d.squelch + 3 >= 10;
      d.(bursts := [], mask := MaskOf(c, []),
         ended := d.ended + Stopped(Older(d.bursts, start), d.index),
         dropped := d.dropped + Ids(Younger(d.bursts, start)),
         squelch := if reset then 0 else d.squelch + 3,
         noise := if reset then Quiet(c) else d.noise)
    else
      d.(squelch := if d.squelch > 0 then d.squelch - 1 else 0)
  }

  type Sort = seq<Peak> -> seq<Peak>

  /** `delete_gone_bursts` */
  function Delete(c: Config, d: Detector, mag: Row): (d': Detector)
    requires d.noise.Fits(c) && |mag| == c.fft
    ensures d'.noise.Fits(c)
  {
    d.(bursts := Kept(c, d.bursts, d.index), ended := d.ended + Gone(c, d.bursts, d.index),
       noise := if AnyTooLong(c, d.bursts) then Learn(c, d.noise, mag) else d.noise)
  }

  /** `update_burst_mask` and `create_new_bursts` */
  function Create(c: Config, d: Detector, ps: seq<Peak>): (d': Detector)
    requires c.Valid() && d.noise.Fits(c)
    ensures d'.noise.Fits(c)
  {
    var made := Made(c, d.bursts, ps, |ps|, d.nextId, d.index);
    Settle(c, d.(bursts := d.bursts + made, mask := MaskOf(c, d.bursts + made), nextId := d.nextId + 10 * |made|))
  }

  /** What the frame does once the noise floor is known. */
  function Detect(c: Config, sort: Sort, d: Detector, mag: Row): (d': Detector)
    requires c.Valid() && Shaped(c, d) && |mag| == c.fft
    ensures d'.noise.Fits(c)
  {
    var rel := Relative(mag, d.noise.sum);
    var touched := d.(bursts := Touched(c, rel, d.index, d.bursts));
    Create(c, Delete(c, touched, mag), sort(Peaks(c, Masked(rel, d.mask), c.fft)))
  }

  /** One frame: `process_magnitude_frame`, and the step to the next. */
  function Frame(c: Config, sort: Sort, d: Detector, mag: Row): (d': Detector)
    requires c.Valid() && Shaped(c, d) && |mag| == c.fft
  {
    var d1 := if d.noise.primed then Detect(c, sort, d, mag) else d;
    if d1.bursts == [] then d1.(noise := Learn(c, d1.noise, mag), index := d.index + c.fft)
    else d1.(index := d.index + c.fft)
  }
}
