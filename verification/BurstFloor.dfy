/** The noise floor: the rows learned last, as many as the history holds, and which frames are learned. */
module BurstFloor {
  import opened BurstSpec
  import opened BurstSelection
  import opened BurstLifetime
  import opened BurstDetection

  predicate AreRows(c: Config, rows: seq<Row>) { forall j :: 0 <= j < |rows| ==> |rows[j]| == c.fft }

  /** The sum of bin `i` over the first `n` rows. */
  function Total(c: Config, rows: seq<Row>, i: nat, n: nat): (x: real)
    requires AreRows(c, rows) && i < c.fft && n <= |rows|
  {
    if n == 0 then 0.0 else Total(c, rows, i, n - 1) + rows[n - 1][i]
  }

  /** The sum of bin `i` over the last `historySize` rows. */
  function Recent(c: Config, rows: seq<Row>, i: nat): (x: real)
    requires AreRows(c, rows) && i < c.fft
  {
    Total(c, rows, i, |rows|) - if |rows| < c.historySize then 0.0 else Total(c, rows, i, |rows| - c.historySize)
  }

  /** After `laps` times round the history, each cell holds the last row written there. */
  ghost predicate Holds(c: Config, n: Noise, rows: seq<Row>, laps: nat)
    requires n.Fits(c)
  {
    && |rows| == laps * c.historySize + n.next && (n.primed <==> laps > 0)
    && (forall j :: 0 <= j < n.next ==> n.history[j] == rows[laps * c.historySize + j])
    && forall j :: n.next <= j < c.historySize ==>
      n.history[j] == if laps == 0 then Zeros(c.fft) else rows[(laps - 1) * c.historySize + j]
  }

  /** The noise floor has learned `rows`, in order: it keeps the last of them and their sum, and is ready once they fill the history. */
  ghost predicate Remembers(c: Config, n: Noise, rows: seq<Row>) {
    && n.Fits(c) && AreRows(c, rows)
    && (exists laps: nat :: Holds(c, n, rows, laps))
    && forall i :: 0 <= i < c.fft ==> n.sum[i] == Recent(c, rows, i)
  }

  lemma NothingRemembered(c: Config)
    requires c.Valid()
    ensures Remembers(c, Quiet(c), [])
  {
    assert Holds(c, Quiet(c), [], 0);
  }

  lemma {:induction false} TotalPrefix(c: Config, rows: seq<Row>, row: Row, i: nat, n: nat)
    requires AreRows(c, rows) && |row| == c.fft && i < c.fft && n <= |rows|
    ensures AreRows(c, rows + [row]) && Total(c, rows + [row], i, n) == Total(c, rows, i, n)
  {
    if n > 0 { TotalPrefix(c, rows, row, i, n - 1); }
  }

  /** The row that is overwritten is the oldest. */
  lemma OldestGoes(c: Config, n: Noise, rows: seq<Row>, laps: nat)
    requires c.Valid() && n.Fits(c) && AreRows(c, rows) && Holds(c, n, rows, laps)
    ensures laps == 0 ==> |rows| < c.historySize && n.history[n.next] == Zeros(c.fft)
    ensures laps > 0 ==> |rows| >= c.historySize && n.history[n.next] == rows[|rows| - c.historySize]
  {
    LapBack(laps, c.historySize);
  }

  lemma LapBack(laps: nat, h: nat)
    ensures laps > 0 ==> (laps - 1) * h + h == laps * h && laps * h >= h
  {
    if laps > 0 { assert (laps - 1) * h >= 0; }
  }

  lemma LearnHolds(c: Config, n: Noise, rows: seq<Row>, laps: nat, mag: Row)
    requires c.Valid() && n.Fits(c) && |mag| == c.fft && Holds(c, n, rows, laps)
    ensures Holds(c, Learn(c, n, mag), rows + [mag], if n.next + 1 == c.historySize then laps + 1 else laps)
  {
    hide Zeros;
    LapBack(laps, c.historySize);
    LapBack(laps + 1, c.historySize);
  }

  lemma LearnRecent(c: Config, n: Noise, rows: seq<Row>, laps: nat, mag: Row, i: nat)
    requires c.Valid() && n.Fits(c) && AreRows(c, rows) && |mag| == c.fft && Holds(c, n, rows, laps) && i < c.fft
    requires n.sum[i] == Recent(c, rows, i)
    ensures AreRows(c, rows + [mag]) && Learn(c, n, mag).sum[i] == Recent(c, rows + [mag], i)
  {
    hide Holds;
    var rows', h := rows + [mag], c.historySize;
    OldestGoes(c, n, rows, laps);
    TotalPrefix(c, rows, mag, i, |rows|);
    if |rows'| >= h { TotalPrefix(c, rows, mag, i, |rows'| - h); }
  }

  /** Learning a row puts it after the others. */
  lemma LearnRemembers(c: Config, n: Noise, rows: seq<Row>, mag: Row)
    requires c.Valid() && Remembers(c, n, rows) && |mag| == c.fft
    ensures Remembers(c, Learn(c, n, mag), rows + [mag])
  {
    hide Holds, Learn, Recent;
    var laps: nat :| Holds(c, n, rows, laps);
    LearnHolds(c, n, rows, laps, mag);
    forall i | 0 <= i < c.fft
      ensures AreRows(c, rows + [mag]) && Learn(c, n, mag).sum[i] == Recent(c, rows + [mag], i)
    {
      LearnRecent(c, n, rows, laps, mag, i);
    }
  }

  /** A burst has become longer than is allowed. */
  predicate Overrun(c: Config, d: Detector, mag: Row)
    requires Shaped(c, d) && |mag| == c.fft
  {
    c.maxLen > 0 && exists i :: 0 <= i < |d.bursts| && Again(c, d, mag, d.bursts[i]).lastActive - d.bursts[i].start > c.maxLen
  }

  /** The rows learned after the frame, given whether the squelch closed it and what is active after it. */
  function RowsAfter(c: Config, d: Detector, mag: Row, rows: seq<Row>, crowded: bool, idle: bool): (r: seq<Row>)
    requires Shaped(c, d) && |mag| == c.fft
  {
    (if crowded && d.squelch + 3 >= 10 then [] else if d.noise.primed && Overrun(c, d, mag) then rows + [mag] else rows)
    + (if idle then [mag] else [])
  }

  /** What each frame teaches, and how the count of squelched frames decides when to start again. */
  lemma FrameRemembers(c: Config, sort: Sort, d: Detector, mag: Row, rows: seq<Row>)
    requires c.Valid() && Shaped(c, d) && |mag| == c.fft && Summed(c, d.noise) && c.threshold >= 0.0 && Remembers(c, d.noise, rows)
    ensures var d', crowded := Frame(c, sort, d, mag), Squelches(c, sort, d, mag);
      && Remembers(c, d'.noise, RowsAfter(c, d, mag, rows, crowded, d'.bursts == []))
      && d'.squelch == if !d.noise.primed then d.squelch
                       else if crowded then if d.squelch + 3 >= 10 then 0 else d.squelch + 3
                       else if d.squelch > 0 then d.squelch - 1 else 0
  {
    hide Remembers, Learn, Kept, Gone, Touched, Relative, Made, Peaks, Masked, Quiet, MaskOf, Summed, AllAgain;
    hide AnyTooLong, Overrun, Ids, Older, Younger, Stopped;
    var d' := Frame(c, sort, d, mag);
    NothingRemembered(c);
    LearnRemembers(c, d.noise, rows, mag);
    LearnRemembers(c, Learn(c, d.noise, mag), rows + [mag], mag);
    LearnRemembers(c, Quiet(c), [], mag);
    TouchedIsAgain(c, d, mag);
    OverrunIff(c, d, mag);
    assert rows + [] == rows && (rows + [mag]) + [] == rows + [mag];
  }

  lemma OverrunIff(c: Config, d: Detector, mag: Row)
    requires Shaped(c, d) && |mag| == c.fft
    ensures AnyTooLong(c, AllAgain(c, d, mag)) <==> Overrun(c, d, mag)
  {
    hide Loud;
    var bs := AllAgain(c, d, mag);
    if AnyTooLong(c, bs) {
      var i :| 0 <= i < |bs| && TooLong(c, bs[i]);
      assert bs[i] == Again(c, d, mag, d.bursts[i]);
    }
    if Overrun(c, d, mag) {
      var i :| 0 <= i < |d.bursts| && Again(c, d, mag, d.bursts[i]).lastActive - d.bursts[i].start > c.maxLen;
      assert TooLong(c, bs[i]);
    }
  }
}
