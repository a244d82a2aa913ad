/** The ring of recent samples (`ringbuf_write`, `ringbuf_extract` in burst_detect.c). */
module SampleRing {
  import opened BurstRun

  /** The cell of the sample at position `i` of the stream. */
  function Place(i: nat, size: nat): (k: nat)
    requires size > 0
    ensures k < size
  {
    if i < size then i else Place(i - size, size)
  }

  lemma {:induction false} PlaceIs(i: nat, size: nat) returns (q: nat)
    requires size > 0
    ensures i == q * size + Place(i, size)
  {
    if i < size {
      q := 0;
    } else {
      q := PlaceIs(i - size, size);
      assert (q + 1) * size == q * size + size;
      q := q + 1;
    }
  }

  lemma RemainderUnique(x: nat, q: nat, r: nat, q': nat, r': nat, n: nat)
    requires x == q * n + r && x == q' * n + r' && r < n && r' < n
    ensures r == r'
  {
    if q < q' {
      Multiples(q + 1, q', n);
    } else if q' < q {
      Multiples(q' + 1, q, n);
    }
  }

  lemma Multiples(a: nat, b: nat, n: nat)
    requires a <= b
    ensures a * n <= b * n
  {
    assert b * n == a * n + (b - a) * n;
  }

  lemma PlaceIsMod(i: nat, size: nat)
    requires size > 0
    ensures Place(i, size) == i % size
  {
    var q := PlaceIs(i, size);
    RemainderUnique(i, q, Place(i, size), i / size, i % size, size);
  }

  lemma {:induction false} PlaceAdd(i: nat, k: nat, size: nat)
    requires size > 0 && k <= size
    ensures Place(i + k, size) == if Place(i, size) + k < size then Place(i, size) + k else Place(i, size) + k - size
  {
    if i >= size { PlaceAdd(i - size, k, size); }
  }

  /** The first sample still in a ring of `size` cells after `n` samples. */
  function Oldest(n: nat, size: nat): (i: nat) { if n <= size then 0 else n - size }

  /** `ringbuf_start` after a write, which looks at the number of samples written before. */
  function Lag(count: nat, size: nat, start: nat): (r: nat) { if count > size then count - size else start }

  /** The first position a request from `from` on gets. */
  function Clamped(from: nat, start: nat): (r: nat) { if from < start then start else from }

  /** The cells hold the last samples of the stream. */
  ghost predicate Holds(cells: seq<Sample>, stream: seq<Sample>)
    requires |cells| > 0
  {
    forall i :: Oldest(|stream|, |cells|) <= i < |stream| ==> cells[Place(i, |cells|)] == stream[i]
  }

  /** What is still stored of `out`, taken from `first` on, is the stream's. */
  ghost predicate Taken(out: seq<Sample>, stream: seq<Sample>, first: nat, oldest: nat) {
    forall j :: 0 <= j < |out| && oldest <= first + j < |stream| ==> out[j] == stream[first + j]
  }

  class Ring {
    const cells: array<Sample>
    /** `ringbuf_write` */
    var next: nat
    /** `ringbuf_start` */
    var start: nat
    /** All samples written. */
    ghost var stream: seq<Sample>

    ghost predicate Valid()
      reads this, cells
    {
      && cells.Length > 0 && next == Place(|stream|, cells.Length)
      && start <= Oldest(|stream|, cells.Length) && Holds(cells[..], stream)
    }

    constructor (size: nat, blank: Sample)
      requires size > 0
      ensures Valid() && stream == [] && cells.Length == size && fresh(cells)
    {
      cells := new Sample[size](_ => blank);
      next, start, stream := 0, 0, [];
    }

    /** `ringbuf_write`; `count` is the number of samples written before. */
    method Write(samples: seq<Sample>, count: nat)
      requires Valid() && |samples| <= cells.Length && count == |stream|
      modifies this, cells
      ensures Valid() && stream == old(stream) + samples
      ensures start == Lag(count, cells.Length, old(start))
    {
      hide Holds, Place;
      var n, size, pos := |samples|, cells.Length, next;
      ghost var was := cells[..];
      if pos + n <= size {
        forall k | 0 <= k < n { cells[pos + k] := samples[k]; }
        next := pos + n;
        if next == size { next := 0; }
      } else {
        var first := size - pos;
        forall k | 0 <= k < first { cells[pos + k] := samples[k]; }
        forall k | 0 <= k < n - first { cells[k] := samples[first + k]; }
        next := n - first;
      }
      if count > size { start := count - size; }
      Written(was, cells[..], stream, samples, pos);
      stream := stream + samples;
    }

    /** Two copies of consecutive cells, from the cell of `from` on. */
    method Copy(from: nat, len: nat) returns (out: seq<Sample>)
      requires Valid() && len <= cells.Length
      ensures |out| == len
      ensures forall j :: 0 <= j < len && Oldest(|stream|, cells.Length) <= from + j < |stream| ==> out[j] == stream[from + j]
    {
      PlaceIsMod(from, cells.Length);
      var pos, size := from % cells.Length, cells.Length;
      if pos + len <= size {
        out := cells[pos..pos + len];
      } else {
        out := cells[pos..] + cells[..len - (size - pos)];
      }
      forall j | 0 <= j < len && Oldest(|stream|, size) <= from + j < |stream|
        ensures out[j] == stream[from + j]
      {
        PlaceAdd(from, j, size);
        assert cells[..][Place(from + j, size)] == stream[from + j];
      }
    }

    /** `ringbuf_extract`; positions are unsigned, so that a negative one is past any stop. */
    method Extract(from: int, stop: nat) returns (out: seq<Sample>)
      requires Valid() && (from >= 0 ==> stop - Clamped(from, start) <= cells.Length)
      ensures from < 0 ==> out == []
      ensures from >= 0 ==> |out| == if stop <= Clamped(from, start) then 0 else stop - Clamped(from, start)
      ensures from >= 0 ==> Taken(out, stream, Clamped(from, start), Oldest(|stream|, cells.Length))
    {
      if from < 0 {
        return [];
      }
      var first := Clamped(from, start);
      if stop <= first {
        return [];
      }
      out := Copy(first, stop - first);
    }
  }

  /** What cell `k` holds once `samples` are written from `pos` on, around the end. */
  function NewCell(before: seq<Sample>, samples: seq<Sample>, pos: nat, k: nat): (x: Sample)
    requires k < |before| && pos < |before|
  {
    if pos <= k < pos + |samples| then samples[k - pos]
    else if k < pos && k + |before| < pos + |samples| then samples[k + |before| - pos]
    else before[k]
  }

  /** `after` is `before` with `samples` written from `pos` on, around the end. */
  ghost predicate Overwritten(before: seq<Sample>, after: seq<Sample>, samples: seq<Sample>, pos: nat) {
    && |after| == |before| && pos < |before| && |samples| <= |before|
    && forall k :: 0 <= k < |before| ==> after[k] == NewCell(before, samples, pos, k)
  }

  lemma Written(before: seq<Sample>, after: seq<Sample>, stream: seq<Sample>, samples: seq<Sample>, pos: nat)
    requires Overwritten(before, after, samples, pos) && pos == Place(|stream|, |before|) && Holds(before, stream)
    ensures Holds(after, stream + samples) && |samples| <= |before|
    ensures Place(|stream + samples|, |before|) == if pos + |samples| < |before| then pos + |samples| else pos + |samples| - |before|
  {
    var size, n, all := |before|, |stream|, stream + samples;
    PlaceAdd(n, |samples|, size);
    forall i | Oldest(|all|, size) <= i < |all|
      ensures after[Place(i, size)] == all[i]
    {
      if i >= n {
        PlaceAdd(n, i - n, size);
      } else {
        OldStays(before, after, samples, pos, n, i);
        assert before[Place(i, size)] == stream[i];
      }
    }
  }

  lemma OldStays(before: seq<Sample>, after: seq<Sample>, samples: seq<Sample>, pos: nat, n: nat, i: nat)
    requires Overwritten(before, after, samples, pos) && pos == Place(n, |before|)
    requires i < n && n + |samples| <= i + |before|
    ensures after[Place(i, |before|)] == before[Place(i, |before|)]
  {
    var size := |before|;
    var p := Place(i, size);
    PlaceAdd(i, n - i, size);
  }
}
