/**
 Live speed of a transfer (class SpeedMeter): a moving average over the last window, kept on a pruned list of
 samples. Times are whole milliseconds of a clock that does not go back; rates are exact fractions.
 */
module Speed {
  import opened Basics

  /** When, and how many bytes were done. */
  type Sample = (int, int)

  function MaxReal(a: real, b: real): real { if a < b then b else a }

  ghost predicate Ordered(h: seq<Sample>) {
    forall i :: 0 < i < |h| ==> h[i - 1].0 <= h[i].0
  }

  lemma {:induction false} OrderedAt(h: seq<Sample>, i: nat, j: nat)
    requires Ordered(h) && i <= j < |h|
    ensures h[i].0 <= h[j].0
    decreases j
  {
    if i < j { OrderedAt(h, i, j - 1); }
  }

  // ----- the rate of a complete history -----

  /** Bytes done at a time between two samples, on the line through them. */
  function Between(a: Sample, b: Sample, x: int): real
    requires a.0 < b.0
  {
    a.1 as real + (((b.1 - a.1) as real) * ((x - a.0) as real)) / ((b.0 - a.0) as real)
  }

  /** Bytes per second between two times, never below zero. */
  function PerSecond(bytes: real, ms: int): real
    requires ms > 0
  {
    MaxReal(0.0, bytes / (ms as real / 1000.0))
  }

  /** Bytes done at a time: on the line between the samples around it, as many as at the last one after that. */
  function BytesAt(h: seq<Sample>, x: int): real
    requires |h| > 0
  {
    var n := |h|;
    if n == 1 || h[n - 1].0 <= x then h[n - 1].1 as real
    else if h[n - 2].0 <= x then Between(h[n - 2], h[n - 1], x)
    else BytesAt(h[..n - 1], x)
  }

  /** There is one segment a time lies in, and it is that one's line. */
  lemma {:induction false} BytesAtSegment(h: seq<Sample>, i: nat, x: int)
    requires Ordered(h) && 0 < i < |h| && h[i - 1].0 <= x < h[i].0
    ensures BytesAt(h, x) == Between(h[i - 1], h[i], x)
    decreases |h|
  {
    var n := |h|;
    OrderedAt(h, i, n - 1);
    if i < n - 1 {
      OrderedAt(h, i, n - 2);
      BytesAtSegment(h[..n - 1], i, x);
    }
  }

  /** The samples before the segment do not matter. */
  lemma {:induction false} BytesAtSuffix(h: seq<Sample>, d: nat, x: int)
    requires Ordered(h) && d < |h| && h[d].0 <= x
    ensures BytesAt(h[d..], x) == BytesAt(h, x)
    decreases |h|
  {
    var n := |h|;
    if d < n - 1 && x < h[n - 1].0 {
      assert h[d..][n - d - 1] == h[n - 1] && h[d..][n - d - 2] == h[n - 2];
      if x < h[n - 2].0 {
        assert h[d..][..n - d - 1] == h[..n - 1][d..];
        BytesAtSuffix(h[..n - 1], d, x);
      }
    } else {
      assert h[d..][n - d - 1] == h[n - 1];
    }
  }

  /**
   The rate over the last window by the whole history: unknown in the first half second; from the start while the
   window reaches further back; else from the bytes done at the window's left edge, wherever the edge falls.
   */
  function HistoryRate(h: seq<Sample>, window: int, now: int): Option<real>
    requires |h| > 0
  {
    var edge, last := now - window, h[|h| - 1];
    if now - h[0].0 < 500 || window <= 0 then None
    else if edge < h[0].0 then Some(PerSecond((last.1 - h[0].1) as real, now - h[0].0))
    else Some(PerSecond(last.1 as real - BytesAt(h, edge), window))
  }

  /** The bytes at the left edge as they are reckoned from the two oldest samples kept. */
  function Interpolated(first: Sample, next: Sample, from: int): real {
    first.1 as real + (((next.1 - first.1) as real) * ((from - first.0) as real)) / (Max(1, next.0 - first.0) as real)
  }

  lemma InterpolatedIsBetween(a: Sample, b: Sample, x: int)
    requires a.0 < b.0
    ensures Interpolated(a, b, x) == Between(a, b, x)
  {
    assert Max(1, b.0 - a.0) == b.0 - a.0;
  }

  lemma InterpolatedAtFirst(a: Sample, b: Sample)
    ensures Interpolated(a, b, a.0) == a.1 as real
  {
    var d, m := (b.1 - a.1) as real, Max(1, b.0 - a.0) as real;
    assert d * 0.0 == 0.0;
    assert 0.0 / m == 0.0;
  }

  // ----- when two rates are the same -----

  lemma Divided(x: real, w: real)
    requires w > 0.0
    ensures (x / w) * w == x
  {
  }

  lemma Sign(q: real, w: real)
    requires w > 0.0
    ensures q * w > 0.0 <==> q > 0.0
  {
  }

  lemma SameQuotient(a: real, b: real, w: real)
    requires w > 0.0
    ensures MaxReal(0.0, a / w) == MaxReal(0.0, b / w) <==> a == b || (a <= 0.0 && b <= 0.0)
  {
    var p, q := a / w, b / w;
    Divided(a, w);
    Divided(b, w);
    Sign(p, w);
    Sign(q, w);
  }

  /** Two reckonings of the bytes at the window's edge give one rate exactly when they agree, or both leave none. */
  predicate SameRate(last: real, a: real, b: real) {
    a == b || (a >= last && b >= last)
  }

  lemma SameRateIff(last: real, a: real, b: real, ms: int)
    requires ms > 0
    ensures PerSecond(last - a, ms) == PerSecond(last - b, ms) <==> SameRate(last, a, b)
  {
    SameQuotient(last - a, last - b, ms as real / 1000.0);
  }

  class SpeedMeter {
    const total: int
    const startedAt: int
    const windowMs: int
    var samples: seq<Sample>
    var done: int
    var endedAt: Option<int>
    /** Every sample there was, and how many of them are no longer kept. */
    ghost var history: seq<Sample>
    ghost var dropped: nat

    ghost predicate Valid()
      reads this
    {
      && |history| > 0 && history[0] == (startedAt, 0) && Ordered(history)
      && dropped < |history| && samples == history[dropped..]
      && (dropped > 0 ==> |samples| > 1 && samples[0].0 <= history[|history| - 1].0 - windowMs)
      && (|samples| > 2 ==> samples[1].0 > history[|history| - 1].0 - windowMs)
    }

    constructor (total: int, now: int, windowMs: int)
      ensures Valid() && history == [(now, 0)] && startedAt == now && this.windowMs == windowMs && this.total == total
      ensures endedAt == None && done == 0
    {
      this.total, this.windowMs := total, windowMs;
      startedAt, endedAt, done := now, None, 0;
      samples := [(now, 0)];
      history, dropped := [(now, 0)], 0;
    }

    /** Bytes per second over the last window; nothing while that is unknown. */
    function Rate(now: int): Option<real>
      requires |samples| > 0
      reads this
    {
      var first, last := samples[0], samples[|samples| - 1];
      var from := Max(first.0, now - windowMs);
      var span := (now - from) as real / 1000.0;
      if now - startedAt < 500 || span <= 0.0 then None
      else
        var base :=
          if first.0 < from && |samples| > 1 then Interpolated(first, samples[1], from) else first.1 as real;
        Some(MaxReal(0.0, (last.1 as real - base) / span))
    }

    /** One more sample; the samples before the window are dropped, but for its left edge. */
    method Add(done: int, now: int)
      requires Valid() && history[|history| - 1].0 <= now
      modifies this
      ensures Valid() && history == old(history) + [(now, done)] && this.done == done && endedAt == old(endedAt)
      ensures Rate(now) == HistoryRate(history, windowMs, now)
    {
      Push(done, now);
      RateIsExact(now);
    }

    method Push(done: int, now: int)
      requires Valid() && history[|history| - 1].0 <= now
      modifies this
      ensures Valid() && history == old(history) + [(now, done)] && this.done == done && endedAt == old(endedAt)
      ensures |samples| > 1 && (windowMs <= 0 || now - windowMs < samples[1].0)
    {
      this.done := done;
      samples := samples + [(now, done)];
      history := history + [(now, done)];
      assert samples == history[dropped..];
      Prune(now);
    }

    method Prune(now: int)
      requires dropped + 1 < |history| && samples == history[dropped..]
      requires dropped > 0 ==> samples[0].0 <= now - windowMs
      modifies this`samples, this`dropped
      ensures dropped + 1 < |history| && samples == history[dropped..]
      ensures dropped > 0 ==> samples[0].0 <= now - windowMs
      ensures |samples| > 2 ==> samples[1].0 > now - windowMs
    {
      while |samples| > 2 && samples[1].0 <= now - windowMs
        invariant dropped + 1 < |history| && samples == history[dropped..]
        invariant dropped > 0 ==> samples[0].0 <= now - windowMs
        decreases |samples|
      {
        samples := samples[1..];
        dropped := dropped + 1;
      }
    }

    method Finish(now: int)
      requires Valid()
      modifies this`endedAt
      ensures Valid() && endedAt == Some(now)
    {
      endedAt := Some(now);
    }

    /** The window begins before the second sample kept (or is empty, or nothing but the start is kept). */
    predicate EdgeEarly(now: int)
      requires |samples| > 0
      reads this
    {
      now - startedAt < 500 || windowMs <= 0 || |samples| == 1 || now - windowMs < samples[1].0
    }

    /** Later: the line through the two oldest samples kept happens to give the rate of the segment the edge is in. */
    predicate EdgeOnLine(now: int)
      requires |samples| > 1
      reads this
    {
      var edge := now - windowMs;
      SameRate(samples[|samples| - 1].1 as real, Interpolated(samples[0], samples[1], edge), BytesAt(samples, edge))
    }

    /** The kept samples give the rate of the whole history exactly then. */
    lemma RateIsExactIff(now: int)
      requires Valid() && history[|history| - 1].0 <= now
      ensures Rate(now) == HistoryRate(history, windowMs, now) <==> EdgeEarly(now) || EdgeOnLine(now)
    {
      OrderedAt(history, 0, dropped);
      assert samples[0] == history[dropped] && samples[|samples| - 1] == history[|history| - 1];
      if now - startedAt < 500 || windowMs <= 0 || now - windowMs < startedAt {
        RateFromStart(now);
      } else if |samples| == 1 {
        RateOfStart(now);
      } else {
        RateFromEdge(now);
      }
    }

    lemma RateIsExact(now: int)
      requires Valid() && history[|history| - 1].0 <= now && EdgeEarly(now)
      ensures Rate(now) == HistoryRate(history, windowMs, now)
    {
      RateIsExactIff(now);
    }

    lemma RateFromStart(now: int)
      requires Valid() && history[|history| - 1].0 <= now
      requires now - startedAt < 500 || windowMs <= 0 || now - windowMs < startedAt
      ensures Rate(now) == HistoryRate(history, windowMs, now) && (|samples| > 0 ==> EdgeEarly(now))
    {
      OrderedAt(history, 0, dropped);
      assert samples[0] == history[dropped] && samples[|samples| - 1] == history[|history| - 1];
      if |samples| > 1 {
        assert samples[1] == history[dropped + 1];
        OrderedAt(history, 0, dropped + 1);
      }
    }

    lemma RateOfStart(now: int)
      requires Valid() && history[|history| - 1].0 <= now && |samples| == 1
      requires now - startedAt >= 500 && windowMs > 0 && startedAt <= now - windowMs
      ensures Rate(now) == HistoryRate(history, windowMs, now)
    {
      assert dropped == 0 && samples == history;
    }

    /** What is reckoned at the edge and what the history has there. */
    lemma RateFromEdge(now: int)
      requires Valid() && history[|history| - 1].0 <= now && |samples| > 1
      requires now - startedAt >= 500 && windowMs > 0 && startedAt <= now - windowMs
      ensures Rate(now) == HistoryRate(history, windowMs, now) <==> now - windowMs < samples[1].0 || EdgeOnLine(now)
    {
      var edge, last := now - windowMs, samples[|samples| - 1].1 as real;
      var a, b := samples[0], samples[1];
      RateAt(now);
      EdgeKept(now);
      BytesAtSuffix(history, dropped, edge);
      assert samples[|samples| - 1] == history[|history| - 1];
      SameRateIff(last, Interpolated(a, b, edge), BytesAt(samples, edge), windowMs);
      if edge < b.0 {
        EdgeInFirst(edge);
        InterpolatedIsBetween(a, b, edge);
      }
    }

    /** A window's edge after the start is not before the first sample kept. */
    lemma EdgeKept(now: int)
      requires Valid() && history[|history| - 1].0 <= now && startedAt <= now - windowMs
      ensures samples[0] == history[dropped] && samples[0].0 <= now - windowMs
    {
    }

    /** Before the second sample kept the edge lies in the first kept segment, which is that of the whole history. */
    lemma EdgeInFirst(edge: int)
      requires Valid() && |samples| > 1 && samples[0].0 <= edge < samples[1].0
      ensures BytesAt(history, edge) == BytesAt(samples, edge) == Between(samples[0], samples[1], edge)
      ensures forall i :: 0 < i < |history| && history[i - 1].0 <= edge < history[i].0 ==> i == dropped + 1
    {
      assert samples[0] == history[dropped] && samples[1] == history[dropped + 1];
      BytesAtSegment(history, dropped + 1, edge);
      BytesAtSuffix(history, dropped, edge);
      forall i | 0 < i < |history| && history[i - 1].0 <= edge < history[i].0 ensures i == dropped + 1 {
        if i <= dropped { OrderedAt(history, i, dropped); }
        if i > dropped + 1 { OrderedAt(history, dropped + 1, i - 1); }
      }
    }

    lemma RateAt(now: int)
      requires |samples| > 1 && samples[0].0 <= now - windowMs && now - startedAt >= 500 && windowMs > 0
      ensures var last := samples[|samples| - 1].1 as real;
              Rate(now) == Some(PerSecond(last - Interpolated(samples[0], samples[1], now - windowMs), windowMs))
    {
      InterpolatedAtFirst(samples[0], samples[1]);
    }
  }

  lemma LateNumbers()
    ensures Between((200, 0), (1000, 800), 600) == 400.0 && Interpolated((0, 0), (200, 0), 600) == 0.0
    ensures PerSecond(400.0, 1000) == 400.0 && PerSecond(800.0, 1000) == 800.0
  {
  }

  /** Later than the last sample the kept ones can give another rate than the history: 800 and not 400 bytes here. */
  lemma LateRateDiffers(m: SpeedMeter)
    requires m.Valid() && m.startedAt == 0 && m.windowMs == 1000
    requires m.history == m.samples == [(0, 0), (200, 0), (1000, 800)]
    ensures m.Rate(1600) == Some(800.0) && HistoryRate(m.history, 1000, 1600) == Some(400.0)
  {
    LateNumbers();
    var h := m.history;
    assert h[1] == (200, 0) && h[2] == (1000, 800);
  }
}
