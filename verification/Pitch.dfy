/** The pitch search of the time-stretch engine: average magnitude difference, coarse on a down-sampled
    signal, then fine. */
module Pitch {
  import opened Bits
  import opened Resampler

  const MIN_PITCH: nat := 65
  const MAX_PITCH: nat := 400
  const AMDF_FREQ: nat := 4000

  function Distance(a: int, b: int): (d: nat) { if a >= b then a - b else b - a }

  /** The magnitude difference between the first `n` samples and those a period later. */
  function Difference(samples: seq<int>, period: nat, n: nat): nat
    requires n <= period && 2 * period <= |samples|
  {
    if n == 0 then 0 else Difference(samples, period, n - 1) + Distance(samples[n - 1], samples[period + n - 1])
  }

  function Amdf(samples: seq<int>, period: nat): nat
    requires 2 * period <= |samples|
  {
    Difference(samples, period, period)
  }

  /** Period `p` is at least as good as `q`: its average difference, compared without dividing. */
  predicate AtLeastAsGood(samples: seq<int>, p: nat, q: nat)
    requires 2 * p <= |samples| && 2 * q <= |samples|
  {
    Amdf(samples, p) * q <= Amdf(samples, q) * p
  }

  /** The least period that minimises the average difference. */
  ghost predicate LeastBest(samples: seq<int>, lo: nat, hi: nat, best: nat)
    requires 2 * hi <= |samples|
  {
    && lo <= best <= hi
    && (forall q: nat {:trigger AtLeastAsGood(samples, best, q)} :: lo <= q <= hi ==> AtLeastAsGood(samples, best, q))
    && (forall q: nat {:trigger AtLeastAsGood(samples, q, best)} :: lo <= q < best ==> !AtLeastAsGood(samples, q, best))
  }

  /** `diff` / `worst` is the greatest average difference; 0 / 255 when all are 0. */
  ghost predicate Greatest(samples: seq<int>, lo: nat, hi: nat, diff: nat, worst: nat)
    requires 2 * hi <= |samples|
  {
    && worst > 0
    && (diff > 0 ==> lo <= worst <= hi && diff == Amdf(samples, worst))
    && (forall q: nat {:trigger Amdf(samples, q)} :: lo <= q <= hi ==> Amdf(samples, q) * worst <= diff * q)
  }

  /** Cross-multiplied comparison is transitive. */
  lemma CrossTransitive(a: nat, p: nat, b: nat, q: nat, c: nat, r: nat)
    requires p > 0 && q > 0 && r > 0 && a * q <= b * p && b * r <= c * q
    ensures a * r <= c * p
    ensures a * q < b * p || b * r < c * q ==> a * r < c * p
  {
    MulMono(a * q, b * p, r);
    MulMono(b * r, c * q, p);
    Shuffle(a, q, r);
    Shuffle(b, p, r);
    Shuffle(c, q, p);
    MulCancel(a * r, c * p, q);
    if a * r == c * p {
      if a * q < b * p { MulStep(a * q, b * p, r); }
      if b * r < c * q { MulStep(b * r, c * q, p); }
    }
  }

  lemma Shuffle(a: int, b: int, c: int)
    ensures a * b * c == a * c * b
  {
  }

  method DifferenceOf(samples: seq<int>, period: nat) returns (diff: nat)
    requires 2 * period <= |samples|
    ensures diff == Amdf(samples, period)
  {
    diff := 0;
    var i := 0;
    while i < period
      invariant 0 <= i <= period && diff == Difference(samples, period, i)
    {
      var sVal, pVal := samples[i], samples[period + i];
      diff := diff + if sVal >= pVal then sVal - pVal else pVal - sVal;
      i := i + 1;
    }
  }

  /** The difference over `n` samples is that of constants when the later samples are all off by the same. */
  lemma {:induction false} DifferenceOfOffset(samples: seq<int>, period: nat, n: nat, c: int)
    requires n <= period && 2 * period <= |samples|
    requires forall i {:trigger samples[i]} :: 0 <= i < n ==> samples[period + i] == samples[i] + c
    ensures Difference(samples, period, n) == n * Distance(c, 0)
  {
    if n > 0 {
      DifferenceOfOffset(samples, period, n - 1, c);
      assert samples[period + (n - 1)] == samples[n - 1] + c;
      MulNext(n - 1, Distance(c, 0));
    }
  }

  lemma MulNext(n: int, d: int)
    ensures (n + 1) * d == n * d + d
  {
  }

  lemma {:induction false} DifferenceGrows(samples: seq<int>, period: nat, i: nat, n: nat)
    requires i < n <= period && 2 * period <= |samples|
    ensures Difference(samples, period, n) >= Distance(samples[i], samples[period + i])
    decreases n
  {
    if i < n - 1 { DifferenceGrows(samples, period, i, n - 1); }
  }

  /** The magnitude difference vanishes exactly on a signal that repeats after the period; on one that is
      off by a constant it is that constant, once for each sample. */
  lemma AmdfMeasures(samples: seq<int>, period: nat)
    requires 2 * period <= |samples|
    ensures Amdf(samples, period) == 0 <==> samples[..period] == samples[period..2 * period]
    ensures forall c {:trigger Distance(c, 0)} ::
      (forall i {:trigger samples[i]} :: 0 <= i < period ==> samples[period + i] == samples[i] + c) ==>
      Amdf(samples, period) == period * Distance(c, 0)
  {
    forall c {:trigger Distance(c, 0)} |
      forall i {:trigger samples[i]} :: 0 <= i < period ==> samples[period + i] == samples[i] + c
      ensures Amdf(samples, period) == period * Distance(c, 0)
    {
      DifferenceOfOffset(samples, period, period, c);
    }
    var a, b := samples[..period], samples[period..2 * period];
    if a == b {
      forall i {:trigger samples[i]} | 0 <= i < period
        ensures samples[period + i] == samples[i] + 0
      {
        assert a[i] == b[i];
      }
      DifferenceOfOffset(samples, period, period, 0);
      assert period * Distance(0, 0) == 0;
    } else {
      var i :| 0 <= i < period && a[i] != b[i];
      DifferenceGrows(samples, period, i, period);
    }
  }

  /** The best period of a range, its average difference, and the greatest one. */
  method FindPitchPeriodInRange(samples: seq<int>, minPeriod: nat, maxPeriod: nat)
    returns (bestPeriod: nat, retMinDiff: int, retMaxDiff: int, ghost worst: nat, ghost maxDiff: nat)
    requires 1 <= minPeriod <= maxPeriod && 2 * maxPeriod <= |samples|
    ensures LeastBest(samples, minPeriod, maxPeriod, bestPeriod)
    ensures retMinDiff == Amdf(samples, bestPeriod) / bestPeriod
    ensures Greatest(samples, minPeriod, maxPeriod, maxDiff, worst) && retMaxDiff == maxDiff / worst
  {
    hide Amdf;
    var minDiff: nat := 1;
    var worstPeriod: nat, greatest: nat := 255, 0;
    bestPeriod := 0;
    var period := minPeriod;
    while period <= maxPeriod
      invariant minPeriod <= period <= maxPeriod + 1
      invariant period == minPeriod ==> bestPeriod == 0 && worstPeriod == 255 && greatest == 0
      invariant period > minPeriod ==> LeastBest(samples, minPeriod, period - 1, bestPeriod) && minDiff == Amdf(samples, bestPeriod)
      invariant period > minPeriod ==> Greatest(samples, minPeriod, period - 1, greatest, worstPeriod)
    {
      var diff := DifferenceOf(samples, period);
      if period == minPeriod {
        FirstPeriod(samples, period);
      } else {
        NextBest(samples, minPeriod, period, bestPeriod);
        NextGreatest(samples, minPeriod, period, greatest, worstPeriod);
      }
      if bestPeriod == 0 || diff * bestPeriod < minDiff * period { minDiff, bestPeriod := diff, period; }
      if diff * worstPeriod > greatest * period { greatest, worstPeriod := diff, period; }
      period := period + 1;
    }
    worst, maxDiff := worstPeriod, greatest;
    retMinDiff := minDiff / bestPeriod;
    retMaxDiff := greatest / worstPeriod;
  }

  lemma FirstPeriod(samples: seq<int>, p: nat)
    requires 1 <= p && 2 * p <= |samples|
    ensures LeastBest(samples, p, p, p)
    ensures var d := Amdf(samples, p);
            if d * 255 > 0 * p then Greatest(samples, p, p, d, p) else Greatest(samples, p, p, 0, 255)
  {
    hide Amdf;
    assert 0 * p == 0;
  }

  lemma NextBest(samples: seq<int>, lo: nat, p: nat, best: nat)
    requires 1 <= lo < p && 2 * p <= |samples| && LeastBest(samples, lo, p - 1, best)
    ensures LeastBest(samples, lo, p, if Amdf(samples, p) * best < Amdf(samples, best) * p then p else best)
  {
    hide Amdf;
    var d, m := Amdf(samples, p), Amdf(samples, best);
    var best' := if d * best < m * p then p else best;
    forall q: nat {:trigger AtLeastAsGood(samples, best', q)} | lo <= q <= p
      ensures AtLeastAsGood(samples, best', q)
    {
      if q < p && best' == p {
        assert AtLeastAsGood(samples, best, q);
        CrossTransitive(d, p, m, best, Amdf(samples, q), q);
      } else if q == p {
        assert Amdf(samples, q) == d;
      } else {
        assert AtLeastAsGood(samples, best, q);
      }
    }
    forall q: nat {:trigger AtLeastAsGood(samples, q, best')} | lo <= q < best'
      ensures !AtLeastAsGood(samples, q, best')
    {
      if best' == p {
        assert AtLeastAsGood(samples, best, q);
        CrossTransitive(d, p, m, best, Amdf(samples, q), q);
      }
    }
  }

  lemma NextGreatest(samples: seq<int>, lo: nat, p: nat, diff: nat, worst: nat)
    requires 1 <= lo < p && 2 * p <= |samples| && Greatest(samples, lo, p - 1, diff, worst)
    ensures var d := Amdf(samples, p);
            if d * worst > diff * p then Greatest(samples, lo, p, d, p) else Greatest(samples, lo, p, diff, worst)
  {
    hide Amdf;
    var d := Amdf(samples, p);
    if d * worst > diff * p {
      forall q: nat {:trigger Amdf(samples, q)} | lo <= q <= p
        ensures Amdf(samples, q) * p <= d * q
      {
        if q < p { CrossTransitive(Amdf(samples, q), q, diff, worst, d, p); }
      }
      assert d == 0 ==> d * worst == 0;
    }
  }

  // ---- down-sampling ----

  function Sum(samples: seq<int>, from: nat, n: nat): int
    requires from + n <= |samples|
  {
    if n == 0 then 0 else Sum(samples, from, n - 1) + samples[from + n - 1]
  }

  /** `n` values, each the average of `per` successive samples of all channels. */
  function Down(samples: seq<int>, per: nat, n: nat): (r: seq<int>)
    requires per > 0 && n * per <= |samples|
    ensures |r| == n
  {
    seq(n, i requires 0 <= i < n => MulStep(i, n, per); TowardsZero(Sum(samples, i * per, per), per))
  }

  lemma {:induction false} SumOfLevel(samples: seq<int>, from: nat, n: nat, v: int)
    requires from + n <= |samples| && forall j {:trigger samples[j]} :: from <= j < from + n ==> samples[j] == v
    ensures Sum(samples, from, n) == n * v
  {
    if n > 0 {
      SumOfLevel(samples, from, n - 1, v);
      MulNext(n - 1, v);
    }
  }

  lemma {:induction false} SumOfImpulse(samples: seq<int>, from: nat, n: nat, at: nat)
    requires from + n <= |samples| && at < |samples|
    requires forall j {:trigger samples[j]} :: 0 <= j < |samples| && j != at ==> samples[j] == 0
    ensures Sum(samples, from, n) == if from <= at < from + n then samples[at] else 0
  {
    if n > 0 { SumOfImpulse(samples, from, n - 1, at); }
  }

  lemma AverageOfEqual(v: int, n: nat)
    requires n > 0
    ensures TowardsZero(n * v, n) == v
  {
    if v < 0 {
      MulMono(v, -1, n);
      assert n * v == v * n && -(n * v) == n * -v;
      DivUnique(-(n * v), n, -v, 0);
    } else {
      MulMono(0, v, n);
      assert n * v == v * n;
      DivUnique(n * v, n, v, 0);
    }
  }

  /** A signal that is level within each block is averaged to its levels. */
  lemma DownOfLevels(samples: seq<int>, per: nat, levels: seq<int>)
    requires per > 0 && |levels| * per <= |samples|
    requires forall i, j {:trigger levels[i], samples[j]} :: 0 <= i < |levels| && i * per <= j < i * per + per && j < |samples| ==>
      samples[j] == levels[i]
    ensures Down(samples, per, |levels|) == levels
  {
    forall i: nat | i < |levels|
      ensures Down(samples, per, |levels|)[i] == levels[i]
    {
      MulStep(i, |levels|, per);
      SumOfLevel(samples, i * per, per, levels[i]);
      AverageOfEqual(levels[i], per);
    }
  }

  /** One sample among zeros counts with its share in the block it lies in, and in no other. */
  lemma DownOfImpulse(samples: seq<int>, per: nat, n: nat, at: nat)
    requires per > 0 && n * per <= |samples| && at < |samples|
    requires forall j {:trigger samples[j]} :: 0 <= j < |samples| && j != at ==> samples[j] == 0
    ensures forall i: nat {:trigger Down(samples, per, n)[i]} :: i < n ==>
      Down(samples, per, n)[i] == if i * per <= at < i * per + per then TowardsZero(samples[at], per) else 0
  {
    forall i: nat {:trigger Down(samples, per, n)[i]} | i < n
      ensures Down(samples, per, n)[i] == if i * per <= at < i * per + per then TowardsZero(samples[at], per) else 0
    {
      MulStep(i, n, per);
      SumOfImpulse(samples, i * per, per, at);
      DivUnique(0, per, 0, 0);
    }
  }

  lemma QuotientProduct(a: nat, b: nat)
    requires b > 0
    ensures 0 <= a / b && a / b * b <= a
  {
    DivBounds(a, b);
    if a / b < 0 { MulMono(a / b + 1, 0, b); }
  }

  lemma QuotientAtLeast(a: nat, b: nat, q: nat)
    requires b > 0 && q * b <= a
    ensures q <= a / b
  {
    DivBounds(a, b);
    if a / b < q { MulMono(a / b + 1, q, b); }
  }

  /** Averages `skip` frames at a time into the buffer. */
  method DownSampleInput(buffer: array<int>, samples: seq<int>, maxRequired: nat, channels: nat, skip: nat) returns (n: nat)
    requires skip > 0 && channels > 0 && buffer.Length == maxRequired && |samples| == maxRequired * channels
    modifies buffer
    ensures n == maxRequired / skip <= maxRequired && channels * skip > 0 && n * (channels * skip) <= |samples|
    ensures buffer[..n] == Down(samples, channels * skip, n)
  {
    var per := channels * skip;
    DownFits(maxRequired, channels, skip);
    n := maxRequired / skip;
    var i, at := 0, 0;
    while i < n
      invariant 0 <= i <= n && at == i * per
      invariant forall k {:trigger buffer[k]} :: 0 <= k < i ==> buffer[k] == Down(samples, per, n)[k]
    {
      var value, j := 0, 0;
      MulStep(i, n, per);
      while j < per
        invariant 0 <= j <= per && value == Sum(samples, i * per, j) && at == i * per + j
      {
        value := value + samples[at];
        at := at + 1;
        j := j + 1;
      }
      buffer[i] := TowardsZero(value, per);
      i := i + 1;
    }
  }

  lemma DownFits(maxRequired: nat, channels: nat, skip: nat)
    requires skip > 0 && channels > 0
    ensures channels * skip > 0 && 0 <= maxRequired / skip <= maxRequired
    ensures maxRequired / skip * (channels * skip) <= maxRequired * channels
  {
    QuotientProduct(maxRequired, skip);
    var q := maxRequired / skip;
    MulMono(1, skip, q);
    assert q * skip == skip * q;
    MulMono(1, channels, skip);
    MulMono(q * skip, maxRequired, channels);
    assert q * (channels * skip) == q * skip * channels;
  }

  // ---- the search ----

  function ComputeSkip(sampleRate: nat, quality: nat): nat {
    if sampleRate > AMDF_FREQ && quality == 0 then sampleRate / AMDF_FREQ else 1
  }

  /** The signal the fine search runs on: the samples themselves, or their average over the channels. */
  function Signal(samples: seq<int>, channels: nat, maxRequired: nat): seq<int>
    requires channels > 0 && |samples| == maxRequired * channels
  {
    if channels == 1 then samples else Down(samples, channels, maxRequired)
  }

  /** The range of the fine search around a coarse period. */
  function FineLow(period: int, skip: nat, minPeriod: nat): nat {
    if period - 4 * skip < minPeriod then minPeriod else period - 4 * skip
  }

  function FineHigh(period: int, skip: nat, maxPeriod: nat): int {
    if period + 4 * skip > maxPeriod then maxPeriod else period + 4 * skip
  }

  /** The coarse range has periods in it, reads no further than the buffer goes, and any coarse period
      leaves a fine range inside the allowed one. */
  lemma CoarseRange(sampleRate: nat, skip: nat)
    requires 1000 <= sampleRate && skip > 0 && (skip == 1 || skip * AMDF_FREQ <= sampleRate)
    ensures var lo, hi := sampleRate / MAX_PITCH, sampleRate / MIN_PITCH;
            1 <= lo / skip <= hi / skip && 0 <= 2 * (hi / skip) <= 2 * hi / skip
  {
    var lo, hi := sampleRate / MAX_PITCH, sampleRate / MIN_PITCH;
    assert 10 * skip <= lo || skip == 1;
    QuotientProduct(lo, skip);
    QuotientProduct(hi, skip);
    QuotientAtLeast(lo, skip, 1);
    QuotientAtLeast(hi, skip, lo / skip);
    assert 2 * (hi / skip) * skip == 2 * (hi / skip * skip);
    QuotientAtLeast(2 * hi, skip, 2 * (hi / skip));
  }

  lemma FineRange(lo: nat, hi: nat, skip: nat, coarse: nat)
    requires skip > 0 && 1 <= lo <= hi && lo / skip <= coarse <= hi / skip
    ensures 1 <= lo <= FineLow(coarse * skip, skip, lo) <= FineHigh(coarse * skip, skip, hi) <= hi
  {
    QuotientProduct(hi, skip);
    DivBounds(lo, skip);
    MulMono(coarse, hi / skip, skip);
    MulMono(lo / skip + 1, coarse + 1, skip);
    assert (coarse + 1) * skip == coarse * skip + skip;
  }

  /** `period` is the least best one in a range that the signal is long enough for. */
  ghost predicate BestIn(signal: seq<int>, lo: nat, hi: int, period: nat) {
    0 <= hi && 2 * hi <= |signal| && LeastBest(signal, lo, hi, period)
  }

  /** The down-sampled signal of the coarse search. */
  function Coarse(samples: seq<int>, channels: nat, skip: nat, maxRequired: nat): seq<int>
    requires channels > 0 && skip > 0 && |samples| == maxRequired * channels
  {
    DownFits(maxRequired, channels, skip);
    Down(samples, channels * skip, maxRequired / skip)
  }

  /** The range `period` is searched in. */
  function SearchLow(skip: nat, lo: nat, coarse: nat): nat {
    if skip == 1 then lo else FineLow(coarse * skip, skip, lo)
  }

  function SearchHigh(skip: nat, hi: nat, coarse: nat): int {
    if skip == 1 then hi else FineHigh(coarse * skip, skip, hi)
  }

  /** What the searches find: `period` is the least best one of the whole range or, when samples are
      skipped, of the fine range around the least best coarse one. */
  ghost predicate Searched(samples: seq<int>, channels: nat, skip: nat, lo: nat, hi: nat, coarse: nat, period: nat)
    requires channels > 0 && skip > 0 && |samples| == 2 * hi * channels
  {
    && (skip != 1 ==> BestIn(Coarse(samples, channels, skip, 2 * hi), CoarseBound(lo, skip), CoarseBound(hi, skip), coarse))
    && BestIn(Signal(samples, channels, 2 * hi), SearchLow(skip, lo, coarse), SearchHigh(skip, hi, coarse), period)
  }

  /** The average difference of a period, rounded down. */
  function AverageDiff(signal: seq<int>, period: nat): int {
    if period > 0 && 2 * period <= |signal| then Amdf(signal, period) / period else 0
  }

  /** `maxDiff` is the greatest average difference of the range, rounded down. */
  ghost predicate GreatestIn(signal: seq<int>, lo: nat, hi: int, maxDiff: int) {
    0 <= hi && 2 * hi <= |signal| && exists d: nat, worst: nat {:trigger Greatest(signal, lo, hi, d, worst)} ::
      Greatest(signal, lo, hi, d, worst) && maxDiff == d / worst
  }

  function CoarseBound(period: nat, skip: nat): nat
    requires skip > 0
  {
    QuotientProduct(period, skip);
    period / skip
  }

  /** The previous estimate is kept when this one matches clearly worse. */
  predicate PrevPeriodBetter(prevPeriod: nat, prevMinDiff: int, minDiff: int, maxDiff: int, preferNewPeriod: bool) {
    if minDiff == 0 || prevPeriod == 0 then false
    else if preferNewPeriod then
      if maxDiff > minDiff * 3 then false
      else if minDiff * 2 <= prevMinDiff * 3 then false
      else true
    else minDiff > prevMinDiff
  }

  /** What the rule decides: without the preference the previous period is kept when the new one matches worse;
      with it, only when moreover no period of the range matches clearly worse than this one and this one
      matches half as bad again as the previous. */
  lemma KeptIff(prevPeriod: nat, prevMinDiff: int, minDiff: int, maxDiff: int, preferNewPeriod: bool)
    requires prevMinDiff >= 0 && minDiff >= 0
    ensures prevPeriod == 0 ==> !PrevPeriodBetter(prevPeriod, prevMinDiff, minDiff, maxDiff, preferNewPeriod)
    ensures prevPeriod != 0 && !preferNewPeriod ==>
      (PrevPeriodBetter(prevPeriod, prevMinDiff, minDiff, maxDiff, preferNewPeriod) <==> minDiff > prevMinDiff)
    ensures prevPeriod != 0 && preferNewPeriod ==>
      (PrevPeriodBetter(prevPeriod, prevMinDiff, minDiff, maxDiff, preferNewPeriod) <==>
         maxDiff <= 3 * minDiff && 2 * minDiff > 3 * prevMinDiff)
    ensures PrevPeriodBetter(prevPeriod, prevMinDiff, minDiff, maxDiff, true) ==>
      PrevPeriodBetter(prevPeriod, prevMinDiff, minDiff, maxDiff, false)
  {
  }

  lemma AverageNonNegative(signal: seq<int>, period: nat)
    ensures AverageDiff(signal, period) >= 0
  {
    hide Amdf;
    if period > 0 && 2 * period <= |signal| { QuotientProduct(Amdf(signal, period), period); }
  }

  class Tracker {
    const sampleRate: nat
    const numChannels: nat
    const quality: nat
    const minPeriod: nat
    const maxPeriod: nat
    const maxRequired: nat
    const downSampleBuffer: array<int>
    var prevPeriod: nat
    var prevMinDiff: int

    constructor (sampleRate: nat, numChannels: nat, quality: nat)
      requires 1000 <= sampleRate <= 500000 && 1 <= numChannels <= 32
      ensures Valid() && prevPeriod == 0 && fresh(downSampleBuffer)
      ensures this.sampleRate == sampleRate && this.numChannels == numChannels && this.quality == quality
      ensures minPeriod * 400 <= sampleRate < (minPeriod + 1) * 400 && maxPeriod * 65 <= sampleRate < (maxPeriod + 1) * 65
    {
      this.sampleRate, this.numChannels, this.quality := sampleRate, numChannels, quality;
      minPeriod, maxPeriod := sampleRate / MAX_PITCH, sampleRate / MIN_PITCH;
      maxRequired := 2 * (sampleRate / MIN_PITCH);
      downSampleBuffer := new int[2 * (sampleRate / MIN_PITCH)](_ => 0);
      prevPeriod, prevMinDiff := 0, 0;
    }

    /** The previous period is absent or one that the search may return. */
    ghost predicate Valid()
      reads this
    {
      && 1000 <= sampleRate <= 500000 && 1 <= numChannels <= 32
      && minPeriod == sampleRate / MAX_PITCH && maxPeriod == sampleRate / MIN_PITCH && maxRequired == 2 * maxPeriod
      && downSampleBuffer.Length == maxRequired
      && (prevPeriod == 0 || minPeriod <= prevPeriod <= maxPeriod) && prevMinDiff >= 0
    }

    /** The best period of the signal in a range. */
    method Fine(samples: seq<int>, lo: nat, hi: nat) returns (period: nat, minDiff: int, maxDiff: int)
      requires Valid() && |samples| == maxRequired * numChannels && 1 <= lo <= hi <= maxPeriod
      modifies downSampleBuffer
      ensures lo <= period <= hi && BestIn(Signal(samples, numChannels, maxRequired), lo, hi, period)
      ensures minDiff == AverageDiff(Signal(samples, numChannels, maxRequired), period)
      ensures GreatestIn(Signal(samples, numChannels, maxRequired), lo, hi, maxDiff)
    {
      hide Amdf, Greatest, Down;
      ghost var worst, greatest;
      if numChannels == 1 {
        period, minDiff, maxDiff, worst, greatest := FindPitchPeriodInRange(samples, lo, hi);
      } else {
        var n := DownSampleInput(downSampleBuffer, samples, maxRequired, numChannels, 1);
        period, minDiff, maxDiff, worst, greatest := FindPitchPeriodInRange(downSampleBuffer[..n], lo, hi);
      }
    }

    /** The best coarse period. */
    method CoarsePeriod(samples: seq<int>, skip: nat) returns (period: nat)
      requires Valid() && |samples| == maxRequired * numChannels && skip > 0 && (skip == 1 || skip * AMDF_FREQ <= sampleRate)
      modifies downSampleBuffer
      ensures CoarseBound(minPeriod, skip) <= period <= CoarseBound(maxPeriod, skip)
      ensures BestIn(Coarse(samples, numChannels, skip, maxRequired), CoarseBound(minPeriod, skip), CoarseBound(maxPeriod, skip), period)
    {
      hide Amdf, Greatest, Down;
      CoarseRange(sampleRate, skip);
      var n := DownSampleInput(downSampleBuffer, samples, maxRequired, numChannels, skip);
      ghost var worst, greatest;
      var minDiff, maxDiff;
      period, minDiff, maxDiff, worst, greatest :=
        FindPitchPeriodInRange(downSampleBuffer[..n], minPeriod / skip, maxPeriod / skip);
    }

    /** The pitch period of the first `maxRequired` frames.  Over every run it lies in the allowed range:
        it is the period just found or, when that matches clearly worse, the one found before. */
    method FindPitchPeriod(samples: seq<int>, preferNewPeriod: bool)
      returns (retPeriod: nat, ghost coarse: nat, ghost greatest: int)
      requires Valid() && |samples| == maxRequired * numChannels
      modifies this, downSampleBuffer
      ensures Valid() && minPeriod <= retPeriod <= maxPeriod && minPeriod <= prevPeriod <= maxPeriod
      ensures var skip := ComputeSkip(sampleRate, quality);
              && Searched(samples, numChannels, skip, minPeriod, maxPeriod, coarse, prevPeriod)
              && GreatestIn(Signal(samples, numChannels, maxRequired), SearchLow(skip, minPeriod, coarse),
                            SearchHigh(skip, maxPeriod, coarse), greatest)
      ensures prevMinDiff == AverageDiff(Signal(samples, numChannels, maxRequired), prevPeriod)
      ensures old(prevPeriod) == 0 ==> retPeriod == prevPeriod
      ensures old(prevPeriod) != 0 && !preferNewPeriod ==>
        retPeriod == if prevMinDiff > old(prevMinDiff) then old(prevPeriod) else prevPeriod
      ensures old(prevPeriod) != 0 && preferNewPeriod ==>
        retPeriod == if greatest <= 3 * prevMinDiff && 2 * prevMinDiff > 3 * old(prevMinDiff) then old(prevPeriod) else prevPeriod
    {
      hide BestIn, GreatestIn, AverageDiff, Signal, Coarse, FineLow, FineHigh;
      var skip := ComputeSkip(sampleRate, quality);
      SkipFits(sampleRate, quality);
      var period, minDiff, maxDiff;
      coarse := 0;
      if skip == 1 {
        period, minDiff, maxDiff := Fine(samples, minPeriod, maxPeriod);
      } else {
        var rough := CoarsePeriod(samples, skip);
        coarse := rough;
        FineRange(minPeriod, maxPeriod, skip, rough);
        period, minDiff, maxDiff :=
          Fine(samples, FineLow(rough * skip, skip, minPeriod), FineHigh(rough * skip, skip, maxPeriod));
      }
      AverageNonNegative(Signal(samples, numChannels, maxRequired), period);
      KeptIff(prevPeriod, prevMinDiff, minDiff, maxDiff, preferNewPeriod);
      retPeriod := if PrevPeriodBetter(prevPeriod, prevMinDiff, minDiff, maxDiff, preferNewPeriod) then prevPeriod else period;
      prevMinDiff := minDiff;
      prevPeriod := period;
      greatest := maxDiff;
    }
  }

  /** Samples are skipped only above 4000 a second and at the lower quality; then 4000 or a few more remain. */
  lemma SkipRate(sampleRate: nat, quality: nat)
    requires 1000 <= sampleRate
    ensures var skip := ComputeSkip(sampleRate, quality);
            if sampleRate > 4000 && quality == 0 then skip * 4000 <= sampleRate < (skip + 1) * 4000 else skip == 1
  {
  }

  /** The fine range holds exactly the allowed periods that lie within four coarse steps. */
  lemma FineRangeIs(coarse: nat, skip: nat, lo: nat, hi: nat, p: int)
    requires skip > 0 && lo <= hi
    ensures FineLow(coarse * skip, skip, lo) <= p <= FineHigh(coarse * skip, skip, hi) <==>
      lo <= p <= hi && (coarse - 4) * skip <= p <= (coarse + 4) * skip
  {
    assert (coarse - 4) * skip == coarse * skip - 4 * skip;
    assert (coarse + 4) * skip == coarse * skip + 4 * skip;
  }

  lemma SkipFits(sampleRate: nat, quality: nat)
    requires 1000 <= sampleRate
    ensures var skip := ComputeSkip(sampleRate, quality); skip > 0 && (skip == 1 || skip * AMDF_FREQ <= sampleRate)
    ensures 1 <= sampleRate / MAX_PITCH <= sampleRate / MIN_PITCH
  {
  }
}
