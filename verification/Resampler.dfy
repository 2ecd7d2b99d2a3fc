/** The rational resampler of the time-stretch engine: 12-point interpolation with clipping, and positions
    that persist from one block of samples to the next. */
module Resampler {
  import opened Bits

  const SINC_FILTER_POINTS: nat := 12
  const SINC_TABLE_SIZE: nat := 601
  const LOBE_POINTS: nat := 50
  const WORD: int := 0x1_0000_0000
  const HALF_WORD: int := 0x8000_0000
  const MAX_RATE: nat := 16384

  predicate Short(v: int) { -32768 <= v <= 32767 }

  /** A table of the windowed sinc function; its values are not part of this model. */
  ghost predicate TableOk(table: seq<int>) {
    |table| == SINC_TABLE_SIZE && forall i {:trigger table[i]} :: 0 <= i < |table| ==> -32767 <= table[i] <= 32767
  }

  function TowardsZero(a: int, b: int): int
    requires b > 0
  {
    if a < 0 then -((-a) / b) else a / b
  }

  /** C's division drops the fraction: the greatest magnitude that fits, with the sign of the dividend. */
  lemma DropsFraction(v: int, w: int)
    requires w > 0
    ensures var r := TowardsZero(v, w);
            if v >= 0 then r >= 0 && r * w <= v < (r + 1) * w else r <= 0 && (r - 1) * w < v <= r * w
  {
    var a := if v < 0 then -v else v;
    DivBounds(a, w);
    var q := a / w;
    if q < 0 { MulMono(q + 1, 0, w); }
    assert -q * w == -(q * w) && (-q - 1) * w == -((q + 1) * w);
  }

  // ---- coefficients ----

  /** Where the coefficient of tap `i` lies in the table, for a fraction `ratio` / `width` of a sample. */
  function TableIndex(i: nat, ratio: nat, width: nat): int
    requires width > 0
  {
    i * LOBE_POINTS + ratio * LOBE_POINTS / width
  }

  lemma IndexInTable(i: nat, ratio: nat, width: nat)
    requires i < SINC_FILTER_POINTS && ratio < width
    ensures i * LOBE_POINTS <= TableIndex(i, ratio, width) && TableIndex(i, ratio, width) + 1 <= 600
    ensures 0 <= i * LOBE_POINTS * width + ratio * LOBE_POINTS - TableIndex(i, ratio, width) * width < width
  {
    var a: nat := ratio * LOBE_POINTS;
    DivBounds(a, width);
    var q := a / width;
    if q >= LOBE_POINTS { MulMono(LOBE_POINTS, q, width); }
    if q < 0 { MulMono(q + 1, 0, width); }
    assert (i * LOBE_POINTS + q) * width == i * LOBE_POINTS * width + q * width;
    assert (q + 1) * width == q * width + width;
  }

  /** The windowed sinc function at tap `i`, interpolated between two table entries. */
  function SincCoefficient(table: seq<int>, i: nat, ratio: nat, width: nat): int
    requires TableOk(table) && i < SINC_FILTER_POINTS && ratio < width
  {
    IndexInTable(i, ratio, width);
    var left := TableIndex(i, ratio, width);
    var position := i * LOBE_POINTS * width + ratio * LOBE_POINTS - left * width;
    TowardsZero((table[left] * (width - position) + table[left + 1] * position) * 2, width)
  }

  lemma ExactTruncation(v: int, w: int)
    requires w > 0
    ensures TowardsZero(v * w, w) == v
  {
    DropsFraction(v * w, w);
    var r := TowardsZero(v * w, w);
    if v * w >= 0 {
      if r < v { MulMono(r + 1, v, w); }
      if r > v { MulStep(v, r, w); }
    } else {
      if r > v { MulMono(v, r - 1, w); }
      if r < v { MulStep(r, v, w); }
    }
  }

  /** Where the fraction falls on a table entry, the coefficient is twice that entry. */
  lemma CoefficientAtEntry(table: seq<int>, i: nat, ratio: nat, width: nat, k: nat)
    requires TableOk(table) && i < SINC_FILTER_POINTS && ratio < width && ratio * 50 == k * width
    ensures i * 50 + k < 601 && SincCoefficient(table, i, ratio, width) == 2 * table[i * 50 + k]
  {
    hide TowardsZero;
    IndexInTable(i, ratio, width);
    DivUniqueLeft(ratio * 50, width, k, 0);
    var left := i * 50 + k;
    assert TableIndex(i, ratio, width) == left;
    assert left * width == i * 50 * width + k * width;
    var v := table[left] * (width - 0) + table[left + 1] * 0;
    assert v == table[left] * width;
    assert v * 2 == (2 * table[left]) * width;
    ExactTruncation(2 * table[left], width);
  }

  /** Between entries the coefficient is interpolated: a table on a line gives the line's value, doubled, at the
      place of the tap. */
  lemma CoefficientOnLine(table: seq<int>, i: nat, ratio: nat, width: nat, c: int, d: int)
    requires TableOk(table) && i < SINC_FILTER_POINTS && ratio < width
    requires forall j {:trigger table[j]} :: 0 <= j < |table| ==> table[j] == c * j + d
    ensures SincCoefficient(table, i, ratio, width) == TowardsZero(2 * (c * (50 * (i * width + ratio)) + d * width), width)
  {
    hide TowardsZero, TableIndex;
    IndexInTable(i, ratio, width);
    var left := TableIndex(i, ratio, width);
    var position := i * LOBE_POINTS * width + ratio * LOBE_POINTS - left * width;
    assert table[left + 1] == table[left] + c by { assert c * (left + 1) == c * left + c; }
    OnLine(table[left], c, width, position);
    LineSum(c, d, left, width, position);
    assert i * LOBE_POINTS * width == 50 * (i * width);
  }

  lemma OnLine(l: int, c: int, w: int, p: int)
    ensures l * (w - p) + (l + c) * p == l * w + c * p
  {
    assert l * (w - p) == l * w - l * p;
    assert (l + c) * p == l * p + c * p;
  }

  lemma LineSum(c: int, d: int, left: int, w: int, p: int)
    ensures (c * left + d) * w + c * p == c * (left * w + p) + d * w
  {
    assert (c * left + d) * w == c * left * w + d * w;
    assert c * (left * w + p) == c * (left * w) + c * p;
    assert c * left * w == c * (left * w);
  }

  lemma WeightedBound(l: int, r: int, w: int, p: int)
    requires -32767 <= l <= 32767 && -32767 <= r <= 32767 && 0 <= p < w
    ensures -32767 * w <= l * (w - p) + r * p <= 32767 * w
  {
    MulMono(l, 32767, w - p);
    MulMono(r, 32767, p);
    MulMono(-32767, l, w - p);
    MulMono(-32767, r, p);
  }

  lemma TruncBound(v: int, b: int, w: int)
    requires w > 0 && b >= 0 && -b * w <= v <= b * w
    ensures -b <= TowardsZero(v, w) <= b
  {
    var a := if v < 0 then -v else v;
    assert -b * w == -(b * w);
    DivBounds(a, w);
    if a / w > b { MulMono(b + 1, a / w, w); MulStep(b, b + 1, w); }
    if a / w < 0 { MulMono(a / w + 1, 0, w); }
  }

  /** A coefficient has 17 bits, so a tap's product fits a 32-bit word. */
  lemma CoefficientBound(table: seq<int>, i: nat, ratio: nat, width: nat)
    requires TableOk(table) && i < SINC_FILTER_POINTS && ratio < width
    ensures -65534 <= SincCoefficient(table, i, ratio, width) <= 65534
  {
    hide TableIndex, TowardsZero;
    IndexInTable(i, ratio, width);
    var left := TableIndex(i, ratio, width);
    var position := i * LOBE_POINTS * width + ratio * LOBE_POINTS - left * width;
    WeightedBound(table[left], table[left + 1], width, position);
    TruncBound((table[left] * (width - position) + table[left + 1] * position) * 2, 65534, width);
  }

  lemma ProductFits(v: int, c: int)
    requires Short(v) && -65534 <= c <= 65534
    ensures -HALF_WORD < v * c < HALF_WORD
  {
    if c >= 0 {
      MulMono(v, 32767, c);
      MulMono(-32768, v, c);
    } else {
      MulMono(v, 32767, -c);
      MulMono(-32768, v, -c);
      assert v * -c == -(v * c);
    }
  }

  // ---- the sum ----

  /** The filter's exact sum over the first `k` taps. */
  function SincSum(table: seq<int>, samples: seq<int>, ratio: nat, width: nat, k: nat): int
    requires TableOk(table) && k <= SINC_FILTER_POINTS <= |samples| && ratio < width
  {
    if k == 0 then 0
    else SincSum(table, samples, ratio, width, k - 1) + samples[k - 1] * SincCoefficient(table, k - 1, ratio, width)
  }

  /** One sample among zeros is weighted with the coefficient of the tap it lies under. */
  lemma {:induction false} SumOfImpulse(table: seq<int>, samples: seq<int>, ratio: nat, width: nat, k: nat, at: nat)
    requires TableOk(table) && k <= SINC_FILTER_POINTS <= |samples| && ratio < width && at < SINC_FILTER_POINTS
    requires forall i {:trigger samples[i]} :: 0 <= i < |samples| && i != at ==> samples[i] == 0
    ensures SincSum(table, samples, ratio, width, k) == if at < k then samples[at] * SincCoefficient(table, at, ratio, width) else 0
  {
    hide SincCoefficient;
    if k > 0 {
      SumOfImpulse(table, samples, ratio, width, k - 1, at);
      assert 0 * SincCoefficient(table, k - 1, ratio, width) == 0;
    }
  }

  /** 32-bit addition wraps around. */
  function Wrap32(v: int): int {
    if v >= HALF_WORD then v - WORD else if v < -HALF_WORD then v + WORD else v
  }

  function Sign(v: int): int { if v >= 0 then 1 else -1 }

  function Clip(v: int): int { if v > 32767 then 32767 else if v < -32768 then -32768 else v }

  /** The wrapped total together with the overflow count is the exact sum. */
  predicate Tracks(exact: int, total: int, overflow: int) {
    -HALF_WORD <= total < HALF_WORD && exact == total + WORD * overflow
  }

  lemma TrackNext(exact: int, total: int, overflow: int, value: int)
    requires Tracks(exact, total, overflow) && -HALF_WORD < value < HALF_WORD
    ensures var total' := Wrap32(total + value);
            Tracks(exact + value, total',
                   if Sign(total) != Sign(total') && Sign(value) == Sign(total) then overflow + Sign(total) else overflow)
  {
  }

  /** Clips instead of wrapping: the result is the exact sum, scaled and clipped to 16 bits. */
  method Interpolate(table: seq<int>, samples: seq<int>, ratio: nat, width: nat) returns (r: int)
    requires TableOk(table) && |samples| >= SINC_FILTER_POINTS && ratio < width
    requires forall i {:trigger samples[i]} :: 0 <= i < |samples| ==> Short(samples[i])
    ensures r == Clip(SincSum(table, samples, ratio, width, SINC_FILTER_POINTS) / 65536)
  {
    hide SincCoefficient, Wrap32;
    var total, overflowCount, i := 0, 0, 0;
    while i < SINC_FILTER_POINTS
      invariant 0 <= i <= SINC_FILTER_POINTS
      invariant Tracks(SincSum(table, samples, ratio, width, i), total, overflowCount)
    {
      var weight := SincCoefficient(table, i, ratio, width);
      CoefficientBound(table, i, ratio, width);
      var value := samples[i] * weight;
      ProductFits(samples[i], weight);
      var oldSign := Sign(total);
      TrackNext(SincSum(table, samples, ratio, width, i), total, overflowCount, value);
      total := Wrap32(total + value);
      if oldSign != Sign(total) && Sign(value) == oldSign { overflowCount := overflowCount + oldSign; }
      i := i + 1;
    }
    if overflowCount > 0 {
      r := 32767;
    } else if overflowCount < 0 {
      r := -32768;
    } else {
      r := total / 65536;
    }
  }
}
