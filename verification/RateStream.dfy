/** Changing the rate of a stream of samples, block by block. */
module RateStream {
  import opened Bits
  import opened Resampler

  type Frame = seq<int>

  ghost predicate FramesOk(xs: seq<Frame>, channels: nat) {
    forall k {:trigger xs[k]} :: 0 <= k < |xs| ==>
      |xs[k]| == channels && forall c {:trigger xs[k][c]} :: 0 <= c < channels ==> Short(xs[k][c])
  }

  function CeilDiv(a: nat, b: nat): int
    requires b > 0
  {
    (a + b - 1) / b
  }

  lemma CeilBounds(a: nat, b: nat)
    requires b > 0
    ensures a <= CeilDiv(a, b) * b < a + b && CeilDiv(a, b) >= 0
  {
    DivBounds(a + b - 1, b);
    var q := CeilDiv(a, b);
    assert (q + 1) * b == q * b + b;
    if q < 0 { MulMono(q + 1, 0, b); }
  }

  lemma CeilIs(a: nat, b: nat, q: int)
    requires b > 0 && a <= q * b < a + b
    ensures CeilDiv(a, b) == q
  {
    CeilBounds(a, b);
    var p := CeilDiv(a, b);
    if p < q { MulStep(p, q, b); }
    if q < p { MulStep(q, p, b); }
  }

  // ---- what the output should be ----

  /** Twelve successive samples of one channel. */
  function Column(xs: seq<Frame>, k: nat, c: nat): (r: seq<int>)
    requires k + SINC_FILTER_POINTS <= |xs| && forall j {:trigger xs[j]} :: k <= j < |xs| ==> c < |xs[j]|
    ensures |r| == SINC_FILTER_POINTS
  {
    seq(SINC_FILTER_POINTS, i requires 0 <= i < SINC_FILTER_POINTS => xs[k + i][c])
  }

  /** The input frame that output frame `t` falls behind. */
  function FrameOf(t: nat, newRate: nat, oldRate: nat): int
    requires newRate > 0
  {
    t * oldRate / newRate
  }

  /** How far output frame `t` is from the end of its input frame. */
  function RatioOf(t: nat, newRate: nat, oldRate: nat): int
    requires newRate > 0
  {
    (FrameOf(t, newRate, oldRate) + 1) * newRate - t * oldRate - 1
  }

  lemma RatioInRange(t: nat, newRate: nat, oldRate: nat)
    requires newRate > 0
    ensures FrameOf(t, newRate, oldRate) >= 0 && 0 <= RatioOf(t, newRate, oldRate) < newRate
  {
    assert t * oldRate >= 0 by { MulMono(0, t, oldRate); assert 0 * oldRate == 0; }
    DivBounds(t * oldRate, newRate);
    var q := FrameOf(t, newRate, oldRate);
    assert (q + 1) * newRate == q * newRate + newRate;
    if q < 0 { MulMono(q + 1, 0, newRate); }
  }

  /** Frame `t` of the resampled signal, a function of the whole input alone. */
  function OutFrame(table: seq<int>, xs: seq<Frame>, t: nat, newRate: nat, oldRate: nat, channels: nat): (f: Frame)
    requires TableOk(table) && newRate > 0 && FramesOk(xs, channels)
    requires FrameOf(t, newRate, oldRate) + SINC_FILTER_POINTS <= |xs|
    ensures |f| == channels
  {
    RatioInRange(t, newRate, oldRate);
    seq(channels, c requires 0 <= c < channels =>
      Clip(SincSum(table, Column(xs, FrameOf(t, newRate, oldRate), c), RatioOf(t, newRate, oldRate), newRate, SINC_FILTER_POINTS) / 65536))
  }

  /** More input behind the twelve samples changes nothing. */
  lemma OutFrameOfPrefix(table: seq<int>, xs: seq<Frame>, ys: seq<Frame>, t: nat, newRate: nat, oldRate: nat, channels: nat)
    requires TableOk(table) && newRate > 0 && FramesOk(xs, channels) && FramesOk(ys, channels) && xs <= ys
    requires FrameOf(t, newRate, oldRate) + SINC_FILTER_POINTS <= |xs|
    ensures OutFrame(table, ys, t, newRate, oldRate, channels) == OutFrame(table, xs, t, newRate, oldRate, channels)
  {
    hide SincSum, FrameOf, RatioOf;
    RatioInRange(t, newRate, oldRate);
    forall c | 0 <= c < channels
      ensures Column(ys, FrameOf(t, newRate, oldRate), c) == Column(xs, FrameOf(t, newRate, oldRate), c)
    {
    }
  }

  /** The answer to an impulse: output frame `t` is the sample times the coefficient of the tap it lies under,
      counted from the input frame that `t` falls behind, and scaled; 0 when it lies under none. */
  lemma OutFrameOfImpulse(table: seq<int>, xs: seq<Frame>, t: nat, newRate: nat, oldRate: nat, channels: nat, c: nat, at: nat)
    requires TableOk(table) && newRate > 0 && FramesOk(xs, channels) && c < channels && at < |xs|
    requires t * oldRate / newRate + 12 <= |xs|
    requires forall k {:trigger xs[k]} :: 0 <= k < |xs| && k != at ==> xs[k][c] == 0
    ensures var q := t * oldRate / newRate;
            q >= 0 && 0 <= (q + 1) * newRate - t * oldRate - 1 < newRate
            && OutFrame(table, xs, t, newRate, oldRate, channels)[c] ==
                 if q <= at < q + 12
                 then Clip(xs[at][c] * SincCoefficient(table, at - q, (q + 1) * newRate - t * oldRate - 1, newRate) / 65536)
                 else 0
  {
    hide SincCoefficient;
    RatioInRange(t, newRate, oldRate);
    var q, ratio := FrameOf(t, newRate, oldRate), RatioOf(t, newRate, oldRate);
    var col := Column(xs, q, c);
    if q <= at < q + 12 {
      SumOfImpulse(table, col, ratio, newRate, SINC_FILTER_POINTS, at - q);
    } else {
      SumOfSilence(table, col, ratio, newRate, SINC_FILTER_POINTS);
    }
  }

  lemma SumOfSilence(table: seq<int>, samples: seq<int>, ratio: nat, width: nat, k: nat)
    requires TableOk(table) && k <= SINC_FILTER_POINTS <= |samples| && ratio < width
    requires forall i {:trigger samples[i]} :: 0 <= i < |samples| ==> samples[i] == 0
    ensures SincSum(table, samples, ratio, width, k) == 0
  {
    hide SincCoefficient;
    SumOfImpulse(table, samples, ratio, width, k, 0);
    assert 0 * SincCoefficient(table, 0, ratio, width) == 0;
  }

  /** How many output frames `k` input frames give. */
  function Outputs(k: nat, newRate: nat, oldRate: nat): (t: int)
    requires oldRate > 0
    ensures t >= 0
  {
    MulNonNegative(k, newRate);
    CeilBounds(k * newRate, oldRate);
    CeilDiv(k * newRate, oldRate)
  }

  lemma MulNonNegative(a: nat, b: nat)
    ensures a * b >= 0
  {
  }

  /** Conservation: every `oldRate` input frames give exactly `newRate` output frames, wherever they start. */
  lemma Conservation(k: nat, newRate: nat, oldRate: nat)
    requires oldRate > 0
    ensures Outputs(k + oldRate, newRate, oldRate) == Outputs(k, newRate, oldRate) + newRate
  {
    var q := Outputs(k, newRate, oldRate);
    CeilBounds(k * newRate, oldRate);
    assert (k + oldRate) * newRate == k * newRate + newRate * oldRate;
    assert (q + newRate) * oldRate == q * oldRate + newRate * oldRate;
    CeilIs((k + oldRate) * newRate, oldRate, q + newRate);
  }

  // ---- positions ----

  /** The positions belong to input frame `k`: they count from the last multiple of `oldRate` frames. */
  ghost predicate InStep(op: nat, np: nat, k: nat, newRate: nat, oldRate: nat) {
    oldRate > 0 && op == k % oldRate && np == CeilDiv(op * newRate, oldRate)
  }

  /** Output frames made before the last reset of the positions. */
  function Base(k: nat, newRate: nat, oldRate: nat): nat
    requires oldRate > 0
  {
    k / oldRate * newRate
  }

  /** Positions relative to the last reset measure the same distance as absolute ones. */
  lemma SameDistance(op: nat, np: nat, k: nat, newRate: nat, oldRate: nat)
    requires oldRate > 0 && op == k % oldRate
    ensures (Base(k, newRate, oldRate) + np) * oldRate - k * newRate == np * oldRate - op * newRate
  {
    var c := k / oldRate;
    assert k == c * oldRate + op;
    assert (c * newRate + np) * oldRate == c * newRate * oldRate + np * oldRate;
    assert (c * oldRate + op) * newRate == c * oldRate * newRate + op * newRate;
    assert c * newRate * oldRate == c * oldRate * newRate;
  }

  lemma InStepOutputs(op: nat, np: nat, k: nat, newRate: nat, oldRate: nat)
    requires InStep(op, np, k, newRate, oldRate)
    ensures Base(k, newRate, oldRate) + np == Outputs(k, newRate, oldRate)
  {
    SameDistance(op, np, k, newRate, oldRate);
    CeilBounds(op * newRate, oldRate);
    MulNonNegative(k, newRate);
    hide CeilDiv, Base;
    CeilIs(k * newRate, oldRate, Base(k, newRate, oldRate) + np);
  }

  /** When no output is left to make for a frame, the positions belong to the next one; at the end of a
      period both start over. */
  lemma InStepNext(op: nat, np: nat, k: nat, newRate: nat, oldRate: nat)
    requires oldRate > 0 && op == k % oldRate
    requires (op + 1) * newRate <= np * oldRate < (op + 1) * newRate + oldRate
    ensures if op + 1 == oldRate then InStep(0, 0, k + 1, newRate, oldRate) && np == newRate
            else InStep(op + 1, np, k + 1, newRate, oldRate)
  {
    CeilIs((op + 1) * newRate, oldRate, np);
    if op + 1 == oldRate {
      assert oldRate * newRate == newRate * oldRate;
      CeilIs(oldRate * newRate, oldRate, newRate);
      assert 0 * newRate == 0 && 0 * oldRate == 0;
      CeilIs(0, oldRate, 0);
      DivUnique(k + 1, oldRate, k / oldRate + 1, 0) by { assert oldRate * (k / oldRate + 1) == oldRate * (k / oldRate) + oldRate; }
    } else {
      DivUnique(k + 1, oldRate, k / oldRate, op + 1);
    }
  }

  /** Inside the loop the interpolation fraction is in range exactly when the new position has not
      fallen behind the old one. */
  lemma RatioInStep(op: nat, np: nat, newRate: nat, oldRate: nat)
    requires (op + 1) * newRate > np * oldRate
    ensures 0 <= (op + 1) * newRate - np * oldRate - 1
    ensures (op + 1) * newRate - np * oldRate - 1 < newRate <==> op * newRate <= np * oldRate
  {
    assert (op + 1) * newRate == op * newRate + newRate;
  }

  /** Position products stay within 2^28, give or take one step. */
  lemma ProductsBounded(op: nat, np: nat, k: nat, newRate: nat, oldRate: nat)
    requires InStep(op, np, k, newRate, oldRate) && newRate <= MAX_RATE && oldRate <= MAX_RATE
    ensures op * newRate <= 0x1000_0000 && (op + 1) * newRate <= 0x1000_0000 && np * oldRate < 0x1000_0000 + MAX_RATE
  {
    CeilBounds(op * newRate, oldRate);
    MulMono(op, oldRate, newRate);
    MulMono(op + 1, oldRate, newRate);
    MulMono(oldRate, MAX_RATE, newRate);
    MulMono(newRate, MAX_RATE, MAX_RATE);
    assert MAX_RATE * newRate == newRate * MAX_RATE;
  }

  // ---- a change of the rates between two frames ----

  /** The positions after one input frame: the new one catches up with the end of the frame, and at the end of
      a period both start over. */
  function NextPositions(op: nat, np: nat, newRate: nat, oldRate: nat): (r: (nat, nat))
    requires oldRate > 0
  {
    MulNonNegative(op + 1, newRate);
    CeilBounds((op + 1) * newRate, oldRate);
    if op + 1 == oldRate then (0, 0)
    else (op + 1, if (op + 1) * newRate > np * oldRate then CeilDiv((op + 1) * newRate, oldRate) else np)
  }

  function Positions(op: nat, np: nat, newRate: nat, oldRate: nat, n: nat): (r: (nat, nat))
    requires oldRate > 0
    decreases n
  {
    if n == 0 then (op, np)
    else
      var p := Positions(op, np, newRate, oldRate, n - 1);
      NextPositions(p.0, p.1, newRate, oldRate)
  }

  /** At fixed rates these are the positions of the stream. */
  lemma PositionsInStep(op: nat, np: nat, k: nat, newRate: nat, oldRate: nat)
    requires InStep(op, np, k, newRate, oldRate)
    ensures var p := NextPositions(op, np, newRate, oldRate); InStep(p.0, p.1, k + 1, newRate, oldRate)
  {
    StartOfFrame(op, np, k, newRate, oldRate);
    var e := (op + 1) * newRate;
    MulNonNegative(op + 1, newRate);
    CeilBounds(e, oldRate);
    if e > np * oldRate {
      InStepNext(op, CeilDiv(e, oldRate), k, newRate, oldRate);
    } else {
      InStepNext(op, np, k, newRate, oldRate);
    }
  }

  /** Every interpolation behind this input frame has its fraction in range. */
  ghost predicate FractionsOk(op: nat, np: nat, newRate: nat, oldRate: nat) {
    forall t: nat {:trigger t * oldRate} :: np <= t && (op + 1) * newRate > t * oldRate ==>
      0 <= (op + 1) * newRate - t * oldRate - 1 < newRate
  }

  lemma FractionsIff(op: nat, np: nat, newRate: nat, oldRate: nat)
    requires newRate > 0
    ensures FractionsOk(op, np, newRate, oldRate) <==> op * newRate <= np * oldRate
  {
    assert (op + 1) * newRate == op * newRate + newRate;
    if op * newRate <= np * oldRate {
      forall t: nat {:trigger t * oldRate} | np <= t && (op + 1) * newRate > t * oldRate
        ensures 0 <= (op + 1) * newRate - t * oldRate - 1 < newRate
      {
        MulMono(np, t, oldRate);
      }
    }
  }

  lemma {:induction false} FractionsStay(op: nat, np: nat, newRate: nat, oldRate: nat, n: nat)
    requires oldRate > 0 && op * newRate <= np * oldRate
    ensures var p := Positions(op, np, newRate, oldRate, n); p.0 * newRate <= p.1 * oldRate
    decreases n
  {
    if n > 0 {
      FractionsStay(op, np, newRate, oldRate, n - 1);
      var p := Positions(op, np, newRate, oldRate, n - 1);
      MulNonNegative(p.0 + 1, newRate);
      CeilBounds((p.0 + 1) * newRate, oldRate);
      assert 0 * newRate == 0 && 0 * oldRate == 0;
    }
  }

  /** Changing the rates between two frames, as setting the pitch does, keeps the fractions of all later
      interpolations in range if and only if the new position, which belongs to the rates before the change,
      has not fallen behind under those after it. */
  lemma PitchChange(op: nat, np: nat, k: nat, newRate0: nat, oldRate0: nat, newRate: nat, oldRate: nat)
    requires InStep(op, np, k, newRate0, oldRate0) && newRate > 0 && oldRate > 0
    ensures (forall n: nat {:trigger Positions(op, np, newRate, oldRate, n)} ::
               var p := Positions(op, np, newRate, oldRate, n); FractionsOk(p.0, p.1, newRate, oldRate))
            <==> op * newRate <= CeilDiv(op * newRate0, oldRate0) * oldRate
  {
    hide FractionsOk, CeilDiv;
    if op * newRate <= np * oldRate {
      forall n: nat {:trigger Positions(op, np, newRate, oldRate, n)}
        ensures var p := Positions(op, np, newRate, oldRate, n); FractionsOk(p.0, p.1, newRate, oldRate)
      {
        FractionsStay(op, np, newRate, oldRate, n);
        var p := Positions(op, np, newRate, oldRate, n);
        FractionsIff(p.0, p.1, newRate, oldRate);
      }
    } else {
      FractionsIff(op, np, newRate, oldRate);
      assert Positions(op, np, newRate, oldRate, 0) == (op, np);
    }
  }

  /** Lowering the new rate, as raising the pitch does, is always safe; so is any change at the start of a
      period. */
  lemma LoweringIsSafe(op: nat, newRate0: nat, newRate: nat, oldRate: nat)
    requires oldRate > 0 && (newRate <= newRate0 || op == 0)
    ensures op * newRate <= CeilDiv(op * newRate0, oldRate) * oldRate
  {
    MulNonNegative(op, newRate0);
    CeilBounds(op * newRate0, oldRate);
    if op == 0 {
      assert 0 * newRate == 0 && 0 * newRate0 == 0;
    } else {
      MulMono(newRate, newRate0, op);
      assert op * newRate == newRate * op && op * newRate0 == newRate0 * op;
    }
  }

  /** After a change the positions start over again if and only if the old one lies inside the period of the
      new rates; otherwise it grows without end. */
  lemma ResetComes(op: nat, np: nat, newRate: nat, oldRate: nat)
    requires oldRate > 0
    ensures op < oldRate <==> exists n: nat :: n > 0 && Positions(op, np, newRate, oldRate, n) == (0, 0)
    ensures op >= oldRate ==> forall n: nat :: Positions(op, np, newRate, oldRate, n).0 == op + n
  {
    hide CeilDiv;
    if op < oldRate {
      CountsUp(op, np, newRate, oldRate, oldRate - op - 1);
      assert Positions(op, np, newRate, oldRate, oldRate - op) == (0, 0);
    } else {
      forall n: nat
        ensures Positions(op, np, newRate, oldRate, n).0 == op + n
      {
        CountsUp(op, np, newRate, oldRate, n);
      }
    }
  }

  lemma {:induction false} CountsUp(op: nat, np: nat, newRate: nat, oldRate: nat, n: nat)
    requires oldRate > 0 && (op + n < oldRate || op >= oldRate)
    ensures Positions(op, np, newRate, oldRate, n).0 == op + n
    decreases n
  {
    hide CeilDiv;
    if n > 0 { CountsUp(op, np, newRate, oldRate, n - 1); }
  }

  // ---- the stream ----

  /** The rates divided down to 14 bits, halving both as often as it takes. */
  method Halve(new0: nat, old0: nat) returns (newRate: nat, oldRate: nat, ghost k: nat)
    requires 1000 <= old0 && new0 <= 400 * old0
    ensures newRate <= MAX_RATE && 0 < oldRate <= MAX_RATE
    ensures newRate == new0 / Pow2(k) && oldRate == old0 / Pow2(k)
    ensures k > 0 ==> new0 / Pow2(k - 1) > MAX_RATE || old0 / Pow2(k - 1) > MAX_RATE
  {
    newRate, oldRate := new0, old0;
    k := 0;
    while newRate > MAX_RATE || oldRate > MAX_RATE
      invariant oldRate > 0 && newRate == new0 / Pow2(k) && oldRate == old0 / Pow2(k)
      invariant k > 0 ==> new0 / Pow2(k - 1) > MAX_RATE || old0 / Pow2(k - 1) > MAX_RATE
      decreases newRate + oldRate
    {
      HalfStays(new0, old0, k);
      newRate, oldRate := newRate / 2, oldRate / 2;
      k := k + 1;
    }
  }

  lemma HalfStays(new0: nat, old0: nat, k: nat)
    requires 1000 <= old0 && new0 <= 400 * old0
    requires new0 / Pow2(k) > MAX_RATE || old0 / Pow2(k) > MAX_RATE
    ensures new0 / Pow2(k) / 2 == new0 / Pow2(k + 1) && old0 / Pow2(k) / 2 == old0 / Pow2(k + 1)
    ensures old0 / Pow2(k) / 2 > 0
  {
    hide Pow2;
    HalfOf(new0, k);
    HalfOf(old0, k);
    var p, q := Pow2(k), old0 / Pow2(k);
    DivBounds(new0, p);
    DivBounds(old0, p);
    if new0 / p > MAX_RATE {
      MulMono(MAX_RATE + 1, new0 / p, p);
      assert 400 * ((q + 1) * p) == (400 * (q + 1)) * p;
      MulCancel(MAX_RATE + 1, 400 * (q + 1), p);
    }
  }

  lemma HalfOf(n: nat, k: nat)
    ensures n / Pow2(k) / 2 == n / Pow2(k + 1) && n / Pow2(k) >= 0
  {
    ShiftNonNegative(n, k);
    HalfQuotient(n, Pow2(k));
  }

  lemma HalfQuotient(n: nat, p: nat)
    requires p > 0
    ensures n / p / 2 == n / (2 * p)
  {
    var q, m := n / p, n % p;
    var h, r := q / 2, q % 2;
    assert p * q == p * (2 * h + r) == 2 * p * h + p * r;
    assert p * r == if r == 0 then 0 else p;
    DivUnique(n, 2 * p, h, p * r + m);
  }

  /** The frames made so far: `T(k0)` to `t`, behind those that were in the buffer. */
  ghost predicate Produced(table: seq<int>, xs: seq<Frame>, newRate: nat, oldRate: nat, channels: nat,
                           before: seq<Frame>, output: seq<Frame>, t0: nat, t: nat)
    requires TableOk(table) && FramesOk(xs, channels)
  {
    && t0 <= t && |output| == |before| + (t - t0) && output[..|before|] == before
    && forall i: nat {:trigger output[i]} :: |before| <= i < |output| ==>
         Made(table, xs, newRate, oldRate, channels, t0 + i - |before|, output[i])
  }

  /** `f` is frame `t` of the resampled signal. */
  ghost predicate Made(table: seq<int>, xs: seq<Frame>, newRate: nat, oldRate: nat, channels: nat, t: nat, f: Frame)
    requires TableOk(table) && FramesOk(xs, channels)
  {
    && newRate > 0 && FrameOf(t, newRate, oldRate) + SINC_FILTER_POINTS <= |xs|
    && f == OutFrame(table, xs, t, newRate, oldRate, channels)
  }

  class Stream {
    const numChannels: nat
    var oldRatePosition: nat
    var newRatePosition: nat
    var pitch: seq<Frame>
    var output: seq<Frame>

    constructor (numChannels: nat)
      ensures this.numChannels == numChannels && pitch == [] && output == []
      ensures oldRatePosition == 0 && newRatePosition == 0
    {
      this.numChannels := numChannels;
      oldRatePosition, newRatePosition, pitch, output := 0, 0, [], [];
    }

    /** The positions and the pitch buffer belong to input frame `k` of `xs`. */
    ghost predicate Synced(xs: seq<Frame>, k: nat, newRate: nat, oldRate: nat)
      reads this
    {
      && FramesOk(xs, numChannels) && k <= |xs| && pitch == xs[k..]
      && InStep(oldRatePosition, newRatePosition, k, newRate, oldRate)
    }

    /** Moves the frames behind the first `original` from the output to the pitch buffer. */
    method MoveNewSamplesToPitchBuffer(original: nat)
      requires original <= |output|
      modifies `pitch, `output
      ensures pitch == old(pitch) + old(output)[original..] && output == old(output)[..original]
    {
      pitch := pitch + output[original..];
      output := output[..original];
    }

    method RemovePitchSamples(n: nat)
      requires n <= |pitch|
      modifies `pitch
      ensures pitch == old(pitch)[n..]
    {
      if n == 0 { return; }
      pitch := pitch[n..];
    }

    /** One output frame. */
    method Emit(table: seq<int>, position: nat, newRate: nat, oldRate: nat, ghost xs: seq<Frame>, ghost k: nat) returns (f: Frame)
      requires TableOk(table) && FramesOk(xs, numChannels) && oldRate > 0 && k + position + SINC_FILTER_POINTS <= |xs|
      requires pitch == xs[k..] && oldRatePosition == (k + position) % oldRate
      requires oldRatePosition * newRate <= newRatePosition * oldRate < (oldRatePosition + 1) * newRate
      ensures newRate > 0
      ensures var t := Base(k + position, newRate, oldRate) + newRatePosition;
              FrameOf(t, newRate, oldRate) == k + position && f == OutFrame(table, xs, t, newRate, oldRate, numChannels)
    {
      hide SincSum, InStep, Column, FrameOf, RatioOf, Base;
      RatioInStep(oldRatePosition, newRatePosition, newRate, oldRate);
      ghost var t := Base(k + position, newRate, oldRate) + newRatePosition;
      FrameBehind(oldRatePosition, newRatePosition, k + position, newRate, oldRate);
      var ratio := (oldRatePosition + 1) * newRate - newRatePosition * oldRate - 1;
      f := [];
      var c := 0;
      while c < numChannels
        invariant 0 <= c <= numChannels && |f| == c
        invariant forall i {:trigger f[i]} :: 0 <= i < c ==> f[i] == OutFrame(table, xs, t, newRate, oldRate, numChannels)[i]
      {
        ColumnBehind(xs, k, position, c, numChannels);
        var r := Interpolate(table, Column(pitch, position, c), ratio, newRate);
        f := f + [r];
        c := c + 1;
      }
    }

    /** All output frames of one input frame. */
    method EmitAll(table: seq<int>, position: nat, newRate: nat, oldRate: nat, ghost xs: seq<Frame>, ghost k: nat,
                   ghost before: seq<Frame>, ghost t0: nat)
      requires TableOk(table) && FramesOk(xs, numChannels) && k + position + SINC_FILTER_POINTS <= |xs|
      requires pitch == xs[k..] && InStep(oldRatePosition, newRatePosition, k + position, newRate, oldRate)
      requires Produced(table, xs, newRate, oldRate, numChannels, before, output, t0, Outputs(k + position, newRate, oldRate))
      modifies `newRatePosition, `output
      ensures (oldRatePosition + 1) * newRate <= newRatePosition * oldRate < (oldRatePosition + 1) * newRate + oldRate
      ensures Produced(table, xs, newRate, oldRate, numChannels, before, output, t0,
                       Base(k + position, newRate, oldRate) + newRatePosition)
    {
      hide Produced, OutFrame, Base, Outputs, FrameOf, InStep;
      StartOfFrame(oldRatePosition, newRatePosition, k + position, newRate, oldRate);
      ghost var op := oldRatePosition;
      while (oldRatePosition + 1) * newRate > newRatePosition * oldRate
        invariant OnFrame(op, newRatePosition, newRate, oldRate)
        invariant Produced(table, xs, newRate, oldRate, numChannels, before, output, t0,
                           Base(k + position, newRate, oldRate) + newRatePosition)
        decreases (op + 1) * newRate - newRatePosition * oldRate
      {
        var f := Emit(table, position, newRate, oldRate, xs, k);
        ProducedNext(table, xs, newRate, oldRate, numChannels, before, output, t0,
                     Base(k + position, newRate, oldRate) + newRatePosition, f);
        OnFrameNext(op, newRatePosition, newRate, oldRate);
        output := output + [f];
        newRatePosition := newRatePosition + 1;
      }
    }

    /** One input frame: its output frames, then the step to the next, starting over after `oldRate`. */
    method Advance(table: seq<int>, position: nat, newRate: nat, oldRate: nat, ghost xs: seq<Frame>, ghost k: nat,
                   ghost before: seq<Frame>, ghost t0: nat)
      requires TableOk(table) && FramesOk(xs, numChannels) && k + position + SINC_FILTER_POINTS <= |xs| && oldRate > 0
      requires pitch == xs[k..] && InStep(oldRatePosition, newRatePosition, k + position, newRate, oldRate)
      requires Produced(table, xs, newRate, oldRate, numChannels, before, output, t0, Outputs(k + position, newRate, oldRate))
      modifies `oldRatePosition, `newRatePosition, `output
      ensures InStep(oldRatePosition, newRatePosition, k + position + 1, newRate, oldRate)
      ensures Produced(table, xs, newRate, oldRate, numChannels, before, output, t0, Outputs(k + position + 1, newRate, oldRate))
    {
      hide Produced, OutFrame, Outputs, InStep, Base;
      StepPosition(oldRatePosition, newRatePosition, k + position, newRate, oldRate);
      EmitAll(table, position, newRate, oldRate, xs, k, before, t0);
      InStepNext(oldRatePosition, newRatePosition, k + position, newRate, oldRate);
      NextOutputs(oldRatePosition, newRatePosition, k + position, newRate, oldRate);
      oldRatePosition := oldRatePosition + 1;
      if oldRatePosition == oldRate {
        oldRatePosition := 0;
        newRatePosition := 0;
      }
    }

    /** Resamples what was added to the output behind its first `original` frames.  `xs` are the frames
        moved here since the positions were last reset to zero, `k` those already left behind. */
    method AdjustRate(table: seq<int>, newRate: nat, oldRate: nat, original: nat, ghost xs: seq<Frame>, ghost k: nat)
      returns (ghost k': nat)
      requires TableOk(table) && original <= |output| && FramesOk(output[original..], numChannels) && oldRate > 0
      requires Synced(xs, k, newRate, oldRate) && |pitch| <= SINC_FILTER_POINTS
      modifies this
      ensures var xs' := xs + old(output)[original..];
              && k' == (if |xs'| - SINC_FILTER_POINTS > k then |xs'| - SINC_FILTER_POINTS else k)
              && Synced(xs', k', newRate, oldRate) && |pitch| <= SINC_FILTER_POINTS
              && Produced(table, xs', newRate, oldRate, numChannels, old(output)[..original], output,
                          Outputs(k, newRate, oldRate), Outputs(k', newRate, oldRate))
    {
      hide Produced, OutFrame, Outputs, InStep;
      ghost var xs' := xs + output[original..];
      ghost var before, t0 := output[..original], Outputs(k, newRate, oldRate);
      JoinFrames(xs, output[original..], k, numChannels);
      k' := k;
      NothingProduced(table, xs', newRate, oldRate, numChannels, before, t0);
      if |output| == original {
        assert output == before && xs' == xs;
        return;
      }
      MoveNewSamplesToPitchBuffer(original);
      var position := 0;
      while position < |pitch| - SINC_FILTER_POINTS
        invariant 0 <= position && pitch == xs'[k..] && (position > 0 ==> position <= |pitch| - SINC_FILTER_POINTS)
        invariant InStep(oldRatePosition, newRatePosition, k + position, newRate, oldRate)
        invariant Produced(table, xs', newRate, oldRate, numChannels, before, output, t0, Outputs(k + position, newRate, oldRate))
      {
        Advance(table, position, newRate, oldRate, xs', k, before, t0);
        position := position + 1;
      }
      assert xs'[k..][position..] == xs'[k + position..];
      RemovePitchSamples(position);
      k' := k + position;
    }
  }

  /** The new position lies in the current frame or has just left it. */
  predicate OnFrame(op: nat, np: nat, newRate: nat, oldRate: nat) {
    op * newRate <= np * oldRate < (op + 1) * newRate + oldRate
  }

  lemma StartOfFrame(op: nat, np: nat, k: nat, newRate: nat, oldRate: nat)
    requires InStep(op, np, k, newRate, oldRate)
    ensures oldRate > 0 && op == k % oldRate && OnFrame(op, np, newRate, oldRate)
    ensures Base(k, newRate, oldRate) + np == Outputs(k, newRate, oldRate)
  {
    InStepOutputs(op, np, k, newRate, oldRate);
    CeilBounds(op * newRate, oldRate);
    hide Base, Outputs, CeilDiv;
    assert (op + 1) * newRate == op * newRate + newRate;
  }

  lemma OnFrameNext(op: nat, np: nat, newRate: nat, oldRate: nat)
    requires OnFrame(op, np, newRate, oldRate) && (op + 1) * newRate > np * oldRate
    ensures OnFrame(op, np + 1, newRate, oldRate) && (np + 1) * oldRate == np * oldRate + oldRate
  {
    assert (np + 1) * oldRate == np * oldRate + oldRate;
  }

  lemma StepPosition(op: nat, np: nat, k: nat, newRate: nat, oldRate: nat)
    requires InStep(op, np, k, newRate, oldRate)
    ensures oldRate > 0 && op == k % oldRate
  {
  }

  /** What has been made when a frame is done is what its successor starts from. */
  lemma NextOutputs(op: nat, np: nat, k: nat, newRate: nat, oldRate: nat)
    requires oldRate > 0 && op == k % oldRate
    requires (op + 1) * newRate <= np * oldRate < (op + 1) * newRate + oldRate
    ensures Base(k, newRate, oldRate) + np == Outputs(k + 1, newRate, oldRate)
  {
    SameDistance(op, np, k, newRate, oldRate);
    assert (op + 1) * newRate == op * newRate + newRate;
    assert (k + 1) * newRate == k * newRate + newRate;
    CeilIs((k + 1) * newRate, oldRate, Base(k, newRate, oldRate) + np);
  }

  lemma JoinFrames(xs: seq<Frame>, ys: seq<Frame>, k: nat, channels: nat)
    requires FramesOk(xs, channels) && FramesOk(ys, channels) && k <= |xs|
    ensures FramesOk(xs + ys, channels) && (xs + ys)[k..] == xs[k..] + ys
  {
  }

  lemma NothingProduced(table: seq<int>, xs: seq<Frame>, newRate: nat, oldRate: nat, channels: nat, before: seq<Frame>, t0: nat)
    requires TableOk(table) && FramesOk(xs, channels)
    ensures Produced(table, xs, newRate, oldRate, channels, before, before, t0, t0)
  {
  }

  lemma ProducedNext(table: seq<int>, xs: seq<Frame>, newRate: nat, oldRate: nat, channels: nat,
                     before: seq<Frame>, output: seq<Frame>, t0: nat, t: nat, f: Frame)
    requires TableOk(table) && FramesOk(xs, channels) && newRate > 0
    requires Produced(table, xs, newRate, oldRate, channels, before, output, t0, t)
    requires FrameOf(t, newRate, oldRate) + SINC_FILTER_POINTS <= |xs| && f == OutFrame(table, xs, t, newRate, oldRate, channels)
    ensures Produced(table, xs, newRate, oldRate, channels, before, output + [f], t0, t + 1)
  {
    assert Made(table, xs, newRate, oldRate, channels, t, f);
    hide OutFrame, FrameOf, Made;
    var output' := output + [f];
    assert output'[..|before|] == output[..|before|];
    forall i: nat {:trigger output'[i]} | |before| <= i < |output'|
      ensures Made(table, xs, newRate, oldRate, channels, t0 + i - |before|, output'[i])
    {
      if i < |output| { assert output'[i] == output[i]; } else { assert t0 + i - |before| == t; }
    }
  }

  /** Reading from the buffer is reading from the input. */
  lemma ColumnBehind(xs: seq<Frame>, k: nat, position: nat, c: nat, channels: nat)
    requires FramesOk(xs, channels) && k + position + SINC_FILTER_POINTS <= |xs| && c < channels
    ensures forall j {:trigger xs[k..][j]} :: position <= j < |xs[k..]| ==> c < |xs[k..][j]|
    ensures Column(xs[k..], position, c) == Column(xs, k + position, c)
    ensures forall i {:trigger Column(xs, k + position, c)[i]} :: 0 <= i < SINC_FILTER_POINTS ==> Short(Column(xs, k + position, c)[i])
  {
    var ys := xs[k..];
    assert forall j {:trigger ys[j]} :: 0 <= j < |ys| ==> ys[j] == xs[k + j];
    forall i {:trigger Column(xs, k + position, c)[i]} | 0 <= i < SINC_FILTER_POINTS
      ensures Short(Column(xs, k + position, c)[i])
    {
      assert Column(xs, k + position, c)[i] == xs[k + position + i][c];
    }
  }

  /** Which input frame an output frame falls behind, and by how much, from the positions. */
  lemma FrameBehind(op: nat, np: nat, k: nat, newRate: nat, oldRate: nat)
    requires oldRate > 0 && op == k % oldRate && op * newRate <= np * oldRate < (op + 1) * newRate
    ensures newRate > 0
    ensures var t := Base(k, newRate, oldRate) + np;
            FrameOf(t, newRate, oldRate) == k && RatioOf(t, newRate, oldRate) == (op + 1) * newRate - np * oldRate - 1
  {
    var t := Base(k, newRate, oldRate) + np;
    SameDistance(op, np, k, newRate, oldRate);
    assert (op + 1) * newRate == op * newRate + newRate;
    assert (k + 1) * newRate == k * newRate + newRate;
    DivUniqueLeft(t * oldRate, newRate, k, t * oldRate - k * newRate);
  }

  // ---- any split into blocks ----

  /** The input frames that can be interpolated behind: all but the last twelve. */
  function Usable(n: nat): nat {
    if n > SINC_FILTER_POINTS then n - SINC_FILTER_POINTS else 0
  }

  lemma FrameInside(t: nat, k: nat, newRate: nat, oldRate: nat)
    requires oldRate > 0 && t < Outputs(k, newRate, oldRate)
    ensures newRate > 0 && FrameOf(t, newRate, oldRate) < k
  {
    CeilBounds(k * newRate, oldRate);
    MulStep(t, Outputs(k, newRate, oldRate), oldRate);
    assert newRate == 0 ==> k * newRate == 0;
    DivBounds(t * oldRate, newRate);
    MulCancelStrict(FrameOf(t, newRate, oldRate), k, newRate);
  }

  lemma MulCancelStrict(a: int, b: int, p: int)
    requires p > 0
    ensures a * p < b * p ==> a < b
  {
    if b <= a { MulMono(b, a, p); }
  }

  /** The whole resampled signal. */
  function Resampled(table: seq<int>, xs: seq<Frame>, newRate: nat, oldRate: nat, channels: nat): (r: seq<Frame>)
    requires TableOk(table) && FramesOk(xs, channels) && oldRate > 0
    ensures |r| == Outputs(Usable(|xs|), newRate, oldRate)
  {
    seq(Outputs(Usable(|xs|), newRate, oldRate), t requires 0 <= t < Outputs(Usable(|xs|), newRate, oldRate) =>
      FrameInside(t, Usable(|xs|), newRate, oldRate);
      OutFrame(table, xs, t, newRate, oldRate, channels))
  }

  function Joined(blocks: seq<seq<Frame>>): seq<Frame> {
    if blocks == [] then [] else Joined(blocks[..|blocks| - 1]) + blocks[|blocks| - 1]
  }

  ghost predicate BlocksOk(blocks: seq<seq<Frame>>, channels: nat) {
    forall i {:trigger blocks[i]} :: 0 <= i < |blocks| ==> FramesOk(blocks[i], channels)
  }

  lemma {:induction false} JoinedOk(blocks: seq<seq<Frame>>, channels: nat)
    requires BlocksOk(blocks, channels)
    ensures FramesOk(Joined(blocks), channels)
  {
    if blocks != [] {
      JoinedOk(blocks[..|blocks| - 1], channels);
      JoinFrames(Joined(blocks[..|blocks| - 1]), blocks[|blocks| - 1], 0, channels);
    }
  }

  /** What one block adds completes the signal so far. */
  lemma SignalGrows(table: seq<int>, xs: seq<Frame>, ys: seq<Frame>, newRate: nat, oldRate: nat, channels: nat,
                    before: seq<Frame>, output: seq<Frame>)
    requires TableOk(table) && FramesOk(xs, channels) && FramesOk(ys, channels) && oldRate > 0 && xs <= ys
    requires before == Resampled(table, xs, newRate, oldRate, channels)
    requires Produced(table, ys, newRate, oldRate, channels, before, output,
                      Outputs(Usable(|xs|), newRate, oldRate), Outputs(Usable(|ys|), newRate, oldRate))
    ensures output == Resampled(table, ys, newRate, oldRate, channels)
  {
    hide OutFrame, Outputs, FrameOf;
    var r := Resampled(table, ys, newRate, oldRate, channels);
    forall t | 0 <= t < |output|
      ensures output[t] == r[t]
    {
      FrameInside(t, Usable(|ys|), newRate, oldRate);
      if t < |before| {
        FrameInside(t, Usable(|xs|), newRate, oldRate);
        RatioInRange(t, newRate, oldRate);
        OutFrameOfPrefix(table, xs, ys, t, newRate, oldRate, channels);
        assert output[t] == output[..|before|][t];
      } else {
        assert Made(table, ys, newRate, oldRate, channels, t, output[t]);
      }
    }
  }

  /** Split independence: however the input is cut into blocks, the output is the resampled signal. */
  method ResampleBlocks(table: seq<int>, blocks: seq<seq<Frame>>, newRate: nat, oldRate: nat, channels: nat)
    returns (output: seq<Frame>)
    requires TableOk(table) && BlocksOk(blocks, channels) && oldRate > 0
    ensures FramesOk(Joined(blocks), channels) && output == Resampled(table, Joined(blocks), newRate, oldRate, channels)
    ensures var k := if |Joined(blocks)| > 12 then |Joined(blocks)| - 12 else 0;
            k * newRate <= |output| * oldRate < k * newRate + oldRate
  {
    hide Resampled, OutFrame, Produced, InStep;
    var s := new Stream(channels);
    ghost var k: nat := 0;
    var i := 0;
    FreshStream(table, newRate, oldRate, channels);
    assert blocks[..0] == [];
    while i < |blocks|
      invariant 0 <= i <= |blocks| && fresh(s) && s.numChannels == channels
      invariant BlocksOk(blocks[..i], channels) && FramesOk(Joined(blocks[..i]), channels)
      invariant k == Usable(|Joined(blocks[..i])|) && s.Synced(Joined(blocks[..i]), k, newRate, oldRate)
      invariant |s.pitch| <= SINC_FILTER_POINTS
      invariant s.output == Resampled(table, Joined(blocks[..i]), newRate, oldRate, channels)
    {
      ghost var xs, before := Joined(blocks[..i]), s.output;
      assert blocks[..i + 1][..i] == blocks[..i];
      assert Joined(blocks[..i + 1]) == xs + blocks[i];
      JoinFrames(xs, blocks[i], 0, channels);
      var original := |s.output|;
      s.output := s.output + blocks[i];
      assert s.output[original..] == blocks[i] && s.output[..original] == before;
      k := s.AdjustRate(table, newRate, oldRate, original, xs, k);
      SignalGrows(table, xs, xs + blocks[i], newRate, oldRate, channels, before, s.output);
      i := i + 1;
    }
    assert blocks[..|blocks|] == blocks;
    output := s.output;
    FramesMade(Usable(|Joined(blocks)|), newRate, oldRate);
  }

  /** `k` frames give `k * newRate / oldRate`, rounded up. */
  lemma FramesMade(k: nat, newRate: nat, oldRate: nat)
    requires oldRate > 0
    ensures k * newRate <= Outputs(k, newRate, oldRate) * oldRate < k * newRate + oldRate
  {
    MulNonNegative(k, newRate);
    CeilBounds(k * newRate, oldRate);
  }

  lemma FreshStream(table: seq<int>, newRate: nat, oldRate: nat, channels: nat)
    requires TableOk(table) && oldRate > 0
    ensures InStep(0, 0, 0, newRate, oldRate) && Joined([]) == []
    ensures Resampled(table, [], newRate, oldRate, channels) == []
  {
    assert 0 * newRate == 0 && 0 * oldRate == 0;
    CeilIs(0, oldRate, 0);
  }

  // ---- two changes that go wrong ----

  lemma NoHalving(a: nat, b: nat, k: nat)
    requires a <= MAX_RATE && b <= MAX_RATE
    requires k > 0 ==> a / Pow2(k - 1) > MAX_RATE || b / Pow2(k - 1) > MAX_RATE
    ensures k == 0
  {
    hide Pow2;
    if k > 0 {
      QuotientAtMost(a, Pow2(k - 1));
      QuotientAtMost(b, Pow2(k - 1));
    }
  }

  lemma QuotientAtMost(a: nat, p: nat)
    requires p > 0
    ensures a / p <= a
  {
    DivBounds(a, p);
    if a / p > 0 { MulMono(1, p, a / p); }
  }

  /** At 8000 samples a second, after three frames at pitch 4 and with the pitch then set to 2, the next
      interpolation has the fraction 7999/4000, and its last tap reads the table at 649 and 650. */
  method PitchChangeBreaks(table: seq<int>, xs: seq<Frame>) returns (op: nat, np: nat, ratio: int, width: int)
    requires TableOk(table) && |xs| == 15 && FramesOk(xs, 1)
    ensures op == 3 && np == 1 && ratio == 7999 && width == 4000
    ensures TableIndex(11, ratio, width) == 649 && 650 >= |table|
  {
    hide InStep, Produced;
    var newRate, oldRate;
    ghost var h, k;
    newRate, oldRate, h := Halve(8000 / 4, 8000);
    NoHalving(2000, 8000, h);
    var s := new Stream(1);
    FreshStream(table, 2000, 8000, 1);
    s.output := xs;
    assert xs[0..] == xs && [] + xs == xs;
    k := s.AdjustRate(table, newRate, oldRate, 0, [], 0);
    ThreeFrames(s.oldRatePosition, s.newRatePosition);
    newRate, oldRate, h := Halve(8000 / 2, 8000);
    NoHalving(4000, 8000, h);
    op, np := s.oldRatePosition, s.newRatePosition;
    ratio := (op + 1) * newRate - np * oldRate - 1;
    width := (op + 1) * newRate - op * newRate;
  }

  lemma ThreeFrames(op: nat, np: nat)
    ensures InStep(op, np, 3, 2000, 8000) ==> op == 3 && np == 1
  {
  }

  lemma {:induction false} HalvesFall(a: nat, i: nat, j: nat)
    requires i <= j
    ensures a / Pow2(j) <= a / Pow2(i)
    decreases j
  {
    hide Pow2;
    if i < j {
      HalvesFall(a, i, j - 1);
      HalfOf(a, j - 1);
    }
  }

  /** The halving stops at the first pair of rates that fit. */
  lemma HalvedTo(a: nat, b: nat, k: nat, j: nat)
    requires a / Pow2(k) <= MAX_RATE && b / Pow2(k) <= MAX_RATE && a / Pow2(j) <= MAX_RATE && b / Pow2(j) <= MAX_RATE
    requires k > 0 ==> a / Pow2(k - 1) > MAX_RATE || b / Pow2(k - 1) > MAX_RATE
    requires j > 0 ==> a / Pow2(j - 1) > MAX_RATE || b / Pow2(j - 1) > MAX_RATE
    ensures k == j
  {
    hide Pow2;
    if k < j {
      HalvesFall(a, k, j - 1);
      HalvesFall(b, k, j - 1);
    } else if j < k {
      HalvesFall(a, j, k - 1);
      HalvesFall(b, j, k - 1);
    }
  }

  lemma SmallPowers()
    ensures Pow2(1) == 2 && Pow2(2) == 4 && Pow2(3) == 8 && Pow2(4) == 16
  {
  }

  /** At 44100 samples a second, going from pitch 1.5 to 0.25 shortens the period from 11025 to 2756 frames:
      with the old position beyond that, the positions never start over. */
  method PeriodShrinks() returns (old0: nat, old1: nat)
    ensures old0 == 11025 && old1 == 2756
    ensures forall op: nat, np: nat, newRate: nat, n: nat {:trigger Positions(op, np, newRate, old1, n)} ::
      old1 <= op < old0 ==> Positions(op, np, newRate, old1, n).0 == op + n
  {
    SmallPowers();
    hide Pow2;
    var newRate;
    ghost var h;
    newRate, old0, h := Halve(29400, 44100);
    HalvedTo(29400, 44100, h, 2);
    newRate, old1, h := Halve(176400, 44100);
    HalvedTo(176400, 44100, h, 4);
    forall op: nat, np: nat, newRate: nat, n: nat {:trigger Positions(op, np, newRate, old1, n)} | old1 <= op
      ensures Positions(op, np, newRate, old1, n).0 == op + n
    {
      ResetComes(op, np, newRate, old1);
    }
  }
}
