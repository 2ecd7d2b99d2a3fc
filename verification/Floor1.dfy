/** Floor type 1 of a Vorbis stream: reconstructing the curve's points (Vorbis I specification, section
    7.2.4, step 1). */
module Floor1 {
  import opened Bits

  // ---- the number of bits of a number ----

  /** log2_4: the bit length of numbers below 16. */
  function Log4(n: nat): nat
    requires n < 16
  {
    [0, 1, 2, 2, 3, 3, 3, 3, 4, 4, 4, 4, 4, 4, 4, 4][n]
  }

  function Ilog(n: int): nat
    requires n < 0x8000_0000
  {
    if n < 0 then 0
    else if n < 0x4000 then
      if n < 0x10 then Log4(n)
      else if n < 0x200 then 5 + Log4(n / 0x20)
      else 10 + Log4(n / 0x400)
    else if n < 0x100_0000 then
      if n < 0x8_0000 then 15 + Log4(n / 0x8000)
      else 20 + Log4(n / 0x10_0000)
    else if n < 0x2000_0000 then 25 + Log4(n / 0x200_0000)
    else 30 + Log4(n / 0x4000_0000)
  }

  lemma Log4IsLength(n: nat)
    requires 0 < n < 16
    ensures 1 <= Log4(n) <= 4 && Pow2(Log4(n) - 1) <= n < Pow2(Log4(n))
  {
    Pow2Values();
  }

  /** Shifting right by `k` takes `k` off the bit length. */
  lemma LengthOfShifted(n: nat, k: nat, l: nat)
    requires l > 0 && Pow2(l - 1) <= n / Pow2(k) < Pow2(l)
    ensures Pow2(k + l - 1) <= n < Pow2(k + l)
  {
    hide Pow2;
    var p, q := Pow2(k), n / Pow2(k);
    DivBounds(n, p);
    Pow2Add(k, l - 1);
    Pow2Add(k, l);
    MulMono(Pow2(l - 1), q, p);
    MulMono(q + 1, Pow2(l), p);
    MulTwice(p, Pow2(l));
    MulTwice(p, Pow2(l - 1));
    Commute(p, Pow2(l));
    Commute(p, Pow2(l - 1));
  }

  lemma Commute(a: int, b: int)
    ensures a * b == b * a
  {
  }

  lemma Shifts()
    ensures Pow2(5) == 0x20 && Pow2(10) == 0x400 && Pow2(15) == 0x8000 && Pow2(20) == 0x10_0000
    ensures Pow2(25) == 0x200_0000 && Pow2(30) == 0x4000_0000
  {
    Pow2Add(5, 5);
    Pow2Add(10, 5);
    Pow2Add(10, 10);
    Pow2Add(20, 5);
    Pow2Add(20, 10);
  }

  lemma ShiftedLength(n: nat, k: nat, d: nat)
    requires k > 0 && d == Pow2(k) && d <= 2 * n && n < 16 * d
    ensures 0 <= n / d < 16
    ensures var r := k + Log4(n / d); r > 0 && Pow2(r - 1) <= n < Pow2(r)
  {
    LogZero();
    if n < d {
      DivUnique(n, d, 0, n);
    } else {
      hide Log4, Pow2;
      QuotientInRange(n, d);
      Log4IsLength(n / d);
      LengthOfShifted(n, k, Log4(n / d));
    }
  }

  lemma QuotientInRange(n: nat, d: nat)
    requires d > 0 && d <= n < 16 * d
    ensures 0 < n / d < 16
  {
    DivBounds(n, d);
    var q := n / d;
    if q <= 0 { MulMono(q + 1, 1, d); }
    if q >= 16 { MulMono(16, q, d); }
  }

  /** The bit length of every positive number, 0 for the others. */
  lemma IlogIsBitLength(n: int)
    requires n < 0x8000_0000
    ensures n <= 0 ==> Ilog(n) == 0
    ensures n > 0 ==> Ilog(n) > 0 && Pow2(Ilog(n) - 1) <= n < Pow2(Ilog(n))
  {
    hide Pow2, Log4;
    Shifts();
    if n <= 0 {
      if n == 0 { LogZero(); }
    } else if n < 0x10 {
      Log4IsLength(n);
    } else if n < 0x200 {
      ShiftedLength(n, 5, 0x20);
    } else if n < 0x4000 {
      ShiftedLength(n, 10, 0x400);
    } else if n < 0x8_0000 {
      ShiftedLength(n, 15, 0x8000);
    } else if n < 0x100_0000 {
      ShiftedLength(n, 20, 0x10_0000);
    } else if n < 0x2000_0000 {
      ShiftedLength(n, 25, 0x200_0000);
    } else {
      ShiftedLength(n, 30, 0x4000_0000);
    }
  }

  lemma LogZero()
    ensures Log4(0) == 0
  {
  }

  // ---- the line through two points ----

  function Abs(n: int): nat { if n < 0 then -n else n }

  /** The height at `x` of the line from (x0, y0) to (x1, y1), rounded towards y0. */
  function PredictPoint(x: int, x0: int, x1: int, y0: int, y1: int): int
    requires x0 <= x && x0 < x1
  {
    var dy := y1 - y0;
    var off := Abs(dy) * (x - x0) / (x1 - x0);
    if dy < 0 then y0 - off else y0 + off
  }

  /** The line stays between its ends. */
  lemma PredictBetween(x: int, x0: int, x1: int, y0: int, y1: int)
    requires x0 <= x <= x1 && x0 < x1
    ensures if y0 <= y1 then y0 <= PredictPoint(x, x0, x1, y0, y1) <= y1 else y1 <= PredictPoint(x, x0, x1, y0, y1) <= y0
    ensures x == x0 ==> PredictPoint(x, x0, x1, y0, y1) == y0
    ensures x == x1 ==> PredictPoint(x, x0, x1, y0, y1) == y1
  {
    var d, a, t := x1 - x0, Abs(y1 - y0), x - x0;
    var off := a * t / d;
    DivBounds(a * t, d);
    MulMono(t, d, a);
    Commute(a, t);
    Commute(a, d);
    assert a * t >= 0 by { MulMono(0, t, a); Commute(a, t); }
    MulCancel(off, a, d);
    assert 0 * d == 0;
    QuotientNonNegative(a * t, d);
    if t == 0 { assert a * 0 == 0; }
    if t == d { DivUniqueLeft(a * d, d, a, 0); }
  }

  /** The line's height is rounded towards the end it is measured from. */
  lemma PredictRounds(x: int, x0: int, x1: int, y0: int, y1: int)
    requires x0 <= x && x0 < x1
    ensures var p := PredictPoint(x, x0, x1, y0, y1);
            if y1 >= y0 then p >= y0 && (p - y0) * (x1 - x0) <= (y1 - y0) * (x - x0) < (p - y0 + 1) * (x1 - x0)
            else p <= y0 && (y0 - p) * (x1 - x0) <= (y0 - y1) * (x - x0) < (y0 - p + 1) * (x1 - x0)
  {
    var d, a, t := x1 - x0, Abs(y1 - y0), x - x0;
    assert a * t >= 0 by { MulMono(0, t, a); Commute(a, t); }
    QuotientNonNegative(a * t, d);
    DivBounds(a * t, d);
  }

  lemma QuotientNonNegative(v: int, d: int)
    requires v >= 0 && d > 0
    ensures v / d >= 0
  {
    DivBounds(v, d);
    MulCancel(0, v / d + 1, d);
  }

  // ---- one coded value ----

  function Room(range: int, pred: int): int {
    var highroom := range - pred;
    if highroom < pred then highroom * 2 else pred * 2
  }

  /** The point a coded value stands for, given its prediction. */
  function Unwrap(range: int, pred: int, val: int): int {
    var highroom := range - pred;
    if val == 0 then pred
    else if val >= Room(range, pred) then
      if highroom > pred then val - pred + pred else pred - val + highroom - 1
    else if val % 2 == 1 then pred - (val + 1) / 2
    else pred + val / 2
  }

  /** The coded value of a point. */
  function Wrap(range: int, pred: int, y: int): int {
    var reach := Room(range, pred) / 2;
    if y < pred - reach then range - 1 - y
    else if y < pred then 2 * (pred - y) - 1
    else if y < pred + reach || y == pred then 2 * (y - pred)
    else y
  }

  /** Unwrapping permutes [0, range): every coded value gives a point there and can be read off it. */
  lemma UnwrapBijective(range: int, pred: int, val: int)
    requires 0 <= pred < range && 0 <= val < range
    ensures 0 <= Unwrap(range, pred, val) < range && Wrap(range, pred, Unwrap(range, pred, val)) == val
    ensures 0 <= Wrap(range, pred, val) < range && Unwrap(range, pred, Wrap(range, pred, val)) == val
  {
  }

  /** Coded values count outwards from the prediction: 0 is the prediction itself, a greater value never stands
      for a nearer point, and of two points equally far the lower one comes first. */
  lemma UnwrapOutwards(range: int, pred: int, u: int, v: int)
    requires 0 <= pred < range && 0 <= u < v < range
    ensures Unwrap(range, pred, 0) == pred
    ensures Abs(Unwrap(range, pred, u) - pred) <= Abs(Unwrap(range, pred, v) - pred)
    ensures Abs(Unwrap(range, pred, u) - pred) == Abs(Unwrap(range, pred, v) - pred) ==>
      Unwrap(range, pred, u) < pred < Unwrap(range, pred, v)
  {
  }

  // ---- neighbours ----

  /** The point positions of a floor: 0 first, the greatest second, no two alike. */
  ghost predicate PositionsOk(xs: seq<nat>) {
    && |xs| >= 2 && xs[0] == 0
    && (forall i {:trigger xs[i]} :: 0 <= i < |xs| ==> xs[i] <= xs[1] < 65536)
    && (forall i, j {:trigger xs[i], xs[j]} :: 0 <= i < j < |xs| ==> xs[i] != xs[j])
  }

  /** `low` is the nearest position to the left of position `n` among those before it in the list. */
  ghost predicate IsLow(xs: seq<nat>, n: nat, low: nat)
    requires n < |xs|
  {
    low < n && xs[low] < xs[n] && forall i {:trigger xs[i]} :: 0 <= i < n ==> !(xs[low] < xs[i] < xs[n])
  }

  ghost predicate IsHigh(xs: seq<nat>, n: nat, high: nat)
    requires n < |xs|
  {
    high < n && xs[high] > xs[n] && forall i {:trigger xs[i]} :: 0 <= i < n ==> !(xs[n] < xs[i] < xs[high])
  }

  method Neighbors(xs: seq<nat>, n: nat) returns (plow: nat, phigh: nat)
    requires PositionsOk(xs) && 2 <= n < |xs|
    ensures IsLow(xs, n, plow) && IsHigh(xs, n, phigh)
  {
    plow, phigh := 0, 0;
    var low, high := -1, 65536;
    var i := 0;
    while i < n
      invariant 0 <= i <= n
      invariant i == 0 ==> low == -1
      invariant i <= 1 ==> high == 65536
      invariant i > 0 ==> plow < i && low == xs[plow] < xs[n] && forall k {:trigger xs[k]} :: 0 <= k < i ==> !(low < xs[k] < xs[n])
      invariant i > 1 ==> phigh < i && high == xs[phigh] > xs[n]
      invariant forall k {:trigger xs[k]} :: 0 <= k < i ==> !(xs[n] < xs[k] < high)
    {
      if xs[i] > low && xs[i] < xs[n] { plow, low := i, xs[i]; }
      if xs[i] < high && xs[i] > xs[n] { phigh, high := i, xs[i]; }
      i := i + 1;
    }
  }

  // ---- reconstruction ----

  /** Positions and the neighbours computed for them. */
  datatype Floor = Floor(xs: seq<nat>, neighbors: seq<(nat, nat)>)

  ghost predicate FloorOk(g: Floor) {
    && PositionsOk(g.xs) && |g.neighbors| == |g.xs|
    && forall j {:trigger g.neighbors[j]} :: 2 <= j < |g.xs| ==>
         IsLow(g.xs, j, g.neighbors[j].0) && IsHigh(g.xs, j, g.neighbors[j].1)
  }

  /** The height the earlier points predict for point `j`. */
  function Predicted(g: Floor, ys: seq<int>, j: nat): int
    requires FloorOk(g) && 2 <= j < |g.xs| && j <= |ys|
  {
    var low, high := g.neighbors[j].0, g.neighbors[j].1;
    PredictPoint(g.xs[j], g.xs[low], g.xs[high], ys[low], ys[high])
  }

  /** The first `j` points. */
  function Points(g: Floor, range: int, coded: seq<int>, j: nat): (ys: seq<int>)
    requires FloorOk(g) && j <= |g.xs| && j <= |coded|
    ensures |ys| == j
  {
    if j <= 2 then coded[..j]
    else
      var ys := Points(g, range, coded, j - 1);
      ys + [Unwrap(range, Predicted(g, ys, j - 1), coded[j - 1])]
  }

  /** The coded values of the first `j` points. */
  function Codes(g: Floor, range: int, ys: seq<int>, j: nat): (coded: seq<int>)
    requires FloorOk(g) && j <= |g.xs| && j <= |ys|
    ensures |coded| == j
  {
    if j <= 2 then ys[..j]
    else Codes(g, range, ys, j - 1) + [Wrap(range, Predicted(g, ys[..j - 1], j - 1), ys[j - 1])]
  }

  predicate AllIn(range: int, s: seq<int>) {
    forall i {:trigger s[i]} :: 0 <= i < |s| ==> 0 <= s[i] < range
  }

  /** Neighbours bracket a position, so the prediction lies between two points. */
  lemma PredictedIn(g: Floor, range: int, ys: seq<int>, j: nat)
    requires FloorOk(g) && 2 <= j < |g.xs| && j <= |ys| && AllIn(range, ys[..j])
    ensures 0 <= Predicted(g, ys, j) < range
  {
    hide PredictPoint;
    var low, high := g.neighbors[j].0, g.neighbors[j].1;
    assert ys[..j][low] == ys[low] && ys[..j][high] == ys[high];
    PredictBetween(g.xs[j], g.xs[low], g.xs[high], ys[low], ys[high]);
  }

  /** Every reconstructed point lies in [0, range), and its coded value can be recovered. */
  lemma {:induction false} PointsInRange(g: Floor, range: int, coded: seq<int>, j: nat)
    requires FloorOk(g) && j <= |g.xs| && j <= |coded| && AllIn(range, coded)
    ensures AllIn(range, Points(g, range, coded, j))
    ensures Codes(g, range, Points(g, range, coded, j), j) == coded[..j]
    decreases j
  {
    hide Predicted, Unwrap, Wrap, FloorOk;
    if j > 2 {
      PointsInRange(g, range, coded, j - 1);
      var ys, all := Points(g, range, coded, j - 1), Points(g, range, coded, j);
      assert all[..j - 1] == ys;
      assert ys[..j - 1] == ys;
      PredictedIn(g, range, ys, j - 1);
      UnwrapBijective(range, Predicted(g, ys, j - 1), coded[j - 1]);
      CodesOfPrefix(g, range, all, ys, j - 1);
    }
  }

  lemma {:induction false} EarlierPoints(g: Floor, range: int, coded: seq<int>, j: nat, n: nat)
    requires FloorOk(g) && j <= n <= |g.xs| && n <= |coded|
    ensures Points(g, range, coded, n)[..j] == Points(g, range, coded, j)
    decreases n
  {
    hide Predicted, Unwrap, FloorOk;
    if j < n {
      EarlierPoints(g, range, coded, j, n - 1);
      if n > 2 {
        var ys := Points(g, range, coded, n - 1);
        assert Points(g, range, coded, n)[..n - 1] == ys;
        assert Points(g, range, coded, n)[..j] == ys[..j];
      }
    } else {
      assert Points(g, range, coded, n)[..n] == Points(g, range, coded, n);
    }
  }

  lemma OnlyNeighbors(g: Floor, j: nat, low: nat, high: nat)
    requires FloorOk(g) && 2 <= j < |g.xs| && IsLow(g.xs, j, low) && IsHigh(g.xs, j, high)
    ensures g.neighbors[j] == (low, high)
  {
    var a, b := g.neighbors[j].0, g.neighbors[j].1;
    assert g.xs[a] == g.xs[low] && g.xs[b] == g.xs[high];
  }

  /** What the points are: the first two as they are coded, every later one unwrapped around the line between
      the two points whose positions are nearest to its own, among the earlier ones. */
  lemma PointsFollow(g: Floor, range: int, coded: seq<int>, n: nat, j: nat, low: nat, high: nat)
    requires FloorOk(g) && 2 <= j < n <= |g.xs| && n <= |coded| && IsLow(g.xs, j, low) && IsHigh(g.xs, j, high)
    ensures var ys := Points(g, range, coded, n);
            && ys[0] == coded[0] && ys[1] == coded[1]
            && ys[j] == Unwrap(range, PredictPoint(g.xs[j], g.xs[low], g.xs[high], ys[low], ys[high]), coded[j])
  {
    PointAt(g, range, coded, j, low, high);
    hide PredictPoint, Unwrap, Points, FloorOk;
    var ys, before := Points(g, range, coded, n), Points(g, range, coded, j);
    EarlierPoints(g, range, coded, j, n);
    EarlierPoints(g, range, coded, j + 1, n);
    EarlierPoints(g, range, coded, 2, n);
    assert ys[..j][low] == ys[low] == before[low] && ys[..j][high] == ys[high] == before[high];
    assert ys[..j + 1][j] == ys[j];
    assert ys[..2][0] == ys[0] && ys[..2][1] == ys[1];
    FirstPoints(g, range, coded);
  }

  lemma FirstPoints(g: Floor, range: int, coded: seq<int>)
    requires FloorOk(g) && |coded| >= 2
    ensures |g.xs| >= 2 && Points(g, range, coded, 2) == coded[..2]
  {
  }

  lemma PointAt(g: Floor, range: int, coded: seq<int>, j: nat, low: nat, high: nat)
    requires FloorOk(g) && 2 <= j < |g.xs| && j < |coded| && IsLow(g.xs, j, low) && IsHigh(g.xs, j, high)
    ensures var ys := Points(g, range, coded, j);
            Points(g, range, coded, j + 1)[j] ==
              Unwrap(range, PredictPoint(g.xs[j], g.xs[low], g.xs[high], ys[low], ys[high]), coded[j])
  {
    OnlyNeighbors(g, j, low, high);
    hide PredictPoint, Unwrap;
  }

  lemma {:induction false} CodesOfPrefix(g: Floor, range: int, a: seq<int>, b: seq<int>, j: nat)
    requires FloorOk(g) && j <= |g.xs| && j <= |a| && j <= |b| && a[..j] == b[..j]
    ensures Codes(g, range, a, j) == Codes(g, range, b, j)
    decreases j
  {
    hide Predicted, Wrap, FloorOk;
    if j > 2 {
      assert a[..j - 1] == a[..j][..j - 1] == b[..j - 1];
      assert a[j - 1] == a[..j][j - 1] == b[j - 1];
      CodesOfPrefix(g, range, a, b, j - 1);
    } else {
      assert a[..j] == b[..j];
    }
  }

  /** The other direction: every curve in range is reconstructed from exactly one list of coded values. */
  lemma {:induction false} CodesInRange(g: Floor, range: int, ys: seq<int>, j: nat)
    requires FloorOk(g) && j <= |g.xs| && j <= |ys| && AllIn(range, ys)
    ensures AllIn(range, Codes(g, range, ys, j))
    ensures Points(g, range, Codes(g, range, ys, j), j) == ys[..j]
    decreases j
  {
    hide Predicted, Unwrap, Wrap, FloorOk;
    if j > 2 {
      CodesInRange(g, range, ys, j - 1);
      var coded, all := Codes(g, range, ys, j - 1), Codes(g, range, ys, j);
      PredictedIn(g, range, ys[..j - 1], j - 1) by {
        assert ys[..j - 1][..j - 1] == ys[..j - 1];
      }
      UnwrapBijective(range, Predicted(g, ys[..j - 1], j - 1), ys[j - 1]);
      assert all[..j - 1] == coded[..j - 1];
      PointsOfPrefix(g, range, all, coded, j - 1);
      assert ys[..j] == ys[..j - 1] + [ys[j - 1]];
    }
  }

  lemma {:induction false} PointsOfPrefix(g: Floor, range: int, a: seq<int>, b: seq<int>, j: nat)
    requires FloorOk(g) && j <= |g.xs| && j <= |a| && j <= |b| && a[..j] == b[..j]
    ensures Points(g, range, a, j) == Points(g, range, b, j)
    decreases j
  {
    hide Predicted, Unwrap, FloorOk;
    if j > 2 {
      assert a[..j - 1] == a[..j][..j - 1] == b[..j - 1];
      assert a[j - 1] == a[..j][j - 1] == b[j - 1];
      PointsOfPrefix(g, range, a, b, j - 1);
    }
  }
}
