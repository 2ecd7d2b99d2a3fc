/** Decoding a floor in place and drawing its curve (Vorbis I specification, sections 7.2.4, 9.2.6 and
    9.2.7). */
module FloorCurve {
  import opened Bits
  import opened Floor1

  // ---- reconstruction in place ----

  /** Point `k` is used for point `j`'s prediction and `j` is coded as different from it. */
  predicate Marks(g: Floor, coded: seq<int>, j: nat, k: nat) {
    2 <= j < |coded| && j < |g.neighbors| && coded[j] != 0 && (k == j || k == g.neighbors[j].0 || k == g.neighbors[j].1)
  }

  /** The points the curve goes through: the two ends, those coded as off the line, and the neighbours
      these were measured from; among the coded values before `n`. */
  ghost predicate Used(g: Floor, coded: seq<int>, n: nat, k: nat) {
    k < 2 || exists j: nat {:trigger Marks(g, coded, j, k)} :: j < n && Marks(g, coded, j, k)
  }

  lemma UsedNext(g: Floor, coded: seq<int>, n: nat, k: nat)
    ensures Used(g, coded, n + 1, k) <==> Used(g, coded, n, k) || Marks(g, coded, n, k)
  {
    if j: nat :| j < n + 1 && Marks(g, coded, j, k) { assert j < n ==> Used(g, coded, n, k); }
    if j: nat :| j < n && Marks(g, coded, j, k) { assert Used(g, coded, n + 1, k); }
  }

  /** What the loop has made of the array after `n` values. */
  ghost predicate Halfway(g: Floor, range: int, coded: seq<int>, n: nat, ys: seq<int>, flags: seq<bool>)
    requires FloorOk(g) && n <= |g.xs| == |coded|
  {
    && |ys| == |flags| == |coded|
    && ys[..n] == Points(g, range, coded, n) && ys[n..] == coded[n..]
    && forall k {:trigger flags[k]} :: 0 <= k < |flags| ==> (flags[k] && k < n <==> Used(g, coded, n, k) && k < n)
  }

  lemma UsedBelow(g: Floor, coded: seq<int>, n: nat, k: nat)
    requires FloorOk(g) && n <= |g.xs| && Used(g, coded, n, k) && n >= 2
    ensures k < n
  {
    if j: nat :| j < n && Marks(g, coded, j, k) { assert g.neighbors[j].0 < j && g.neighbors[j].1 < j; }
  }

  /** One value: its prediction, the unwrapped point and the marks it leaves. */
  method StepPoint(g: Floor, range: int, finalY: array<int>, flags: array<bool>, j: nat, ghost coded: seq<int>)
    requires FloorOk(g) && 2 <= j < |g.xs| == |coded| && finalY.Length == flags.Length == |coded|
    requires Halfway(g, range, coded, j, finalY[..], flags[..])
    modifies finalY, flags
    ensures Halfway(g, range, coded, j + 1, finalY[..], flags[..])
  {
    hide PredictPoint, Unwrap, FloorOk;
    ghost var ys0, flags0 := finalY[..], flags[..];
    NeighborsBelow(g, j);
    var low, high := g.neighbors[j].0, g.neighbors[j].1;
    assert ys0[low] == ys0[..j][low] && ys0[high] == ys0[..j][high] && ys0[j] == ys0[j..][0];
    var pred := PredictPoint(g.xs[j], g.xs[low], g.xs[high], finalY[low], finalY[high]);
    assert pred == Predicted(g, Points(g, range, coded, j), j);
    var val := finalY[j];
    finalY[j] := Unwrap(range, pred, val);
    if val != 0 {
      flags[low] := true;
      flags[high] := true;
      flags[j] := true;
    } else {
      flags[j] := false;
    }
    assert finalY[..j + 1] == ys0[..j] + [Unwrap(range, pred, val)];
    assert finalY[j + 1..] == ys0[j..][1..];
    assert coded[j + 1..] == coded[j..][1..];
    forall k: nat {:trigger flags[k]} | k < flags.Length
      ensures flags[..][k] && k < j + 1 <==> Used(g, coded, j + 1, k) && k < j + 1
    {
      UsedNext(g, coded, j, k);
      assert flags0[k] && k < j <==> Used(g, coded, j, k) && k < j;
      if k == j { NotYetUsed(g, coded, j); }
    }
  }

  lemma NeighborsBelow(g: Floor, j: nat)
    requires FloorOk(g) && 2 <= j < |g.xs|
    ensures |g.neighbors| == |g.xs| && g.neighbors[j].0 < j && g.neighbors[j].1 < j
    ensures g.xs[g.neighbors[j].0] < g.xs[j] < g.xs[g.neighbors[j].1]
  {
  }

  lemma NotYetUsed(g: Floor, coded: seq<int>, j: nat)
    requires FloorOk(g) && 2 <= j < |g.xs|
    ensures !Used(g, coded, j, j)
  {
    if Used(g, coded, j, j) { UsedBelow(g, coded, j, j); }
  }

  lemma TwoPositions(g: Floor)
    requires FloorOk(g)
    ensures |g.xs| >= 2
  {
  }

  lemma FirstTwo(g: Floor, range: int, coded: seq<int>, flags: seq<bool>)
    requires FloorOk(g) && |g.xs| == |coded| == |flags| && forall k {:trigger flags[k]} :: 0 <= k < |flags| ==> flags[k]
    ensures Halfway(g, range, coded, 2, coded, flags)
  {
  }

  /** Turns coded values into points, -1 for those the curve does not go through. */
  method Reconstruct(g: Floor, range: int, finalY: array<int>)
    requires FloorOk(g) && finalY.Length == |g.xs|
    modifies finalY
    ensures forall k {:trigger finalY[k]} :: 0 <= k < finalY.Length ==>
      finalY[k] == if Used(g, old(finalY[..]), |g.xs|, k) then Points(g, range, old(finalY[..]), |g.xs|)[k] else -1
    ensures Rebuilt(g, range, old(finalY[..]), finalY[..])
  {
    hide Used, FloorOk, Rebuilt;
    ghost var coded := finalY[..];
    var n := |g.xs|;
    TwoPositions(g);
    var flags := new bool[n](_ => true);
    FirstTwo(g, range, coded, flags[..]);
    var j := 2;
    while j < n
      invariant 2 <= j <= n && fresh(flags) && Halfway(g, range, coded, j, finalY[..], flags[..])
    {
      StepPoint(g, range, finalY, flags, j, coded);
      j := j + 1;
    }
    ghost var ys, marks := finalY[..], flags[..];
    assert ys[..n] == ys;
    assert forall k {:trigger marks[k]} :: 0 <= k < n ==> (marks[k] <==> Used(g, coded, n, k));
    j := 0;
    while j < n
      invariant 0 <= j <= n && finalY.Length == n
      invariant flags[..] == marks
      invariant forall k {:trigger finalY[k]} :: 0 <= k < n ==> finalY[k] == if k < j && !marks[k] then -1 else ys[k]
    {
      if !flags[j] { finalY[j] := -1; }
      j := j + 1;
    }
    ResultIsRebuilt(g, range, coded, finalY[..]);
  }

  // ---- what reconstruction means ----

  /** Point `k` is one of the two that the value of point `j` was measured from. */
  ghost predicate MeasuredFrom(xs: seq<nat>, j: nat, k: nat)
    requires j < |xs|
  {
    IsLow(xs, j, k) || IsHigh(xs, j, k)
  }

  lemma NeighborsAre(g: Floor, j: nat, k: nat)
    requires FloorOk(g) && 2 <= j < |g.xs|
    ensures MeasuredFrom(g.xs, j, k) <==> k == g.neighbors[j].0 || k == g.neighbors[j].1
  {
    var a, b := g.neighbors[j].0, g.neighbors[j].1;
    assert IsLow(g.xs, j, a) && IsHigh(g.xs, j, b);
    if IsLow(g.xs, j, k) { OnlyNeighbors(g, j, k, b); }
    if IsHigh(g.xs, j, k) { OnlyNeighbors(g, j, a, k); }
  }

  /** The result of a reconstruction from `coded`, told without the flags: a point is left out exactly when it
      is not an end, is coded as lying on its line, and no point off its line was measured from it; the others
      have their heights. */
  ghost predicate Rebuilt(g: Floor, range: int, coded: seq<int>, ys: seq<int>)
    requires FloorOk(g) && |coded| == |g.xs|
  {
    && |ys| == |coded|
    && forall k: nat {:trigger ys[k]} :: k < |ys| ==>
         if LeftOut(g.xs, coded, k) then ys[k] == -1 else ys[k] == Points(g, range, coded, |g.xs|)[k]
  }

  ghost predicate LeftOut(xs: seq<nat>, coded: seq<int>, k: nat)
    requires |coded| == |xs|
  {
    && 2 <= k < |coded| && coded[k] == 0
    && forall j: nat {:trigger MeasuredFrom(xs, j, k)} :: 2 <= j < |coded| && coded[j] != 0 ==> !MeasuredFrom(xs, j, k)
  }

  lemma UsedIs(g: Floor, coded: seq<int>, k: nat)
    requires FloorOk(g) && |coded| == |g.xs| && k < |coded|
    ensures Used(g, coded, |g.xs|, k) <==> !LeftOut(g.xs, coded, k)
  {
    hide MeasuredFrom;
    if k >= 2 && coded[k] != 0 { assert Marks(g, coded, k, k); }
    forall j: nat {:trigger MeasuredFrom(g.xs, j, k)} | 2 <= j < |coded| && coded[j] != 0
      ensures MeasuredFrom(g.xs, j, k) ==> Marks(g, coded, j, k)
      ensures Marks(g, coded, j, k) ==> j == k || MeasuredFrom(g.xs, j, k)
    {
      NeighborsAre(g, j, k);
    }
    if j: nat :| j < |g.xs| && Marks(g, coded, j, k) {
      assert j == k || MeasuredFrom(g.xs, j, k) by { NeighborsAre(g, j, k); }
    }
  }

  lemma ResultIsRebuilt(g: Floor, range: int, coded: seq<int>, ys: seq<int>)
    requires FloorOk(g) && |ys| == |coded| == |g.xs|
    requires forall k {:trigger ys[k]} :: 0 <= k < |ys| ==>
      ys[k] == if Used(g, coded, |g.xs|, k) then Points(g, range, coded, |g.xs|)[k] else -1
    ensures Rebuilt(g, range, coded, ys)
  {
    hide Used, LeftOut, FloorOk;
    forall k: nat {:trigger ys[k]} | k < |ys|
      ensures if LeftOut(g.xs, coded, k) then ys[k] == -1 else ys[k] == Points(g, range, coded, |g.xs|)[k]
    {
      UsedIs(g, coded, k);
    }
  }

  /** From values in range, -1 marks exactly the points left out; a point coded off its line and the two it was
      measured from are kept. */
  lemma MarksAreExact(g: Floor, range: int, coded: seq<int>, ys: seq<int>)
    requires FloorOk(g) && |coded| == |g.xs| && AllIn(range, coded) && Rebuilt(g, range, coded, ys)
    ensures forall k: nat {:trigger ys[k]} :: k < |ys| ==> (ys[k] == -1 <==> LeftOut(g.xs, coded, k)) && -1 <= ys[k] < range
    ensures forall j: nat, k: nat {:trigger MeasuredFrom(g.xs, j, k)} ::
      2 <= j < |coded| && coded[j] != 0 && MeasuredFrom(g.xs, j, k) ==> k < j && 0 <= ys[j] < range && 0 <= ys[k] < range
  {
    PointsInRange(g, range, coded, |g.xs|);
    hide Points, FloorOk;
    assert forall k: nat {:trigger ys[k]} :: k < |ys| ==> (ys[k] == -1 <==> LeftOut(g.xs, coded, k)) && -1 <= ys[k] < range;
    forall j: nat, k: nat {:trigger MeasuredFrom(g.xs, j, k)} | 2 <= j < |coded| && coded[j] != 0 && MeasuredFrom(g.xs, j, k)
      ensures k < j && 0 <= ys[j] < range && 0 <= ys[k] < range
    {
      assert !LeftOut(g.xs, coded, j) && !LeftOut(g.xs, coded, k);
      assert ys[j] >= -1 && ys[k] >= -1;
    }
  }

  // ---- drawing a line ----

  /** Integer division of C: towards zero. */
  function DivTowardsZero(a: int, b: int): int
    requires b > 0
  {
    if a < 0 then -((-a) / b) else a / b
  }

  /** The incremental quotient and remainder of `a * t` by `d` after one more step of `a == b * d + rem`. */
  lemma LineStep(a: nat, t: nat, d: nat, q: nat, err: nat, b: nat, rem: nat)
    requires d > 0 && a == b * d + rem && a * t == d * q + err
    ensures a * (t + 1) == d * (q + b) + (err + rem)
    ensures a * (t + 1) == d * (q + b + 1) + (err + rem - d)
  {
    assert a * (t + 1) == a * t + a;
    assert d * (q + b) == d * q + b * d;
    assert d * (q + b + 1) == d * (q + b) + d;
  }

  lemma LineStart(a: nat, d: nat)
    requires d > 0
    ensures a == a / d * d + a % d && 0 <= a % d < d && a / d >= 0
  {
    QuotientNonNegative(a, d);
  }

  /** What the loop keeps at column `x`: the height `y` and the error term `err` of the line from (x0, y0)
      to (x1, y1), `q` being how far the height has moved. */
  ghost predicate OnLine(x0: int, x1: int, y0: int, y1: int, x: int, y: int, err: int, q: int) {
    && x0 <= x && x0 < x1 && 0 <= err < x1 - x0 && 0 <= q
    && Abs(y1 - y0) * (x - x0) == (x1 - x0) * q + err
    && y == if y1 < y0 then y0 - q else y0 + q
  }

  /** Slope of the line, rounded towards zero, and what it leaves. */
  function Base(dy: int, adx: int): int
    requires adx > 0
  {
    DivTowardsZero(dy, adx)
  }

  function Remainder(dy: int, adx: int): int
    requires adx > 0
  {
    Abs(dy) - Abs(Base(dy, adx)) * adx
  }

  lemma BaseParts(dy: int, adx: int)
    requires adx > 0
    ensures Abs(Base(dy, adx)) == Abs(dy) / adx && Remainder(dy, adx) == Abs(dy) % adx
    ensures if dy < 0 then Base(dy, adx) + Abs(Base(dy, adx)) == 0 else Base(dy, adx) == Abs(Base(dy, adx))
  {
    LineStart(Abs(dy), adx);
  }

  lemma OnLineFirst(x0: int, x1: int, y0: int, y1: int)
    requires x0 < x1
    ensures OnLine(x0, x1, y0, y1, x0, y0, 0, 0)
  {
    assert Abs(y1 - y0) * 0 == 0 && (x1 - x0) * 0 == 0;
  }

  /** One step of the loop. */
  lemma OnLineNext(x0: int, x1: int, y0: int, y1: int, x: int, y: int, err: int, q: int) returns (q': int)
    requires OnLine(x0, x1, y0, y1, x, y, err, q)
    ensures var dy, adx := y1 - y0, x1 - x0;
            var base, err' := Base(dy, adx), err + Remainder(dy, adx);
            if err' >= adx then OnLine(x0, x1, y0, y1, x + 1, y + (if dy < 0 then base - 1 else base + 1), err' - adx, q')
            else OnLine(x0, x1, y0, y1, x + 1, y + base, err', q')
  {
    hide Base, Remainder;
    var dy, adx := y1 - y0, x1 - x0;
    var a: nat := Abs(dy);
    BaseParts(dy, adx);
    LineStart(a, adx);
    LineStep(a, x - x0, adx, q, err, a / adx, a % adx);
    q' := q + a / adx + if err + a % adx >= adx then 1 else 0;
  }

  /** The height kept by the loop is the predicted one. */
  lemma LineAt(x0: int, x1: int, y0: int, y1: int, x: int, y: int, err: int, q: int)
    requires OnLine(x0, x1, y0, y1, x, y, err, q)
    ensures PredictPoint(x, x0, x1, y0, y1) == y
  {
    DivUnique(Abs(y1 - y0) * (x - x0), x1 - x0, q, err);
  }

  /** Multiplies the output by the table's value at each height of the line, the right end left out. */
  method DrawLine(output: array<real>, table: int -> real, x0: nat, y0: int, x1: nat, y1: int, n: nat)
    requires x0 < x1 && n <= output.Length
    modifies output
    ensures forall x {:trigger output[x]} :: 0 <= x < output.Length ==>
      output[x] == if x0 <= x < x1 && x < n then old(output[x]) * table(PredictPoint(x, x0, x1, y0, y1) % 256)
                   else old(output[x])
  {
    hide PredictPoint, OnLine, Remainder, Base;
    var dy, adx := y1 - y0, x1 - x0;
    var base, rem := Base(dy, adx), Remainder(dy, adx);
    var sy := if dy < 0 then base - 1 else base + 1;
    var x, y, err := x0, y0, 0;
    var end := if x1 > n then n else x1;
    OnLineFirst(x0, x1, y0, y1);
    ghost var q := 0;
    if x < end {
      LineAt(x0, x1, y0, y1, x, y, err, q);
      output[x] := output[x] * table(y % 256);
      x := x + 1;
      while x < end
        invariant x0 < x <= end && OnLine(x0, x1, y0, y1, x - 1, y, err, q)
        invariant forall k {:trigger output[k]} :: 0 <= k < output.Length ==>
          output[k] == if x0 <= k < x then old(output[k]) * table(PredictPoint(k, x0, x1, y0, y1) % 256)
                       else old(output[k])
      {
        q := OnLineNext(x0, x1, y0, y1, x - 1, y, err, q);
        err := err + rem;
        if err >= adx {
          err := err - adx;
          y := y + sy;
        } else {
          y := y + base;
        }
        LineAt(x0, x1, y0, y1, x, y, err, q);
        output[x] := output[x] * table(y % 256);
        x := x + 1;
      }
    }
  }

  // ---- drawing the curve ----

  datatype Point = Point(x: nat, y: int)

  /** Points from left to right. */
  ghost predicate LeftToRight(pts: seq<Point>) {
    forall i, j {:trigger pts[i], pts[j]} :: 0 <= i < j < |pts| ==> pts[i].x < pts[j].x
  }

  /** The curve through the points: a rounded line between neighbours, level behind the last one. */
  function Curve(pts: seq<Point>, x: nat): int
    requires pts != [] && LeftToRight(pts) && pts[0].x <= x
    decreases |pts|
  {
    var last := pts[|pts| - 1];
    if x >= last.x then last.y
    else
      var before := pts[..|pts| - 1];
      if x >= before[|before| - 1].x then PredictPoint(x, before[|before| - 1].x, last.x, before[|before| - 1].y, last.y)
      else Curve(before, x)
  }

  /** One more point on the right changes nothing on the left. */
  lemma CurveExtend(pts: seq<Point>, p: Point, x: nat)
    requires pts != [] && LeftToRight(pts) && pts[0].x <= x && pts[|pts| - 1].x < p.x
    ensures LeftToRight(pts + [p])
    ensures x < pts[|pts| - 1].x ==> Curve(pts + [p], x) == Curve(pts, x)
    ensures pts[|pts| - 1].x <= x < p.x ==>
      Curve(pts + [p], x) == PredictPoint(x, pts[|pts| - 1].x, p.x, pts[|pts| - 1].y, p.y)
  {
    hide PredictPoint;
    assert (pts + [p])[..|pts|] == pts;
  }

  /** The positions in ascending order. */
  ghost predicate SortedOrder(xs: seq<nat>, order: seq<nat>) {
    && |order| == |xs| > 0 && order[0] == 0
    && (forall q {:trigger order[q]} :: 0 <= q < |order| ==> order[q] < |xs|)
    && (forall i, j {:trigger order[i], order[j]} :: 0 <= i < j < |order| ==> xs[order[i]] < xs[order[j]])
  }

  /** The points the curve goes through, among the first `q` positions in ascending order: those not -1. */
  function CurvePoints(xs: seq<nat>, order: seq<nat>, ys: seq<int>, mult: nat, q: nat): (pts: seq<Point>)
    requires |ys| == |xs| && SortedOrder(xs, order) && 0 < q <= |order|
    ensures pts != [] && pts[0] == Point(xs[0], ys[0] * mult)
    ensures forall i {:trigger pts[i]} :: 0 <= i < |pts| ==> pts[i].x <= xs[order[q - 1]]
    ensures LeftToRight(pts)
  {
    if q == 1 then [Point(xs[0], ys[0] * mult)]
    else
      var pts := CurvePoints(xs, order, ys, mult, q - 1);
      var j := order[q - 1];
      assert xs[order[q - 2]] < xs[j];
      if ys[j] >= 0 then pts + [Point(xs[j], ys[j] * mult)] else pts
  }

  /** Heights that index the table of 256 decibel values. */
  ghost predicate HeightsOk(ys: seq<int>, mult: nat) {
    ys != [] && ys[0] >= 0 && forall j {:trigger ys[j]} :: 0 <= j < |ys| && ys[j] >= 0 ==> ys[j] * mult < 256
  }

  /** The height of a line between two such heights needs no masking. */
  lemma LineUnmasked(x: nat, x0: nat, x1: nat, y0: int, y1: int)
    requires x0 <= x < x1 && 0 <= y0 < 256 && 0 <= y1 < 256
    ensures PredictPoint(x, x0, x1, y0, y1) % 256 == PredictPoint(x, x0, x1, y0, y1)
  {
    hide PredictPoint;
    PredictBetween(x, x0, x1, y0, y1);
  }

  /** Columns `0` to `lx` have been scaled by the curve, the others not yet. */
  ghost predicate Scaled(was: seq<real>, now: seq<real>, table: int -> real, pts: seq<Point>, lx: nat, n: nat)
    requires pts != [] && LeftToRight(pts) && pts[0].x == 0
  {
    && |now| == |was|
    && forall x {:trigger now[x]} :: 0 <= x < |now| ==>
         now[x] == if x < lx && x < n then was[x] * table(Curve(pts, x)) else was[x]
  }

  /** A line drawn to the next point. */
  lemma ScaledNext(was: seq<real>, mid: seq<real>, now: seq<real>, table: int -> real, pts: seq<Point>, p: Point, n: nat)
    requires pts != [] && LeftToRight(pts) && pts[0].x == 0 && pts[|pts| - 1].x < p.x
    requires 0 <= pts[|pts| - 1].y < 256 && 0 <= p.y < 256
    requires Scaled(was, mid, table, pts, pts[|pts| - 1].x, n) && |now| == |mid|
    requires var l := pts[|pts| - 1];
             forall x {:trigger now[x]} :: 0 <= x < |now| ==>
               now[x] == if l.x <= x < p.x && x < n then mid[x] * table(PredictPoint(x, l.x, p.x, l.y, p.y) % 256) else mid[x]
    ensures LeftToRight(pts + [p]) && Scaled(was, now, table, pts + [p], p.x, n)
  {
    hide PredictPoint, Curve;
    var l := pts[|pts| - 1];
    CurveExtend(pts, p, 0);
    forall x {:trigger now[x]} | 0 <= x < |now|
      ensures now[x] == if x < p.x && x < n then was[x] * table(Curve(pts + [p], x)) else was[x]
    {
      CurveExtend(pts, p, x);
      assert mid[x] == if x < l.x && x < n then was[x] * table(Curve(pts, x)) else was[x];
      if l.x <= x < p.x { LineUnmasked(x, l.x, p.x, l.y, p.y); }
    }
  }

  /** The curve drawn as far as the first `q` positions, the last of its points being (lx, ly). */
  ghost predicate Drawn(xs: seq<nat>, order: seq<nat>, ys: seq<int>, mult: nat, q: nat, lx: nat, ly: int,
                        was: seq<real>, now: seq<real>, table: int -> real, n: nat)
    requires |ys| == |xs| && SortedOrder(xs, order) && 0 < q <= |order| && xs[0] == 0
  {
    var pts := CurvePoints(xs, order, ys, mult, q);
    pts[|pts| - 1] == Point(lx, ly) && 0 <= ly < 256 && Scaled(was, now, table, pts, lx, n)
  }

  /** Each of the first `n` columns has been scaled exactly once, by the height of the curve there, and no other. */
  ghost predicate Applied(was: seq<real>, now: seq<real>, table: int -> real, pts: seq<Point>, n: nat)
    requires pts != [] && LeftToRight(pts) && pts[0].x == 0
  {
    && |now| == |was|
    && forall x {:trigger now[x]} :: 0 <= x < |now| ==> now[x] == if x < n then was[x] * table(Curve(pts, x)) else was[x]
  }

  /** The next position: a line to its point, unless the curve does not go through it. */
  method DrawNext(xs: seq<nat>, order: seq<nat>, mult: nat, finalY: array<int>, target: array<real>, table: int -> real,
                  n2: nat, q: nat, lx0: nat, ly0: int, ghost was: seq<real>)
    returns (lx: nat, ly: int)
    requires finalY.Length == |xs| && SortedOrder(xs, order) && xs[0] == 0 && HeightsOk(finalY[..], mult) && n2 <= target.Length
    requires 0 < q < |order| && Drawn(xs, order, finalY[..], mult, q, lx0, ly0, was, target[..], table, n2)
    modifies target
    ensures Drawn(xs, order, finalY[..], mult, q + 1, lx, ly, was, target[..], table, n2)
  {
    hide *;
    ghost var mid, ys := target[..], finalY[..];
    OrderIndexes(xs, order, q);
    lx, ly := lx0, ly0;
    var j := order[q];
    if finalY[j] >= 0 {
      DrawnBehind(xs, order, ys, mult, q, lx0, ly0, was, mid, table, n2);
      var hy, hx := finalY[j] * mult, xs[j];
      if lx != hx { DrawLine(target, table, lx, ly, hx, hy, n2); }
      lx, ly := hx, hy;
      DrawnNext(xs, order, ys, mult, q, lx0, ly0, was, mid, target[..], table, n2);
    } else {
      DrawnSame(xs, order, ys, mult, q, lx0, ly0, was, mid, table, n2);
    }
  }

  lemma OrderIndexes(xs: seq<nat>, order: seq<nat>, q: nat)
    requires SortedOrder(xs, order) && q < |order|
    ensures order[q] < |xs|
  {
  }

  lemma DrawnBehind(xs: seq<nat>, order: seq<nat>, ys: seq<int>, mult: nat, q: nat, lx: nat, ly: int,
                    was: seq<real>, now: seq<real>, table: int -> real, n: nat)
    requires |ys| == |xs| && SortedOrder(xs, order) && xs[0] == 0 && 0 < q < |order| && order[q] < |xs|
    requires Drawn(xs, order, ys, mult, q, lx, ly, was, now, table, n)
    ensures lx < xs[order[q]]
  {
    PointsNext(xs, order, ys, mult, q);
  }

  lemma DrawnSame(xs: seq<nat>, order: seq<nat>, ys: seq<int>, mult: nat, q: nat, lx: nat, ly: int,
                  was: seq<real>, now: seq<real>, table: int -> real, n: nat)
    requires |ys| == |xs| && SortedOrder(xs, order) && xs[0] == 0 && 0 < q < |order| && order[q] < |xs| && ys[order[q]] < 0
    requires Drawn(xs, order, ys, mult, q, lx, ly, was, now, table, n)
    ensures Drawn(xs, order, ys, mult, q + 1, lx, ly, was, now, table, n)
  {
    PointsNext(xs, order, ys, mult, q);
    hide CurvePoints, Scaled;
  }

  lemma DrawnNext(xs: seq<nat>, order: seq<nat>, ys: seq<int>, mult: nat, q: nat, lx: nat, ly: int,
                  was: seq<real>, mid: seq<real>, now: seq<real>, table: int -> real, n: nat)
    requires |ys| == |xs| && SortedOrder(xs, order) && xs[0] == 0 && 0 < q < |order| && order[q] < |xs| && ys[order[q]] >= 0
    requires HeightsOk(ys, mult) && Drawn(xs, order, ys, mult, q, lx, ly, was, mid, table, n) && lx < xs[order[q]]
    requires |now| == |mid| && forall x {:trigger now[x]} :: 0 <= x < |now| ==>
      now[x] == if lx <= x < xs[order[q]] && x < n
                then mid[x] * table(PredictPoint(x, lx, xs[order[q]], ly, ys[order[q]] * mult) % 256) else mid[x]
    ensures Drawn(xs, order, ys, mult, q + 1, xs[order[q]], ys[order[q]] * mult, was, now, table, n)
  {
    hide *;
    var pts, p := CurvePoints(xs, order, ys, mult, q), Point(xs[order[q]], ys[order[q]] * mult);
    PointsNext(xs, order, ys, mult, q);
    HeightInTable(ys, mult, order[q]);
    DrawnMeans(xs, order, ys, mult, q, lx, ly, was, mid, table, n);
    ScaledNext(was, mid, now, table, pts, p, n);
    EndsAt(pts, p);
    DrawnMeans(xs, order, ys, mult, q + 1, p.x, p.y, was, now, table, n);
  }

  lemma EndsAt(pts: seq<Point>, p: Point)
    ensures (pts + [p])[|pts + [p]| - 1] == p
  {
  }

  lemma DrawnMeans(xs: seq<nat>, order: seq<nat>, ys: seq<int>, mult: nat, q: nat, lx: nat, ly: int,
                   was: seq<real>, now: seq<real>, table: int -> real, n: nat)
    requires |ys| == |xs| && SortedOrder(xs, order) && xs[0] == 0 && 0 < q <= |order|
    ensures var pts := CurvePoints(xs, order, ys, mult, q);
            Drawn(xs, order, ys, mult, q, lx, ly, was, now, table, n) <==>
              pts[|pts| - 1] == Point(lx, ly) && 0 <= ly < 256 && Scaled(was, now, table, pts, lx, n)
  {
    hide CurvePoints, Scaled;
  }

  lemma DrawnFirst(xs: seq<nat>, order: seq<nat>, ys: seq<int>, mult: nat, was: seq<real>, table: int -> real, n: nat)
    requires |ys| == |xs| && SortedOrder(xs, order) && xs[0] == 0 && HeightsOk(ys, mult)
    ensures |order| > 0 && |xs| > 0 && Drawn(xs, order, ys, mult, 1, 0, ys[0] * mult, was, was, table, n)
  {
    FirstIsStart(xs, order);
    HeightInTable(ys, mult, 0);
    FirstPoint(xs, order, ys, mult);
    hide CurvePoints, HeightsOk, Scaled;
    NothingScaled(was, table, CurvePoints(xs, order, ys, mult, 1), n);
  }

  /** All lines between points. */
  method DrawAll(xs: seq<nat>, order: seq<nat>, mult: nat, finalY: array<int>, target: array<real>, table: int -> real, n2: nat)
    returns (lx: nat, ly: int)
    requires finalY.Length == |xs| && SortedOrder(xs, order) && xs[0] == 0 && HeightsOk(finalY[..], mult) && n2 <= target.Length
    modifies target
    ensures Drawn(xs, order, finalY[..], mult, |order|, lx, ly, old(target[..]), target[..], table, n2)
  {
    hide *;
    ghost var was, ys := target[..], finalY[..];
    DrawnFirst(xs, order, ys, mult, was, table, n2);
    lx, ly := 0, finalY[0] * mult;
    var q := 1;
    while q < |order|
      invariant 1 <= q <= |order| && Drawn(xs, order, ys, mult, q, lx, ly, was, target[..], table, n2)
    {
      lx, ly := DrawNext(xs, order, mult, finalY, target, table, n2, q, lx, ly, was);
      q := q + 1;
    }
  }

  /** Scales every column of the spectrum exactly once, by the curve through the points in use. */
  method DoFloor(xs: seq<nat>, order: seq<nat>, mult: nat, finalY: array<int>, target: array<real>, table: int -> real, n2: nat)
    requires finalY.Length == |xs| && SortedOrder(xs, order) && xs[0] == 0 && HeightsOk(finalY[..], mult) && n2 <= target.Length
    modifies target
    ensures Applied(old(target[..]), target[..], table, CurvePoints(xs, order, finalY[..], mult, |order|), n2)
  {
    FirstIsStart(xs, order);
    hide Curve, HeightsOk, Scaled, LeftToRight, SortedOrder, CurvePoints, Applied;
    ghost var was, pts := target[..], CurvePoints(xs, order, finalY[..], mult, |order|);
    var lx, ly := DrawAll(xs, order, mult, finalY, target, table, n2);
    if lx < n2 { Level(target, table, pts, lx, ly, n2, was); }
    AllScaled(was, target[..], table, pts, lx, n2);
  }

  /** The last point of the curve so far is the last one it goes through. */
  lemma {:induction false} LastPoint(xs: seq<nat>, order: seq<nat>, ys: seq<int>, mult: nat, q: nat, a: nat)
    requires |ys| == |xs| && SortedOrder(xs, order) && a < q <= |order| && (a == 0 || ys[order[a]] >= 0)
    requires forall l {:trigger order[l]} :: a < l < q ==> ys[order[l]] < 0
    ensures var pts := CurvePoints(xs, order, ys, mult, q); pts[|pts| - 1] == Point(xs[order[a]], ys[order[a]] * mult)
    decreases q
  {
    if q - 1 > a { LastPoint(xs, order, ys, mult, q - 1, a); }
  }

  /** What the curve is at a column, told without the list of points: between two positions next to each other
      among those it goes through, `a` and `b` in ascending order, the line from one to the other; behind the last
      one, level. */
  lemma {:induction false} CurveAt(xs: seq<nat>, order: seq<nat>, ys: seq<int>, mult: nat, q: nat, a: nat, b: nat, x: nat)
    requires |ys| == |xs| && SortedOrder(xs, order) && a < b <= q <= |order| && (a == 0 || ys[order[a]] >= 0)
    requires (forall l {:trigger order[l]} :: a < l < b ==> ys[order[l]] < 0) && (b < q ==> ys[order[b]] >= 0)
    requires xs[0] == 0 && xs[order[a]] <= x && (b < q ==> x < xs[order[b]])
    ensures Curve(CurvePoints(xs, order, ys, mult, q), x) ==
      if b == q then ys[order[a]] * mult
      else PredictPoint(x, xs[order[a]], xs[order[b]], ys[order[a]] * mult, ys[order[b]] * mult)
    decreases q
  {
    hide PredictPoint, Curve, LeftToRight, CurvePoints;
    if b == q {
      LastPoint(xs, order, ys, mult, q, a);
      CurveBehind(CurvePoints(xs, order, ys, mult, q), x);
    } else {
      var j, before := order[q - 1], CurvePoints(xs, order, ys, mult, q - 1);
      PointsNext(xs, order, ys, mult, q - 1);
      if b < q - 1 {
        CurveAt(xs, order, ys, mult, q - 1, a, b, x);
        PointsReach(xs, order, ys, mult, q - 1, b);
        if ys[j] >= 0 { CurveExtend(before, Point(xs[j], ys[j] * mult), x); }
      } else {
        LastPoint(xs, order, ys, mult, q - 1, a);
        CurveExtend(before, Point(xs[j], ys[j] * mult), x);
      }
    }
  }

  lemma CurveBehind(pts: seq<Point>, x: nat)
    requires pts != [] && LeftToRight(pts) && pts[0].x <= x && x >= pts[|pts| - 1].x
    ensures Curve(pts, x) == pts[|pts| - 1].y
  {
  }

  lemma {:induction false} PointsReach(xs: seq<nat>, order: seq<nat>, ys: seq<int>, mult: nat, q: nat, b: nat)
    requires |ys| == |xs| && SortedOrder(xs, order) && 0 < b < q <= |order| && ys[order[b]] >= 0
    ensures var pts := CurvePoints(xs, order, ys, mult, q); xs[order[b]] <= pts[|pts| - 1].x
    decreases q
  {
    hide CurvePoints, LeftToRight;
    PointsNext(xs, order, ys, mult, q - 1);
    if b < q - 1 { PointsReach(xs, order, ys, mult, q - 1, b); }
  }

  lemma FirstIsStart(xs: seq<nat>, order: seq<nat>)
    requires SortedOrder(xs, order)
    ensures |order| == |xs| > 0
  {
  }

  /** The points up to the next position. */
  lemma PointsNext(xs: seq<nat>, order: seq<nat>, ys: seq<int>, mult: nat, q: nat)
    requires |ys| == |xs| && SortedOrder(xs, order) && 0 < q < |order|
    ensures var pts, j := CurvePoints(xs, order, ys, mult, q), order[q];
            && j < |xs| && pts[|pts| - 1].x < xs[j]
            && CurvePoints(xs, order, ys, mult, q + 1) == if ys[j] >= 0 then pts + [Point(xs[j], ys[j] * mult)] else pts
  {
    assert xs[order[q - 1]] < xs[order[q]];
  }

  lemma FirstPoint(xs: seq<nat>, order: seq<nat>, ys: seq<int>, mult: nat)
    requires |ys| == |xs| && SortedOrder(xs, order)
    ensures CurvePoints(xs, order, ys, mult, 1) == [Point(xs[0], ys[0] * mult)]
  {
  }

  lemma NothingScaled(was: seq<real>, table: int -> real, pts: seq<Point>, n: nat)
    requires pts != [] && LeftToRight(pts) && pts[0].x == 0
    ensures Scaled(was, was, table, pts, 0, n)
  {
  }

  lemma AllScaled(was: seq<real>, now: seq<real>, table: int -> real, pts: seq<Point>, lx: nat, n: nat)
    requires pts != [] && LeftToRight(pts) && pts[0].x == 0
    requires if lx < n then Scaled(was, now, table, pts, n, n) else Scaled(was, now, table, pts, lx, n)
    ensures Applied(was, now, table, pts, n)
  {
    hide Curve;
  }

  lemma HeightInTable(ys: seq<int>, mult: nat, j: nat)
    requires HeightsOk(ys, mult) && j < |ys| && (ys[j] >= 0 || j == 0)
    ensures 0 <= ys[j] * mult < 256
  {
    MulMono(0, ys[j], mult);
    assert 0 * mult == 0;
  }

  /** Behind the last point the curve is level. */
  method Level(target: array<real>, table: int -> real, ghost pts: seq<Point>, lx: nat, ly: int, n2: nat, ghost was: seq<real>)
    requires pts != [] && LeftToRight(pts) && pts[0].x == 0 && pts[|pts| - 1] == Point(lx, ly)
    requires lx < n2 <= target.Length && Scaled(was, target[..], table, pts, lx, n2)
    modifies target
    ensures Scaled(was, target[..], table, pts, n2, n2)
  {
    var j := lx;
    while j < n2
      invariant lx <= j <= n2 && Scaled(was, target[..], table, pts, j, n2)
    {
      target[j] := target[j] * table(ly);
      j := j + 1;
    }
  }

  // ---- setting a floor up ----

  /** Positions as they are read: 0 first, a bound for the others second. */
  ghost predicate Positions(xs: seq<nat>) {
    |xs| >= 2 && xs[0] == 0 && forall i {:trigger xs[i]} :: 0 <= i < |xs| ==> xs[i] <= xs[1] < 65536
  }

  predicate Inside(xs: seq<nat>, ids: seq<nat>) {
    forall q {:trigger ids[q]} :: 0 <= q < |ids| ==> ids[q] < |xs|
  }

  ghost predicate AscendingBy(xs: seq<nat>, ids: seq<nat>) {
    Inside(xs, ids) && forall i, j {:trigger ids[i], ids[j]} :: 0 <= i < j < |ids| ==> xs[ids[i]] <= xs[ids[j]]
  }

  predicate AllDifferent(ids: seq<nat>) {
    forall i, j {:trigger ids[i], ids[j]} :: 0 <= i < j < |ids| ==> ids[i] != ids[j]
  }

  /** Behind how many indices of the order a further one belongs. */
  function Spot(xs: seq<nat>, ids: seq<nat>, id: nat): (p: nat)
    requires id < |xs| && AscendingBy(xs, ids)
    ensures p <= |ids| && forall q {:trigger ids[q]} :: 0 <= q < p ==> xs[ids[q]] <= xs[id]
    ensures forall q {:trigger ids[q]} :: p <= q < |ids| ==> xs[ids[q]] > xs[id]
  {
    if ids == [] || xs[ids[|ids| - 1]] <= xs[id] then |ids| else Spot(xs, ids[..|ids| - 1], id)
  }

  function Splice(ids: seq<nat>, p: nat, id: nat): (r: seq<nat>)
    requires p <= |ids|
    ensures |r| == |ids| + 1
  {
    ids[..p] + [id] + ids[p..]
  }

  lemma SpliceAscends(xs: seq<nat>, ids: seq<nat>, p: nat, id: nat)
    requires id < |xs| && AscendingBy(xs, ids) && p <= |ids|
    requires forall q {:trigger ids[q]} :: 0 <= q < p ==> xs[ids[q]] <= xs[id]
    requires forall q {:trigger ids[q]} :: p <= q < |ids| ==> xs[ids[q]] > xs[id]
    ensures AscendingBy(xs, Splice(ids, p, id))
  {
  }

  lemma SpliceDifferent(ids: seq<nat>, p: nat, id: nat)
    requires AllDifferent(ids) && p <= |ids| && forall q {:trigger ids[q]} :: 0 <= q < |ids| ==> ids[q] < id
    ensures AllDifferent(Splice(ids, p, id))
    ensures forall q {:trigger Splice(ids, p, id)[q]} :: 0 <= q <= |ids| ==> Splice(ids, p, id)[q] <= id
  {
  }

  lemma SpliceKeeps(ids: seq<nat>, p: nat, id: nat, i: nat)
    requires p <= |ids| && (i in ids || i == id)
    ensures i in Splice(ids, p, id)
  {
    assert ids == ids[..p] + ids[p..];
  }

  /** The indices below `n` in the order of their positions: what `qsort` makes of them. */
  function Order(xs: seq<nat>, n: nat): (r: seq<nat>)
    requires n <= |xs|
    ensures |r| == n && AscendingBy(xs, r)
  {
    if n == 0 then []
    else
      var ids := Order(xs, n - 1);
      SpliceAscends(xs, ids, Spot(xs, ids, n - 1), n - 1);
      Splice(ids, Spot(xs, ids, n - 1), n - 1)
  }

  lemma {:induction false} OrderHasAll(xs: seq<nat>, n: nat)
    requires n <= |xs|
    ensures AllDifferent(Order(xs, n)) && forall q {:trigger Order(xs, n)[q]} :: 0 <= q < n ==> Order(xs, n)[q] < n
    ensures forall i: nat {:trigger i in Order(xs, n)} :: i < n ==> i in Order(xs, n)
  {
    hide AscendingBy, Spot, Splice;
    if n > 0 {
      OrderHasAll(xs, n - 1);
      var ids := Order(xs, n - 1);
      SpliceDifferent(ids, Spot(xs, ids, n - 1), n - 1);
      OrderKeeps(ids, Spot(xs, ids, n - 1), n - 1);
    }
  }

  lemma OrderKeeps(ids: seq<nat>, p: nat, n: nat)
    requires p <= |ids| && forall i: nat {:trigger i in ids} :: i < n ==> i in ids
    ensures forall i: nat {:trigger i in Splice(ids, p, n)} :: i <= n ==> i in Splice(ids, p, n)
  {
    forall i: nat {:trigger i in Splice(ids, p, n)} | i <= n
      ensures i in Splice(ids, p, n)
    {
      SpliceKeeps(ids, p, n, i);
    }
  }

  /** The first `n` positions of the order are all different. */
  predicate StrictTo(xs: seq<nat>, ids: seq<nat>, n: nat)
    requires n <= |ids| && Inside(xs, ids)
  {
    forall q {:trigger ids[q]} :: 0 < q < n ==> xs[ids[q - 1]] < xs[ids[q]]
  }

  lemma OneIsStrict(xs: seq<nat>, ids: seq<nat>)
    requires AscendingBy(xs, ids) && ids != []
    ensures Inside(xs, ids) && StrictTo(xs, ids, 1)
  {
  }

  lemma NextStrict(xs: seq<nat>, ids: seq<nat>, j: nat)
    requires AscendingBy(xs, ids) && AllDifferent(ids) && 0 < j < |ids| && Inside(xs, ids) && StrictTo(xs, ids, j)
    ensures ids[j - 1] < |xs| && ids[j] < |xs| && ids[j - 1] != ids[j]
    ensures xs[ids[j - 1]] != xs[ids[j]] ==> StrictTo(xs, ids, j + 1)
  {
  }

  lemma {:induction false} StrictOrder(xs: seq<nat>, ids: seq<nat>, i: nat, j: nat)
    requires Inside(xs, ids) && StrictTo(xs, ids, |ids|)
    ensures i < j < |ids| ==> xs[ids[i]] < xs[ids[j]]
    decreases j
  {
    if i < j < |ids| {
      assert xs[ids[j - 1]] < xs[ids[j]];
      if i < j - 1 { StrictOrder(xs, ids, i, j - 1); }
    }
  }

  /** Once neighbours in the order differ, all positions do. */
  lemma StrictMeans(xs: seq<nat>, ids: seq<nat>)
    requires Positions(xs) && Inside(xs, ids) && |ids| == |xs| && StrictTo(xs, ids, |xs|)
    requires forall i: nat {:trigger i in ids} :: i < |xs| ==> i in ids
    ensures PositionsOk(xs) && SortedOrder(xs, ids)
  {
    forall i: nat, j: nat {:trigger xs[i], xs[j]} | i < j < |xs|
      ensures xs[i] != xs[j]
    {
      assert i in ids && j in ids;
      var p: nat :| p < |ids| && ids[p] == i;
      var q: nat :| q < |ids| && ids[q] == j;
      StrictOrder(xs, ids, p, q);
      StrictOrder(xs, ids, q, p);
    }
    forall i: nat, j: nat {:trigger ids[i], ids[j]} | i < j < |ids|
      ensures xs[ids[i]] < xs[ids[j]]
    {
      StrictOrder(xs, ids, i, j);
    }
    assert 0 in ids;
    var p: nat :| p < |ids| && ids[p] == 0;
    StrictOrder(xs, ids, 0, p);
  }

  /** Sorts the positions; refuses two equal ones. */
  method SortPositions(xs: seq<nat>) returns (ok: bool, order: seq<nat>)
    requires Positions(xs)
    ensures ok <==> PositionsOk(xs)
    ensures ok ==> SortedOrder(xs, order)
  {
    hide PositionsOk, SortedOrder, AscendingBy, AllDifferent, StrictTo;
    order := Order(xs, |xs|);
    OrderHasAll(xs, |xs|);
    OneIsStrict(xs, order);
    var j := 1;
    while j < |xs|
      invariant 1 <= j <= |xs| && StrictTo(xs, order, j)
    {
      NextStrict(xs, order, j);
      if xs[order[j - 1]] == xs[order[j]] {
        SameTwice(xs, order[j - 1], order[j]);
        return false, order;
      }
      j := j + 1;
    }
    StrictMeans(xs, order);
    ok := true;
  }

  lemma SameTwice(xs: seq<nat>, a: nat, b: nat)
    requires a < |xs| && b < |xs| && a != b && xs[a] == xs[b]
    ensures !PositionsOk(xs)
  {
  }

  /** Sets a floor up: the order of its positions and the neighbours of each. */
  method Prepare(xs: seq<nat>) returns (ok: bool, g: Floor, order: seq<nat>)
    requires Positions(xs)
    ensures ok <==> PositionsOk(xs)
    ensures ok ==> g.xs == xs && FloorOk(g) && SortedOrder(xs, order)
  {
    hide PositionsOk, SortedOrder, IsLow, IsHigh;
    g := Floor(xs, []);
    ok, order := SortPositions(xs);
    if !ok { return; }
    var nb: seq<(nat, nat)> := [(0, 0), (0, 0)];
    var j := 2;
    while j < |xs|
      invariant 2 <= j <= |xs| && |nb| == j
      invariant forall i {:trigger nb[i]} :: 2 <= i < j ==> IsLow(xs, i, nb[i].0) && IsHigh(xs, i, nb[i].1)
    {
      var low, high := Neighbors(xs, j);
      nb := nb + [(low, high)];
      j := j + 1;
    }
    g := Floor(xs, nb);
  }

  // ---- from the packet to the table ----

  /** The range of a floor's values, by its multiplier. */
  function RangeOf(mult: nat): nat
    requires 1 <= mult <= 4
  {
    [256, 128, 86, 64][mult - 1]
  }

  /** A multiplier is paired with the least range that reaches 256 with it. */
  lemma RangeIsLeast(mult: nat)
    requires 1 <= mult <= 4
    ensures (RangeOf(mult) - 1) * mult < 256 <= RangeOf(mult) * mult
  {
  }

  /** The first two values are read with one bit less than the range has. */
  lemma FirstValuesInRange(mult: nat, v: nat)
    requires 1 <= mult <= 4 && v < Pow2(Ilog(RangeOf(mult)) - 1)
    ensures v < RangeOf(mult)
  {
    hide Ilog, Pow2;
    IlogIsBitLength(RangeOf(mult));
  }

  /** Reconstructed from values in range, the heights stay inside the table of decibel values. */
  lemma HeightsFit(g: Floor, mult: nat, coded: seq<int>, ys: seq<int>)
    requires FloorOk(g) && 1 <= mult <= 4 && |coded| == |ys| == |g.xs| && AllIn(RangeOf(mult), coded)
    requires forall k {:trigger ys[k]} :: 0 <= k < |ys| ==>
      ys[k] == if Used(g, coded, |g.xs|, k) then Points(g, RangeOf(mult), coded, |g.xs|)[k] else -1
    ensures HeightsOk(ys, mult)
  {
    hide FloorOk, Points, Codes, RangeOf, Marks;
    TwoPositions(g);
    RangeTimes(mult);
    var points := Points(g, RangeOf(mult), coded, |g.xs|);
    PointsInRange(g, RangeOf(mult), coded, |g.xs|);
    assert Used(g, coded, |g.xs|, 0);
    forall j {:trigger ys[j]} | 0 <= j < |ys| && ys[j] >= 0
      ensures ys[j] * mult < 256
    {
      assert points[j] < RangeOf(mult);
      MulMono(ys[j], RangeOf(mult) - 1, mult);
    }
  }

  lemma RangeTimes(mult: nat)
    requires 1 <= mult <= 4
    ensures RangeOf(mult) > 0 && (RangeOf(mult) - 1) * mult < 256
  {
  }
}
