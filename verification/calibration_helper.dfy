/**
 Sensor calibration: a step function driven once per ADC sample that
 collects (raw count, physical reading) pairs for one channel and, on the
 last pair, fits a line through them by least squares; and the console
 command `CAL<k>` that selects the channel to calibrate.

 The function's `static` variables become an explicit `Session`; the
 operator's console answers become the fields of `Inputs`; doubles are
 `real`.
 */
module CalibrationHelper {
  import opened Text

  /** Capacity of the static `adc_readings` / `physical_readings` arrays. */
  const Slots := 1024

  /** Fewer points than this are refused at the start of a session. */
  const MinPoints := 3

  // ---------------------------------------------------------------------
  // least_squares
  // ---------------------------------------------------------------------

  /** Σ xᵢ, accumulated front to back as the fitting loop does. */
  function Sum(xs: seq<real>): real {
    if |xs| == 0 then 0.0 else Sum(xs[..|xs| - 1]) + xs[|xs| - 1]
  }

  /** Σ xᵢ·yᵢ. */
  function Dot(xs: seq<real>, ys: seq<real>): real
    requires |xs| == |ys|
  {
    if |xs| == 0 then 0.0 else Dot(xs[..|xs| - 1], ys[..|ys| - 1]) + Mul(xs[|xs| - 1], ys[|ys| - 1])
  }

  /*
   The products below are named functions rather than bare `*`: the solver
   carries a fact about `Mul(x, y)` from a lemma to its caller by matching
   terms, which it does not do reliably for products of compound terms.
   */

  /** x·y. */
  function Mul(x: real, y: real): real { x * y }

  /** a·u + c·v. */
  function Comb(a: real, u: real, c: real, v: real): real { a * u + c * v }

  /** t². */
  function Sq(t: real): real { t * t }

  /** n·Σx² − (Σx)²: the denominator of the slope. */
  function Det(n: real, sx: real, sxx: real): real { n * sxx - sx * sx }

  /** The slope's denominator over the points' x values: n² times their variance. */
  function Spread(xs: seq<real>): real {
    Det(|xs| as real, Sum(xs), Dot(xs, xs))
  }

  /** A fitted line, or `Singular` when the slope's denominator is zero. */
  datatype Fit = Line(slope: real, offset: real) | Singular

  /**
   The closed form from the four sums over n points:
   m = (nΣxy − ΣxΣy) / (nΣx² − (Σx)²) and b = (Σy − mΣx) / n.
   A zero denominator is `Singular` (the double arithmetic yields inf or nan).
   */
  function FitFromSums(n: real, sx: real, sy: real, sxy: real, sxx: real): Fit
    requires n > 0.0
  {
    var d := Det(n, sx, sxx);
    if d == 0.0 then Singular
    else
      var m := (n * sxy - sx * sy) / d;
      Line(m, (sy - m * sx) / n)
  }

  /** The least-squares fit over all pairs (xᵢ, yᵢ). */
  function LeastSquares(xs: seq<real>, ys: seq<real>): (r: Fit)
    requires |xs| == |ys| > 0
    ensures r.Singular? <==> Spread(xs) == 0.0
  {
    FitFromSums(|xs| as real, Sum(xs), Sum(ys), Dot(xs, ys), Dot(xs, xs))
  }

  /** The fitting loop over the first `n` slots of the two arrays. */
  method FitPoints(x: seq<real>, y: seq<real>, n: nat) returns (fit: Fit)
    requires 0 < n <= |x| && n <= |y|
    ensures fit == LeastSquares(x[..n], y[..n])
  {
    var sumX, sumY, sumXY, sumX2 := 0.0, 0.0, 0.0, 0.0;
    var i := 0;
    while i < n
      invariant 0 <= i <= n
      invariant sumX == Sum(x[..i]) && sumY == Sum(y[..i])
      invariant sumXY == Dot(x[..i], y[..i]) && sumX2 == Dot(x[..i], x[..i])
    {
      assert x[..i + 1][..i] == x[..i];
      assert y[..i + 1][..i] == y[..i];
      sumX := sumX + x[i];
      sumY := sumY + y[i];
      sumXY := sumXY + x[i] * y[i];
      sumX2 := sumX2 + x[i] * x[i];
      i := i + 1;
    }
    fit := FitFromSums(n as real, sumX, sumY, sumXY, sumX2);
  }

  // ---------------------------------------------------------------------
  // Squares
  // ---------------------------------------------------------------------

  lemma SquareNonNegative(t: real)
    ensures t * t >= 0.0
  {
    if t < 0.0 {
      assert t * t == (-t) * (-t);
    }
  }

  lemma SquarePositive(t: real)
    requires t != 0.0
    ensures t * t > 0.0
  {
    if t < 0.0 {
      assert t * t == (-t) * (-t);
    }
  }

  lemma SqNonNegative(t: real)
    ensures Sq(t) >= 0.0
  {
    calc {
      Sq(t);
      t * t;
    >= { SquareNonNegative(t); }
      0.0;
    }
  }

  lemma SqPositive(t: real)
    requires t != 0.0
    ensures Sq(t) > 0.0
  {
    calc {
      Sq(t);
      t * t;
    > { SquarePositive(t); }
      0.0;
    }
  }

  lemma SqOfDifference(x: real, l: real)
    ensures Sq(x - l) == Sq(x) - 2.0 * x * l + l * l
  {
  }

  // ---------------------------------------------------------------------
  // When the fit is defined: the spread of the x values
  // ---------------------------------------------------------------------

  /** Σ (x − xᵢ)²: how far the points lie from `x`. */
  function SqDist(xs: seq<real>, x: real): real {
    if |xs| == 0 then 0.0 else SqDist(xs[..|xs| - 1], x) + Sq(x - xs[|xs| - 1])
  }

  lemma {:induction false} SqDistExpand(xs: seq<real>, x: real)
    ensures SqDist(xs, x) == |xs| as real * Sq(x) - 2.0 * x * Sum(xs) + Dot(xs, xs)
  {
    if |xs| > 0 {
      SqDistExpand(xs[..|xs| - 1], x);
      SqOfDifference(x, xs[|xs| - 1]);
    }
  }

  lemma {:induction false} SqDistNonNegative(xs: seq<real>, x: real)
    ensures SqDist(xs, x) >= 0.0
  {
    if |xs| > 0 {
      SqDistNonNegative(xs[..|xs| - 1], x);
      SqNonNegative(x - xs[|xs| - 1]);
    }
  }

  lemma {:induction false} SqDistPositive(xs: seq<real>, x: real, k: nat)
    requires k < |xs| && xs[k] != x
    ensures SqDist(xs, x) > 0.0
  {
    var p, l := xs[..|xs| - 1], xs[|xs| - 1];
    if k == |xs| - 1 {
      SqDistNonNegative(p, x);
      SqPositive(x - l);
    } else {
      SqDistPositive(p, x, k);
      SqNonNegative(x - l);
    }
  }

  lemma {:induction false} SqDistZero(xs: seq<real>, x: real)
    requires forall i :: 0 <= i < |xs| ==> xs[i] == x
    ensures SqDist(xs, x) == 0.0
  {
    if |xs| > 0 {
      SqDistZero(xs[..|xs| - 1], x);
    }
  }

  lemma SpreadStep(n: real, q: real, s: real, l: real)
    ensures (n + 1.0) * (q + l * l) - (s + l) * (s + l) == (n * q - s * s) + (n * Sq(l) - 2.0 * l * s + q)
  {
  }

  /** Adding a point grows the spread by that point's squared distance to the others. */
  lemma SpreadExtend(xs: seq<real>)
    requires |xs| > 0
    ensures Spread(xs) == Spread(xs[..|xs| - 1]) + SqDist(xs[..|xs| - 1], xs[|xs| - 1])
  {
    var p, l := xs[..|xs| - 1], xs[|xs| - 1];
    var n, s, q := |p| as real, Sum(p), Dot(p, p);
    calc {
      Spread(xs);
      (n + 1.0) * (q + l * l) - (s + l) * (s + l);
      { SpreadStep(n, q, s, l); }
      (n * q - s * s) + (n * Sq(l) - 2.0 * l * s + q);
      { SqDistExpand(p, l); }
      Spread(p) + SqDist(p, l);
    }
  }

  lemma {:induction false} SpreadNonNegative(xs: seq<real>)
    ensures Spread(xs) >= 0.0
  {
    if |xs| > 0 {
      SpreadExtend(xs);
      SpreadNonNegative(xs[..|xs| - 1]);
      SqDistNonNegative(xs[..|xs| - 1], xs[|xs| - 1]);
    }
  }

  lemma {:induction false} SpreadPositive(xs: seq<real>, i: nat, j: nat)
    requires i < |xs| && j < |xs| && xs[i] != xs[j]
    ensures Spread(xs) > 0.0
  {
    var p, l := xs[..|xs| - 1], xs[|xs| - 1];
    SpreadExtend(xs);
    if i < |p| && j < |p| {
      SpreadPositive(p, i, j);
      SqDistNonNegative(p, l);
    } else {
      var k := if i < |p| then i else j;
      SpreadNonNegative(p);
      SqDistPositive(p, l, k);
    }
  }

  lemma {:induction false} SpreadZero(xs: seq<real>)
    requires forall i :: 0 <= i < |xs| ==> xs[i] == xs[0]
    ensures Spread(xs) == 0.0
  {
    if |xs| > 0 {
      var p := xs[..|xs| - 1];
      SpreadExtend(xs);
      if |p| > 0 {
        SpreadZero(p);
      }
      SqDistZero(p, xs[|xs| - 1]);
    }
  }

  /** A line is fitted exactly when at least two x values differ. */
  lemma FitDefinedIffDistinct(xs: seq<real>, ys: seq<real>)
    requires |xs| == |ys| > 0
    ensures LeastSquares(xs, ys).Line? <==>
            exists i, j :: 0 <= i < |xs| && 0 <= j < |xs| && xs[i] != xs[j]
  {
    if exists i, j :: 0 <= i < |xs| && 0 <= j < |xs| && xs[i] != xs[j] {
      var i, j :| 0 <= i < |xs| && 0 <= j < |xs| && xs[i] != xs[j];
      SpreadPositive(xs, i, j);
    } else {
      SpreadZero(xs);
    }
  }

  // ---------------------------------------------------------------------
  // What the fit satisfies: the normal equations
  // ---------------------------------------------------------------------

  lemma NormalStep(n: real, sx: real, sy: real, sxy: real, sxx: real)
    requires n > 0.0 && FitFromSums(n, sx, sy, sxy, sxx).Line?
    ensures var f := FitFromSums(n, sx, sy, sxy, sxx);
            sy == Comb(f.slope, sx, n, f.offset) && sxy == Comb(f.slope, sxx, f.offset, sx)
  {
    var f := FitFromSums(n, sx, sy, sxy, sxx);
    var m, b, d := f.slope, f.offset, Det(n, sx, sxx);
    assert m * d == n * sxy - sx * sy;
    assert n * b == sy - m * sx;
    var e := sxy - m * sxx - b * sx;
    assert n * e == n * sxy - m * (n * sxx) - (n * b) * sx;
    assert n * e == 0.0;
  }

  /**
   The fitted line (m, b) solves both normal equations:
   Σy = m·Σx + n·b and Σxy = m·Σx² + b·Σx.
   */
  lemma NormalEquations(xs: seq<real>, ys: seq<real>, i: nat, j: nat)
    requires |xs| == |ys| && i < |xs| && j < |xs| && xs[i] != xs[j]
    ensures LeastSquares(xs, ys).Line?
    ensures var f := LeastSquares(xs, ys);
            Sum(ys) == Comb(f.slope, Sum(xs), |xs| as real, f.offset) &&
            Dot(xs, ys) == Comb(f.slope, Dot(xs, xs), f.offset, Sum(xs))
  {
    SpreadPositive(xs, i, j);
    NormalStep(|xs| as real, Sum(xs), Sum(ys), Dot(xs, ys), Dot(xs, xs));
  }

  lemma CentroidStep(n: real, sx: real, sy: real, m: real, b: real)
    requires n > 0.0 && sy == Comb(m, sx, n, b)
    ensures sy / n == m * (sx / n) + b
  {
  }

  /** The fitted line passes through the centroid of the points. */
  lemma FitThroughCentroid(xs: seq<real>, ys: seq<real>, i: nat, j: nat)
    requires |xs| == |ys| && i < |xs| && j < |xs| && xs[i] != xs[j]
    ensures LeastSquares(xs, ys).Line?
    ensures var f := LeastSquares(xs, ys);
            Sum(ys) / |xs| as real == f.slope * (Sum(xs) / |xs| as real) + f.offset
  {
    var f := LeastSquares(xs, ys);
    NormalEquations(xs, ys, i, j);
    CentroidStep(|xs| as real, Sum(xs), Sum(ys), f.slope, f.offset);
  }

  // ---------------------------------------------------------------------
  // What the fit is for: no line has a smaller squared error
  // ---------------------------------------------------------------------

  /** y − (m·x + b): how far the point lies above the line. */
  function Residual(x: real, y: real, m: real, b: real): real {
    y - m * x - b
  }

  /** x·(y − (m·x + b)): one point's residual weighted by its x. */
  function Weighted(x: real, y: real, m: real, b: real): real {
    x * Residual(x, y, m, b)
  }

  /** dm·x + db: how far one line moves from another at `x`. */
  function Shift(x: real, dm: real, db: real): real {
    dm * x + db
  }

  /** Σ (yᵢ − (m·xᵢ + b))²: the error least squares minimises. */
  function SquaredError(xs: seq<real>, ys: seq<real>, m: real, b: real): real
    requires |xs| == |ys|
  {
    if |xs| == 0 then 0.0
    else SquaredError(xs[..|xs| - 1], ys[..|ys| - 1], m, b) + Sq(Residual(xs[|xs| - 1], ys[|ys| - 1], m, b))
  }

  /** Σ (dm·xᵢ + db)². */
  function SquaredShift(xs: seq<real>, dm: real, db: real): real {
    if |xs| == 0 then 0.0 else SquaredShift(xs[..|xs| - 1], dm, db) + Sq(Shift(xs[|xs| - 1], dm, db))
  }

  /** Σ rᵢ over the residuals rᵢ = yᵢ − (m·xᵢ + b). */
  function Residuals(xs: seq<real>, ys: seq<real>, m: real, b: real): real
    requires |xs| == |ys|
  {
    if |xs| == 0 then 0.0
    else Residuals(xs[..|xs| - 1], ys[..|ys| - 1], m, b) + Residual(xs[|xs| - 1], ys[|ys| - 1], m, b)
  }

  /** Σ xᵢ·rᵢ. */
  function WeightedResiduals(xs: seq<real>, ys: seq<real>, m: real, b: real): real
    requires |xs| == |ys|
  {
    if |xs| == 0 then 0.0
    else WeightedResiduals(xs[..|xs| - 1], ys[..|ys| - 1], m, b) + Weighted(xs[|xs| - 1], ys[|ys| - 1], m, b)
  }

  lemma {:induction false} SquaredShiftNonNegative(xs: seq<real>, dm: real, db: real)
    ensures SquaredShift(xs, dm, db) >= 0.0
  {
    if |xs| > 0 {
      SquaredShiftNonNegative(xs[..|xs| - 1], dm, db);
      SqNonNegative(Shift(xs[|xs| - 1], dm, db));
    }
  }

  lemma ResidualStep(r: real, sy: real, sx: real, n: real, sy': real, sx': real, n': real,
                     x: real, y: real, m: real, b: real)
    requires r == sy - m * sx - n * b
    requires sy' == sy + y && sx' == sx + x && n' == n + 1.0
    ensures r + Residual(x, y, m, b) == sy' - m * sx' - n' * b
  {
  }

  lemma {:induction false} ResidualsSum(xs: seq<real>, ys: seq<real>, m: real, b: real)
    requires |xs| == |ys|
    ensures Residuals(xs, ys, m, b) == Sum(ys) - m * Sum(xs) - |xs| as real * b
  {
    if |xs| > 0 {
      var px, py := xs[..|xs| - 1], ys[..|ys| - 1];
      ResidualsSum(px, py, m, b);
      ResidualStep(Residuals(px, py, m, b), Sum(py), Sum(px), |px| as real, Sum(ys), Sum(xs), |xs| as real,
                   xs[|xs| - 1], ys[|ys| - 1], m, b);
    }
  }

  lemma WeightedStep(w: real, sxy: real, sxx: real, sx: real, sxy': real, sxx': real, sx': real,
                     x: real, y: real, m: real, b: real)
    requires w == sxy - Comb(m, sxx, b, sx)
    requires sxy' == sxy + Mul(x, y) && sxx' == sxx + Mul(x, x) && sx' == sx + x
    ensures w + Weighted(x, y, m, b) == sxy' - Comb(m, sxx', b, sx')
  {
  }

  lemma {:induction false} WeightedResidualsSum(xs: seq<real>, ys: seq<real>, m: real, b: real)
    requires |xs| == |ys|
    ensures WeightedResiduals(xs, ys, m, b) == Dot(xs, ys) - Comb(m, Dot(xs, xs), b, Sum(xs))
  {
    if |xs| > 0 {
      WeightedResidualsSum(xs[..|xs| - 1], ys[..|ys| - 1], m, b);
      WeightedExtend(xs, ys, m, b);
    }
  }

  /** The inductive step of `WeightedResidualsSum`. */
  lemma WeightedExtend(xs: seq<real>, ys: seq<real>, m: real, b: real)
    requires |xs| == |ys| > 0
    requires var px, py := xs[..|xs| - 1], ys[..|ys| - 1];
             WeightedResiduals(px, py, m, b) == Dot(px, py) - Comb(m, Dot(px, px), b, Sum(px))
    ensures WeightedResiduals(xs, ys, m, b) == Dot(xs, ys) - Comb(m, Dot(xs, xs), b, Sum(xs))
  {
    var px, py := xs[..|xs| - 1], ys[..|ys| - 1];
    var x, y := xs[|xs| - 1], ys[|ys| - 1];
    assert WeightedResiduals(xs, ys, m, b) == WeightedResiduals(px, py, m, b) + Weighted(x, y, m, b);
    WeightedStep(WeightedResiduals(px, py, m, b), Dot(px, py), Dot(px, px), Sum(px),
                 Dot(xs, ys), Dot(xs, xs), Sum(xs), xs[|xs| - 1], ys[|ys| - 1], m, b);
  }

  /** At the fitted line the residuals, plain and weighted by x, both sum to zero. */
  lemma ResidualsVanish(xs: seq<real>, ys: seq<real>, i: nat, j: nat)
    requires |xs| == |ys| && i < |xs| && j < |xs| && xs[i] != xs[j]
    ensures LeastSquares(xs, ys).Line?
    ensures var f := LeastSquares(xs, ys);
            Residuals(xs, ys, f.slope, f.offset) == 0.0 && WeightedResiduals(xs, ys, f.slope, f.offset) == 0.0
  {
    var f := LeastSquares(xs, ys);
    NormalEquations(xs, ys, i, j);
    ResidualsSum(xs, ys, f.slope, f.offset);
    WeightedResidualsSum(xs, ys, f.slope, f.offset);
  }

  lemma ShiftStep(x: real, y: real, m: real, b: real, m': real, b': real)
    ensures Sq(Residual(x, y, m', b'))
            == Sq(Residual(x, y, m, b)) + Sq(Shift(x, m' - m, b' - b))
               - 2.0 * Comb(m' - m, Weighted(x, y, m, b), b' - b, Residual(x, y, m, b))
  {
  }

  /**
   Moving from line (m, b) to line (m', b') changes the squared error by the
   squared shift minus twice the shift's correlation with the residuals.
   */
  lemma {:induction false} ErrorExpand(xs: seq<real>, ys: seq<real>, m: real, b: real, m': real, b': real)
    requires |xs| == |ys|
    ensures SquaredError(xs, ys, m', b')
         == SquaredError(xs, ys, m, b) + SquaredShift(xs, m' - m, b' - b)
            - 2.0 * Comb(m' - m, WeightedResiduals(xs, ys, m, b), b' - b, Residuals(xs, ys, m, b))
  {
    if |xs| > 0 {
      ErrorExpand(xs[..|xs| - 1], ys[..|ys| - 1], m, b, m', b');
      ErrorExtend(xs, ys, m, b, m', b');
    }
  }

  /** The inductive step of `ErrorExpand`. */
  lemma ErrorExtend(xs: seq<real>, ys: seq<real>, m: real, b: real, m': real, b': real)
    requires |xs| == |ys| > 0
    requires var px, py := xs[..|xs| - 1], ys[..|ys| - 1];
             SquaredError(px, py, m', b')
             == SquaredError(px, py, m, b) + SquaredShift(px, m' - m, b' - b)
                - 2.0 * Comb(m' - m, WeightedResiduals(px, py, m, b), b' - b, Residuals(px, py, m, b))
    ensures SquaredError(xs, ys, m', b')
         == SquaredError(xs, ys, m, b) + SquaredShift(xs, m' - m, b' - b)
            - 2.0 * Comb(m' - m, WeightedResiduals(xs, ys, m, b), b' - b, Residuals(xs, ys, m, b))
  {
    var px, py := xs[..|xs| - 1], ys[..|ys| - 1];
    var x, y := xs[|xs| - 1], ys[|ys| - 1];
    ShiftStep(x, y, m, b, m', b');
    ErrorStep(SquaredError(px, py, m, b), SquaredShift(px, m' - m, b' - b),
              WeightedResiduals(px, py, m, b), Residuals(px, py, m, b),
              Sq(Residual(x, y, m, b)), Sq(Shift(x, m' - m, b' - b)), Weighted(x, y, m, b), Residual(x, y, m, b),
              m' - m, b' - b, SquaredError(xs, ys, m, b), SquaredShift(xs, m' - m, b' - b),
              WeightedResiduals(xs, ys, m, b), Residuals(xs, ys, m, b));
  }

  lemma ErrorStep(e: real, q: real, wr: real, r0: real, sr: real, st: real, xr: real, r: real, dm: real, db: real,
                  e': real, q': real, wr': real, r0': real)
    requires e' == e + sr && q' == q + st && wr' == wr + xr && r0' == r0 + r
    ensures (e + q - 2.0 * Comb(dm, wr, db, r0)) + (sr + st - 2.0 * Comb(dm, xr, db, r))
         == e' + q' - 2.0 * Comb(dm, wr', db, r0')
  {
  }

  lemma Vanishing(e: real, q: real, dm: real, db: real, w: real, r: real)
    requires w == 0.0 && r == 0.0 && q >= 0.0
    ensures e + q - 2.0 * Comb(dm, w, db, r) >= e
  {
  }

  /** No line has a smaller squared error over the points than the fitted one. */
  lemma FitMinimisesSquaredError(xs: seq<real>, ys: seq<real>, i: nat, j: nat, m': real, b': real)
    requires |xs| == |ys| && i < |xs| && j < |xs| && xs[i] != xs[j]
    ensures LeastSquares(xs, ys).Line?
    ensures var f := LeastSquares(xs, ys);
            SquaredError(xs, ys, f.slope, f.offset) <= SquaredError(xs, ys, m', b')
  {
    SpreadPositive(xs, i, j);
    var f := LeastSquares(xs, ys);
    ErrorExpand(xs, ys, f.slope, f.offset, m', b');
    ResidualsVanish(xs, ys, i, j);
    SquaredShiftNonNegative(xs, m' - f.slope, b' - f.offset);
    Vanishing(SquaredError(xs, ys, f.slope, f.offset), SquaredShift(xs, m' - f.slope, b' - f.offset),
              m' - f.slope, b' - f.offset,
              WeightedResiduals(xs, ys, f.slope, f.offset), Residuals(xs, ys, f.slope, f.offset));
  }

  // ---------------------------------------------------------------------
  // Points that already lie on a line give that line back
  // ---------------------------------------------------------------------

  lemma {:induction false} SumOnLine(xs: seq<real>, ys: seq<real>, a: real, c: real)
    requires |xs| == |ys|
    requires forall i :: 0 <= i < |xs| ==> ys[i] == a * xs[i] + c
    ensures Sum(ys) == Comb(a, Sum(xs), |xs| as real, c)
  {
    if |xs| > 0 {
      var px, py := xs[..|xs| - 1], ys[..|ys| - 1];
      var x := xs[|xs| - 1];
      calc {
        Sum(ys);
        Sum(py) + ys[|ys| - 1];
        { SumOnLine(px, py, a, c); }
        a * Sum(px) + |px| as real * c + (a * x + c);
        a * (Sum(px) + x) + (|px| as real + 1.0) * c;
        Comb(a, Sum(xs), |xs| as real, c);
      }
    }
  }

  lemma DotLineStep(d: real, dxx: real, sx: real, d': real, dxx': real, sx': real,
                    x: real, y: real, a: real, c: real)
    requires d == Comb(a, dxx, c, sx) && y == a * x + c
    requires d' == d + x * y && dxx' == dxx + x * x && sx' == sx + x
    ensures d' == Comb(a, dxx', c, sx')
  {
  }

  lemma {:induction false} DotOnLine(xs: seq<real>, ys: seq<real>, a: real, c: real)
    requires |xs| == |ys|
    requires forall i :: 0 <= i < |xs| ==> ys[i] == a * xs[i] + c
    ensures Dot(xs, ys) == Comb(a, Dot(xs, xs), c, Sum(xs))
  {
    if |xs| > 0 {
      DotOnLine(xs[..|xs| - 1], ys[..|ys| - 1], a, c);
      DotLineExtend(xs, ys, a, c);
    }
  }

  /** The inductive step of `DotOnLine`. */
  lemma DotLineExtend(xs: seq<real>, ys: seq<real>, a: real, c: real)
    requires |xs| == |ys| > 0 && ys[|ys| - 1] == a * xs[|xs| - 1] + c
    requires var px, py := xs[..|xs| - 1], ys[..|ys| - 1];
             Dot(px, py) == Comb(a, Dot(px, px), c, Sum(px))
    ensures Dot(xs, ys) == Comb(a, Dot(xs, xs), c, Sum(xs))
  {
    var px, py := xs[..|xs| - 1], ys[..|ys| - 1];
    DotLineStep(Dot(px, py), Dot(px, px), Sum(px), Dot(xs, ys), Dot(xs, xs), Sum(xs),
                xs[|xs| - 1], ys[|ys| - 1], a, c);
  }

  lemma ColinearStep(n: real, sx: real, sxx: real, a: real, c: real)
    requires n > 0.0 && Det(n, sx, sxx) != 0.0
    ensures FitFromSums(n, sx, Comb(a, sx, n, c), Comb(a, sxx, c, sx), sxx) == Line(a, c)
  {
    var d := Det(n, sx, sxx);
    assert n * (a * sxx + c * sx) - sx * (a * sx + n * c) == a * d;
  }

  /** Points on the line y = a·x + c, with two distinct x values among them, are fitted by exactly that line. */
  lemma ColinearPointsFitExactly(xs: seq<real>, ys: seq<real>, a: real, c: real, i: nat, j: nat)
    requires |xs| == |ys| && i < |xs| && j < |xs| && xs[i] != xs[j]
    requires forall k :: 0 <= k < |xs| ==> ys[k] == a * xs[k] + c
    ensures LeastSquares(xs, ys) == Line(a, c)
  {
    SpreadPositive(xs, i, j);
    SumOnLine(xs, ys, a, c);
    DotOnLine(xs, ys, a, c);
    ColinearStep(|xs| as real, Sum(xs), Dot(xs, xs), a, c);
  }

  // ---------------------------------------------------------------------
  // calibrateSensor: one call
  // ---------------------------------------------------------------------

  /**
   The function's static variables: how many points are stored, how many
   the session wants (0 when no session is open), and the two arrays.
   */
  datatype Session = Session(counter: int, numberPoints: int, adcReadings: seq<real>, physicalReadings: seq<real>)

  function Initial(): Session {
    Session(0, 0, seq(Slots, _ => 0.0), seq(Slots, _ => 0.0))
  }

  predicate Idle(s: Session) {
    s.counter == 0 && s.numberPoints == 0
  }

  /** The states the static variables can be in between calls. */
  predicate Reachable(s: Session) {
    |s.adcReadings| == Slots && |s.physicalReadings| == Slots &&
    (Idle(s) || (MinPoints <= s.numberPoints && 1 <= s.counter <= s.numberPoints - 1))
  }

  /** Reachable, and the session fits the arrays. */
  predicate Bounded(s: Session) {
    Reachable(s) && s.numberPoints <= Slots
  }

  /**
   One call's inputs: the sample, the operator's answers to "number of
   points" (read only when no session is open; `None` when `scanf` converts
   nothing) and "real reading" (`None` leaves the slot as it was), and
   whether the result file can be opened.
   */
  datatype Inputs = Inputs(adcReading: int, requested: Option<int>, realReading: Option<real>, fileOpens: bool)

  /**
   The return value, the statics afterwards, and the fit written through the
   `slope` / `offset` pointers (`None`: they are not touched). `SlotOverflow`
   is a write past the end of the static arrays.
   */
  datatype StepResult = Done(ret: int, session: Session, written: Option<Fit>) | SlotOverflow

  /** The number of points the session asks for when the call opens it. */
  function Requested(s: Session, inp: Inputs): int {
    if inp.requested.Some? then inp.requested.value else s.numberPoints
  }

  /** Slot `c` of `after` holds `v`; every other slot is as in `before`. */
  predicate StoredAt(before: seq<real>, after: seq<real>, c: int, v: real) {
    |after| == |before| && 0 <= c < |after| && after[c] == v &&
    forall k :: 0 <= k < |after| && k != c ==> after[k] == before[k]
  }

  /** Stores the sample at slot `counter`, then either advances to the next slot or fits. */
  function TakePoint(s: Session, inp: Inputs): (r: StepResult)
    requires |s.adcReadings| == Slots && |s.physicalReadings| == Slots
    requires MinPoints <= s.numberPoints && 0 <= s.counter <= s.numberPoints - 1
    ensures r.SlotOverflow? <==> s.counter >= Slots
    ensures r.Done? ==> Reachable(r.session)
    ensures r.Done? ==> StoredAt(s.adcReadings, r.session.adcReadings, s.counter, inp.adcReading as real)
    ensures r.Done? ==> StoredAt(s.physicalReadings, r.session.physicalReadings, s.counter,
                                 if inp.realReading.Some? then inp.realReading.value else s.physicalReadings[s.counter])
    ensures r.Done? && s.counter < s.numberPoints - 1 ==>
              r.ret == 0 && r.written == None &&
              r.session.counter == s.counter + 1 && r.session.numberPoints == s.numberPoints
    ensures r.Done? && s.counter == s.numberPoints - 1 ==>
              r.written == Some(LeastSquares(r.session.adcReadings[..s.numberPoints],
                                             r.session.physicalReadings[..s.numberPoints])) &&
              (r.ret == 1 <==> inp.fileOpens) &&
              (inp.fileOpens ==> Idle(r.session)) &&
              (!inp.fileOpens ==> r.session.counter == s.counter && r.session.numberPoints == s.numberPoints)
  {
    var c := s.counter;
    if c >= Slots then SlotOverflow
    else
      var adcs := s.adcReadings[c := inp.adcReading as real];
      var reals := if inp.realReading.Some? then s.physicalReadings[c := inp.realReading.value] else s.physicalReadings;
      var stored := s.(adcReadings := adcs, physicalReadings := reals);
      if c < s.numberPoints - 1 then Done(0, stored.(counter := c + 1), None)
      else
        var fit := LeastSquares(adcs[..s.numberPoints], reals[..s.numberPoints]);
        if inp.fileOpens then Done(1, stored.(counter := 0, numberPoints := 0), Some(fit))
        else Done(0, stored, Some(fit))
  }

  /**
   `calibrateSensor` as written: a session is opened by asking for the
   number of points and refused below three; nothing bounds the number
   from above, so slot `counter` can lie past the end of the arrays.
   */
  function StepAsWritten(s: Session, inp: Inputs): (r: StepResult)
    requires Reachable(s)
    ensures Idle(s) && Requested(s, inp) < MinPoints ==> r == Done(0, s, None)
    ensures r.SlotOverflow? <==> s.counter >= Slots
    ensures r.Done? ==> Reachable(r.session)
  {
    if s.counter == 0 then
      var n := Requested(s, inp);
      if n < MinPoints then Done(0, s.(numberPoints := 0), None)
      else TakePoint(s.(numberPoints := n), inp)
    else TakePoint(s, inp)
  }

  /** The most points a session can hold. */
  const MaxPoints := Slots

  /**
   `calibrateSensor` with the missing upper bound: a session asking for more
   points than the arrays hold is refused like one asking for too few.
   */
  function Step(s: Session, inp: Inputs): (r: StepResult)
    requires Bounded(s)
    ensures r.Done? && Bounded(r.session)
    ensures Idle(s) && (Requested(s, inp) < MinPoints || Requested(s, inp) > MaxPoints) ==> r == Done(0, s, None)
    ensures !Idle(s) || MinPoints <= Requested(s, inp) <= MaxPoints ==> r == StepAsWritten(s, inp)
  {
    if s.counter == 0 && Requested(s, inp) > MaxPoints then Done(0, s.(numberPoints := 0), None)
    else StepAsWritten(s, inp)
  }

  // ---------------------------------------------------------------------
  // calibrateSensor: a whole session
  // ---------------------------------------------------------------------

  /** The returns of a run of calls, the statics after it, and the last fit written. */
  datatype Outcome = Outcome(rets: seq<int>, session: Session, written: Option<Fit>)

  /** Calls `Step` once per input, in order. */
  function Run(s: Session, inputs: seq<Inputs>): (r: Outcome)
    requires Bounded(s)
    ensures Bounded(r.session) && |r.rets| == |inputs|
    decreases |inputs|
  {
    if |inputs| == 0 then Outcome([], s, None)
    else
      var p := Run(s, inputs[..|inputs| - 1]);
      var d := Step(p.session, inputs[|inputs| - 1]);
      Outcome(p.rets + [d.ret], d.session, if d.written.Some? then d.written else p.written)
  }

  /** The samples of a run of calls. */
  function Adcs(inputs: seq<Inputs>): (r: seq<real>)
    ensures |r| == |inputs|
  {
    seq(|inputs|, i requires 0 <= i < |inputs| => inputs[i].adcReading as real)
  }

  /** Every call's "real reading" answer converted. */
  predicate Answered(inputs: seq<Inputs>) {
    forall i :: 0 <= i < |inputs| ==> inputs[i].realReading.Some?
  }

  /** The operator's readings of a run of calls. */
  function Reals(inputs: seq<Inputs>): (r: seq<real>)
    requires Answered(inputs)
    ensures |r| == |inputs|
  {
    seq(|inputs|, i requires 0 <= i < |inputs| && Answered(inputs) => inputs[i].realReading.value)
  }

  /**
   A session of n calls from the idle state: the first asks for n points,
   3 ≤ n ≤ 1024, and the operator answers every reading.
   */
  predicate SessionInputs(inputs: seq<Inputs>) {
    MinPoints <= |inputs| <= MaxPoints && inputs[0].requested == Some(|inputs|) && Answered(inputs)
  }

  /** After `k` calls of the session: slot `k` is next and the first `k` samples are stored. */
  predicate Collected(s: Session, inputs: seq<Inputs>, k: nat)
    requires Answered(inputs) && k <= |inputs|
  {
    |s.adcReadings| == Slots && |s.physicalReadings| == Slots && k <= Slots &&
    s.counter == k && s.numberPoints == |inputs| &&
    s.adcReadings[..k] == Adcs(inputs)[..k] && s.physicalReadings[..k] == Reals(inputs)[..k]
  }

  /** Storing input `k` at slot `k` extends the stored prefix by one. */
  lemma StoreExtends(before: seq<real>, after: seq<real>, k: nat, want: seq<real>)
    requires k < |before| && k < |want| && before[..k] == want[..k]
    requires StoredAt(before, after, k, want[k])
    ensures after[..k + 1] == want[..k + 1]
  {
    forall j | 0 <= j < k + 1
      ensures after[j] == want[j]
    {
      if j < k {
        assert after[j] == before[j] == before[..k][j];
      }
    }
    assert after[..k + 1] == want[..k + 1];
  }

  /** The first n − 1 calls of a session each return 0, store their sample and write nothing. */
  lemma {:induction false} SessionCollects(inputs: seq<Inputs>, k: nat)
    requires SessionInputs(inputs) && 1 <= k <= |inputs| - 1
    ensures var r := Run(Initial(), inputs[..k]);
            Collected(r.session, inputs, k) && r.written == None &&
            forall i :: 0 <= i < k ==> r.rets[i] == 0
  {
    var prefix := inputs[..k];
    assert prefix[..k - 1] == inputs[..k - 1];
    assert prefix[k - 1] == inputs[k - 1];
    var p := Run(Initial(), inputs[..k - 1]);
    if k == 1 {
      assert p == Outcome([], Initial(), None);
      assert Initial().adcReadings[..0] == Adcs(inputs)[..0];
      assert Initial().physicalReadings[..0] == Reals(inputs)[..0];
    } else {
      SessionCollects(inputs, k - 1);
    }
    var s := p.session;
    var t := if k == 1 then s.(numberPoints := |inputs|) else s;
    assert Step(s, inputs[k - 1]) == TakePoint(t, inputs[k - 1]);
    var d := TakePoint(t, inputs[k - 1]);
    StoreExtends(t.adcReadings, d.session.adcReadings, k - 1, Adcs(inputs));
    StoreExtends(t.physicalReadings, d.session.physicalReadings, k - 1, Reals(inputs));
  }

  /**
   A complete session: n − 1 calls return 0, the last returns 1 when the
   result file opens, the statics are idle again, and the fit written is
   the least-squares line through exactly the n pairs entered.
   */
  lemma CompleteSession(inputs: seq<Inputs>)
    requires SessionInputs(inputs) && inputs[|inputs| - 1].fileOpens
    ensures var r := Run(Initial(), inputs);
            (forall i :: 0 <= i < |inputs| - 1 ==> r.rets[i] == 0) && r.rets[|inputs| - 1] == 1 &&
            Idle(r.session) && r.written == Some(LeastSquares(Adcs(inputs), Reals(inputs)))
  {
    var n := |inputs|;
    SessionCollects(inputs, n - 1);
    var p := Run(Initial(), inputs[..n - 1]);
    SessionFits(p.session, inputs);
    var d := Step(p.session, inputs[n - 1]);
    RunLast(Initial(), inputs);
  }

  /** The last call of a run, taken apart. */
  lemma RunLast(s: Session, inputs: seq<Inputs>)
    requires Bounded(s) && |inputs| > 0
    ensures var p := Run(s, inputs[..|inputs| - 1]);
            var d := Step(p.session, inputs[|inputs| - 1]);
            var r := Run(s, inputs);
            r.rets[|inputs| - 1] == d.ret && r.session == d.session &&
            (forall i :: 0 <= i < |inputs| - 1 ==> r.rets[i] == p.rets[i]) &&
            (d.written.Some? ==> r.written == d.written)
  {
  }

  /** The last call of a session fits the stored pairs, which are exactly the pairs entered. */
  lemma SessionFits(s: Session, inputs: seq<Inputs>)
    requires SessionInputs(inputs) && inputs[|inputs| - 1].fileOpens
    requires Collected(s, inputs, |inputs| - 1)
    ensures var d := Step(s, inputs[|inputs| - 1]);
            d.ret == 1 && Idle(d.session) && d.written == Some(LeastSquares(Adcs(inputs), Reals(inputs)))
  {
    var n := |inputs|;
    var d := TakePoint(s, inputs[n - 1]);
    StoreExtends(s.adcReadings, d.session.adcReadings, n - 1, Adcs(inputs));
    StoreExtends(s.physicalReadings, d.session.physicalReadings, n - 1, Reals(inputs));
    assert Adcs(inputs)[..n] == Adcs(inputs);
    assert Reals(inputs)[..n] == Reals(inputs);
  }

  /** `StepAsWritten` called `k` times with the same inputs, stopping at an overflow. */
  function RepeatAsWritten(s: Session, inp: Inputs, k: nat): (r: StepResult)
    requires Reachable(s)
    ensures r.Done? ==> Reachable(r.session)
    decreases k
  {
    if k == 0 then Done(0, s, None)
    else match StepAsWritten(s, inp)
      case SlotOverflow => SlotOverflow
      case Done(_, t, _) => RepeatAsWritten(t, inp, k - 1)
  }

  lemma {:induction false} AsWrittenAdvances(s: Session, inp: Inputs, k: nat)
    requires Reachable(s) && !Idle(s)
    requires s.counter + k <= Slots && s.counter + k <= s.numberPoints - 1
    ensures var r := RepeatAsWritten(s, inp, k);
            r.Done? && r.session.counter == s.counter + k && r.session.numberPoints == s.numberPoints
    decreases k
  {
    if k > 0 {
      AsWrittenAdvances(StepAsWritten(s, inp).session, inp, k - 1);
    }
  }

  /**
   A session asking for more than 1024 points: the first 1024 calls
   store their samples, and the next one writes slot 1024 of 1024-slot
   arrays.
   */
  lemma OversizedSessionOverflows(inp: Inputs)
    requires inp.requested.Some? && inp.requested.value > Slots
    ensures var r := RepeatAsWritten(Initial(), inp, Slots);
            r.Done? && r.session.counter == Slots && StepAsWritten(r.session, inp).SlotOverflow?
  {
    AsWrittenAdvances(StepAsWritten(Initial(), inp).session, inp, Slots - 1);
  }

  // ---------------------------------------------------------------------
  // calibrationListener
  // ---------------------------------------------------------------------

  /** The literal that starts a calibration command. */
  const CalPrefix := "CAL"

  /**
   `sscanf(command, "CAL%d", &index) == 1` on one console token: the
   channel number when the token is "CAL" followed by an integer.
   */
  function ParseCalCommand(command: string): (r: Option<int>)
    ensures r.Some? <==>
              |command| > |CalPrefix| && command[..|CalPrefix|] == CalPrefix && ScanInt(command[|CalPrefix|..]).Some?
    ensures r.Some? ==> r == ScanInt(command[|CalPrefix|..])
  {
    if |command| >= |CalPrefix| && command[..|CalPrefix|] == CalPrefix then ScanInt(command[|CalPrefix|..]) else None
  }

  /** The selected channel after one token: changed only by a calibration command. */
  function Listen(index: int, command: string): (r: int)
    ensures ParseCalCommand(command).None? ==> r == index
    ensures ParseCalCommand(command).Some? ==> r == ParseCalCommand(command).value
  {
    match ParseCalCommand(command)
    case Some(k) => k
    case None => index
  }

  /** The selected channel after a run of tokens. */
  function ListenAll(index: int, commands: seq<string>): int {
    if |commands| == 0 then index else Listen(ListenAll(index, commands[..|commands| - 1]), commands[|commands| - 1])
  }

  /** "CAL" followed by k's decimal digits, and anything that is not a digit after them, selects k. */
  lemma CalCommandSelects(index: int, k: int, rest: string)
    requires |rest| == 0 || !IsDigit(rest[0])
    ensures Listen(index, CalPrefix + (IntToDecimal(k) + rest)) == k
  {
    Halves(CalPrefix, IntToDecimal(k) + rest);
    ScanIntRoundTrip(k, rest);
  }

  lemma Halves(p: string, q: string)
    ensures (p + q)[..|p|] == p && (p + q)[|p|..] == q
  {
  }

  /** The last token that parses decides the channel; with none, the channel is unchanged. */
  lemma {:induction false} LastCalCommandWins(index: int, commands: seq<string>, i: nat)
    requires i <= |commands|
    requires forall j :: i <= j < |commands| ==> ParseCalCommand(commands[j]).None?
    ensures ListenAll(index, commands) == ListenAll(index, commands[..i])
  {
    if |commands| > i {
      var p := commands[..|commands| - 1];
      assert p[..i] == commands[..i];
      LastCalCommandWins(index, p, i);
    } else {
      assert commands[..i] == commands;
    }
  }
}
