/**
 The recency-weighted straight-line fit behind the drift clock, over the reals:
 sums of centred deltas, the two-pass fit the code computes, and what is optimal
 about the line it publishes.
 */
module LeastSquares {

  /** One observation, `(local_ns, master_ns)`. */
  datatype Sample = Sample(local: nat, master: nat)

  /** `master_est(local) = master + slope * (local - anchorLocal)`. */
  datatype Fit = Fit(anchorLocal: nat, master: real, slope: real)

  /** Weight of each sample relative to the one after it. */
  const RECENCY_DECAY: real := 0.95

  function Project(fit: Fit, local: nat): real {
    fit.master + fit.slope * (local - fit.anchorLocal) as real
  }

  /** Weight of the sample that has `age` newer ones. */
  ghost function Weight(age: nat): (w: real)
    ensures w > 0.0
  {
    if age == 0 then 1.0 else RECENCY_DECAY * Weight(age - 1)
  }

  /** The newest sample weighs one, and every other nineteen twentieths of the next newer. */
  lemma WeightsDecay(age: nat)
    ensures Weight(0) == 1.0 && 20.0 * Weight(age + 1) == 19.0 * Weight(age)
  {
  }

  // ----- weighted sums -----

  /** An observation relative to some centre. */
  datatype Delta = Delta(x: real, y: real)

  /** Weighted sum of `f` over the `k` newest deltas. */
  ghost function SumOf(ds: seq<Delta>, f: Delta -> real, k: nat): real
    requires k <= |ds|
  {
    if k == 0 then 0.0 else SumOf(ds, f, k - 1) + Weight(k - 1) * f(ds[|ds| - k])
  }

  ghost function Sum(ds: seq<Delta>, f: Delta -> real): real {
    SumOf(ds, f, |ds|)
  }

  ghost function One(d: Delta): real { 1.0 }
  ghost function X(d: Delta): real { d.x }
  ghost function Y(d: Delta): real { d.y }
  ghost function XX(d: Delta): real { d.x * d.x }
  ghost function XY(d: Delta): real { d.x * d.y }
  ghost function YY(d: Delta): real { d.y * d.y }

  ghost function Centre(s: seq<Sample>, c: real, d: real): seq<Delta> {
    seq(|s|, i requires 0 <= i < |s| => Delta(s[i].local as real - c, s[i].master as real - d))
  }

  ghost function Translate(ds: seq<Delta>, e: real, f: real): seq<Delta> {
    seq(|ds|, i requires 0 <= i < |ds| => Delta(ds[i].x - e, ds[i].y - f))
  }

  /** How far each sample lies from a line, as deltas `(0, residual)`. */
  ghost function Residuals(s: seq<Sample>, line: Fit): seq<Delta> {
    seq(|s|, i requires 0 <= i < |s| => Delta(0.0, s[i].master as real - Project(line, s[i].local)))
  }

  /** The weighted squared error of a line over a whole window: what a recency
      weighted least-squares fit is asked to make small. */
  ghost function Error(s: seq<Sample>, line: Fit): real {
    Sum(Residuals(s, line), YY)
  }

  // ----- the fit -----

  ghost function Slope(sxx: real, sxy: real): real {
    if sxx > 0.0 then sxy / sxx else 1.0
  }

  lemma {:induction false} TotalWeight(ds: seq<Delta>, k: nat)
    requires k <= |ds|
    ensures SumOf(ds, One, k) >= 0.0
    ensures k > 0 ==> SumOf(ds, One, k) > 0.0
  {
    if k > 0 {
      TotalWeight(ds, k - 1);
    }
  }

  ghost function Mean(ds: seq<Delta>, f: Delta -> real): real
    requires ds != []
  {
    TotalWeight(ds, |ds|);
    Sum(ds, f) / Sum(ds, One)
  }

  /** The code's two passes, with the deltas taken from the integers `mx` and `my`:
      the weighted centroid of the deltas, then the spread about that centroid. */
  ghost function FitAround(s: seq<Sample>, mx: int, my: int): Fit
    requires s != []
  {
    var newest := s[|s| - 1];
    if |s| == 1 then Fit(newest.local, newest.master as real, 1.0)
    else
      var ds := Centre(s, mx as real, my as real);
      var cx, cy := Mean(ds, X), Mean(ds, Y);
      var es := Translate(ds, cx, cy);
      var slope := Slope(Sum(es, XX), Sum(es, XY));
      Fit(newest.local, my as real + cy + slope * ((newest.local - mx) as real - cx), slope)
  }

  ghost function MeanX(s: seq<Sample>): real
    requires s != []
  {
    Mean(Centre(s, 0.0, 0.0), X)
  }

  ghost function MeanY(s: seq<Sample>): real
    requires s != []
  {
    Mean(Centre(s, 0.0, 0.0), Y)
  }

  /** The window seen from its weighted centroid. */
  ghost function Centred(s: seq<Sample>): (ds: seq<Delta>)
    requires s != []
    ensures |ds| == |s|
  {
    Centre(s, MeanX(s), MeanY(s))
  }

  /** The line through the weighted centroid of the window with the regression
      slope (or slope 1 when every local time is the same), anchored on the newest
      sample. */
  ghost function WindowFit(s: seq<Sample>): Fit
    requires s != []
  {
    var slope := Slope(Sum(Centred(s), XX), Sum(Centred(s), XY));
    Fit(s[|s| - 1].local, MeanY(s) + slope * (s[|s| - 1].local as real - MeanX(s)), slope)
  }

  // ----- real arithmetic, one step at a time -----

  lemma Positive(a: real, b: real, c: real)
    requires a > 0.0 && b > 0.0 && c == a * b
    ensures c > 0.0
  {
  }

  lemma WeightedSquare(w: real, x: real, v: real)
    requires w > 0.0 && v == w * x * x
    ensures v >= 0.0 && (x != 0.0 ==> v > 0.0)
  {
    var u := w * x;
    if x > 0.0 {
      Positive(w, x, u);
      Positive(u, x, v);
    } else if x < 0.0 {
      Positive(w, -x, -u);
      Positive(-u, -x, v);
    }
  }

  lemma Divided(a: real, v: real)
    requires v > 0.0
    ensures (a / v) * v == a
  {
  }

  lemma Reanchor(t: real, l: real, a: real, c: real)
    ensures t * (l - a) == t * (c - a) + t * (l - c)
  {
  }

  lemma Quotient(a: real, c: real, w: real)
    requires w > 0.0
    ensures c + (a - c * w) / w == a / w
  {
    assert (a - c * w) / w == a / w - c;
  }

  // ----- what sums do -----

  lemma {:induction false} SameTerms(ds: seq<Delta>, f: Delta -> real, es: seq<Delta>, g: Delta -> real, k: nat)
    requires |ds| == |es| && k <= |ds|
    requires forall i :: 0 <= i < |ds| ==> f(ds[i]) == g(es[i])
    ensures SumOf(ds, f, k) == SumOf(es, g, k)
  {
    if k > 0 {
      SameTerms(ds, f, es, g, k - 1);
    }
  }

  lemma LinearTerm(w: real, a: real, g: real, b: real, h: real)
    ensures w * (a * g + b * h) == a * (w * g) + b * (w * h)
  {
  }

  lemma LinearSum(a: real, g0: real, g: real, b: real, h0: real, h: real)
    ensures a * (g0 + g) + b * (h0 + h) == (a * g0 + b * h0) + (a * g + b * h)
  {
  }

  lemma {:induction false} Linear(ds: seq<Delta>, f: Delta -> real, a: real, g: Delta -> real, b: real, h: Delta -> real, k: nat)
    requires k <= |ds|
    requires forall i :: 0 <= i < |ds| ==> f(ds[i]) == a * g(ds[i]) + b * h(ds[i])
    ensures SumOf(ds, f, k) == a * SumOf(ds, g, k) + b * SumOf(ds, h, k)
  {
    if k > 0 {
      Linear(ds, f, a, g, b, h, k - 1);
      var w, d := Weight(k - 1), ds[|ds| - k];
      LinearTerm(w, a, g(d), b, h(d));
      LinearSum(a, SumOf(ds, g, k - 1), w * g(d), b, SumOf(ds, h, k - 1), w * h(d));
    }
  }

  lemma {:induction false} NonNegativeSum(ds: seq<Delta>, f: Delta -> real, k: nat)
    requires k <= |ds| && forall i :: 0 <= i < |ds| ==> f(ds[i]) >= 0.0
    ensures SumOf(ds, f, k) >= 0.0
    ensures (exists i :: |ds| - k <= i < |ds| && f(ds[i]) > 0.0) ==> SumOf(ds, f, k) > 0.0
  {
    if k > 0 {
      NonNegativeSum(ds, f, k - 1);
      var v := f(ds[|ds| - k]);
      if v > 0.0 {
        Positive(Weight(k - 1), v, Weight(k - 1) * v);
      }
    }
  }

  lemma {:induction false} ZeroSum(ds: seq<Delta>, f: Delta -> real, k: nat)
    requires k <= |ds| && forall i :: 0 <= i < |ds| ==> f(ds[i]) == 0.0
    ensures SumOf(ds, f, k) == 0.0
  {
    if k > 0 {
      ZeroSum(ds, f, k - 1);
    }
  }

  // ----- the centroid -----

  lemma TranslateCentre(s: seq<Sample>, c: real, d: real, e: real, f: real)
    ensures Translate(Centre(s, c, d), e, f) == Centre(s, c + e, d + f)
  {
  }

  lemma TranslatedMoments(ds: seq<Delta>, e: real, f: real)
    ensures Sum(Translate(ds, e, f), One) == Sum(ds, One)
    ensures Sum(Translate(ds, e, f), X) == Sum(ds, X) - e * Sum(ds, One)
    ensures Sum(Translate(ds, e, f), Y) == Sum(ds, Y) - f * Sum(ds, One)
  {
    var es := Translate(ds, e, f);
    SameTerms(es, One, ds, One, |ds|);
    Lowered(ds, X, es, X, e);
    Lowered(ds, Y, es, Y, f);
  }

  /** Lowering every term by `e` lowers the sum by `e` times the total weight. */
  lemma Lowered(ds: seq<Delta>, g: Delta -> real, es: seq<Delta>, h: Delta -> real, e: real)
    requires |ds| == |es| && forall i :: 0 <= i < |ds| ==> h(es[i]) == g(ds[i]) - e
    ensures Sum(es, h) == Sum(ds, g) - e * Sum(ds, One)
  {
    var f: Delta -> real := (d: Delta) => g(d) - e;
    SameTerms(es, h, ds, f, |ds|);
    Linear(ds, f, 1.0, g, -e, One, |ds|);
  }

  /** The weighted centroid, reached from any starting centre. */
  lemma Centroid(s: seq<Sample>, c: real, d: real)
    requires s != []
    ensures c + Mean(Centre(s, c, d), X) == MeanX(s)
    ensures d + Mean(Centre(s, c, d), Y) == MeanY(s)
  {
    var ds := Centre(s, 0.0, 0.0);
    TranslateCentre(s, 0.0, 0.0, c, d);
    TranslatedMoments(ds, c, d);
    TotalWeight(ds, |ds|);
    Quotient(Sum(ds, X), c, Sum(ds, One));
    Quotient(Sum(ds, Y), d, Sum(ds, One));
  }

  /** Seen from the centroid the first moments vanish. */
  lemma NoFirstMoments(s: seq<Sample>)
    requires s != []
    ensures Sum(Centred(s), X) == 0.0 && Sum(Centred(s), Y) == 0.0
    ensures Sum(Centred(s), One) > 0.0
  {
    var ds := Centre(s, 0.0, 0.0);
    TranslateCentre(s, 0.0, 0.0, MeanX(s), MeanY(s));
    TranslatedMoments(ds, MeanX(s), MeanY(s));
    TotalWeight(ds, |ds|);
    Divided(Sum(ds, X), Sum(ds, One));
    Divided(Sum(ds, Y), Sum(ds, One));
  }

  /** The published line does not depend on the integers the sums were centred on. */
  lemma CentringIsIrrelevant(s: seq<Sample>, mx: int, my: int)
    requires s != []
    ensures FitAround(s, mx, my) == WindowFit(s)
  {
    if |s| == 1 {
      OneSample(s);
    } else {
      Centroid(s, mx as real, my as real);
      var ds := Centre(s, mx as real, my as real);
      TranslateCentre(s, mx as real, my as real, Mean(ds, X), Mean(ds, Y));
      var newest := s[|s| - 1];
      assert (newest.local - mx) as real - Mean(ds, X) == newest.local as real - MeanX(s);
    }
  }

  lemma OneSample(s: seq<Sample>)
    requires |s| == 1
    ensures WindowFit(s) == Fit(s[0].local, s[0].master as real, 1.0)
  {
    var x, y := s[0].local as real, s[0].master as real;
    assert Centre(s, 0.0, 0.0) == [Delta(x, y)];
    SumOfOne(Delta(x, y), One);
    SumOfOne(Delta(x, y), X);
    SumOfOne(Delta(x, y), Y);
    assert Centred(s) == [Delta(0.0, 0.0)];
    SumOfOne(Delta(0.0, 0.0), XX);
  }

  lemma SumOfOne(d: Delta, f: Delta -> real)
    ensures Sum([d], f) == f(d)
  {
    assert SumOf([d], f, 1) == SumOf([d], f, 0) + Weight(0) * f(d);
  }

  // ----- optimality -----

  /** The squared error of a line of slope `t` and height `p` above the centroid, in
      the second moments about it. */
  ghost function Expanded(w: real, sxx: real, sxy: real, syy: real, p: real, t: real): real {
    syy - 2.0 * (t * sxy) + p * p * w + t * t * sxx
  }

  lemma SquareOfResidual(x: real, y: real, p: real, t: real)
    ensures (y - p - t * x) * (y - p - t * x)
         == ((y * y + (-2.0 * t) * (x * y)) + (t * t) * (x * x)) + ((p * p + (2.0 * p * t) * x) + (-2.0 * p) * y)
  {
    var u := t * x;
    assert (y - p - u) * (y - p - u) == y * y + p * p + u * u - 2.0 * (p * y) - 2.0 * (u * y) + 2.0 * (p * u);
    assert u * u == t * t * (x * x);
    assert u * y == t * (x * y);
    assert p * u == p * t * x;
  }

  ghost function ResidualSquare(d: Delta, p: real, t: real): real {
    (d.y - p - t * d.x) * (d.y - p - t * d.x)
  }

  /** A quadratic in a delta, with its second- and first-order parts apart. */
  ghost function Quadratic(d: Delta, b: real, c: real, e: real, f: real, g: real): real {
    ((YY(d) + b * XY(d)) + c * XX(d)) + ((e * One(d) + f * X(d)) + g * Y(d))
  }

  lemma ResidualIsQuadratic(d: Delta, p: real, t: real)
    ensures ResidualSquare(d, p, t) == Quadratic(d, -2.0 * t, t * t, p * p, 2.0 * p * t, -2.0 * p)
  {
    SquareOfResidual(d.x, d.y, p, t);
  }

  lemma SumPlus(ds: seq<Delta>, f: Delta -> real, g: Delta -> real, b: real, h: Delta -> real)
    requires forall i :: 0 <= i < |ds| ==> f(ds[i]) == g(ds[i]) + b * h(ds[i])
    ensures Sum(ds, f) == Sum(ds, g) + b * Sum(ds, h)
  {
    Linear(ds, f, 1.0, g, b, h, |ds|);
  }

  lemma TimesZero(a: real, b: real)
    requires b == 0.0
    ensures a * b == 0.0
  {
  }

  lemma SumOfSecondOrder(ds: seq<Delta>, b: real, c: real, second: Delta -> real)
    requires forall i :: 0 <= i < |ds| ==> second(ds[i]) == (YY(ds[i]) + b * XY(ds[i])) + c * XX(ds[i])
    ensures Sum(ds, second) == Sum(ds, YY) + b * Sum(ds, XY) + c * Sum(ds, XX)
  {
    var part: Delta -> real := (d: Delta) => YY(d) + b * XY(d);
    SumPlus(ds, part, YY, b, XY);
    SumPlus(ds, second, part, c, XX);
  }

  lemma SumOfFirstOrder(ds: seq<Delta>, e: real, f: real, g: real, first: Delta -> real)
    requires Sum(ds, X) == 0.0 && Sum(ds, Y) == 0.0
    requires forall i :: 0 <= i < |ds| ==> first(ds[i]) == (e * One(ds[i]) + f * X(ds[i])) + g * Y(ds[i])
    ensures Sum(ds, first) == e * Sum(ds, One)
  {
    var lift: Delta -> real := (d: Delta) => e * One(d) + f * X(d);
    Linear(ds, lift, e, One, f, X, |ds|);
    TimesZero(f, Sum(ds, X));
    SumPlus(ds, first, lift, g, Y);
    TimesZero(g, Sum(ds, Y));
  }

  lemma SumOfQuadratic(ds: seq<Delta>, b: real, c: real, e: real, f: real, g: real, whole: Delta -> real)
    requires Sum(ds, X) == 0.0 && Sum(ds, Y) == 0.0
    requires forall i :: 0 <= i < |ds| ==> whole(ds[i]) == Quadratic(ds[i], b, c, e, f, g)
    ensures Sum(ds, whole) == Sum(ds, YY) + b * Sum(ds, XY) + c * Sum(ds, XX) + e * Sum(ds, One)
  {
    var second: Delta -> real := (d: Delta) => (YY(d) + b * XY(d)) + c * XX(d);
    var first: Delta -> real := (d: Delta) => (e * One(d) + f * X(d)) + g * Y(d);
    SumOfSecondOrder(ds, b, c, second);
    SumOfFirstOrder(ds, e, f, g, first);
    SumPlus(ds, whole, second, 1.0, first);
  }

  /** The error of a line about a centre whose first moments vanish: the cross terms
      of its height are gone. */
  lemma ErrorInMoments(ds: seq<Delta>, p: real, t: real, whole: Delta -> real)
    requires Sum(ds, X) == 0.0 && Sum(ds, Y) == 0.0
    requires forall i :: 0 <= i < |ds| ==> whole(ds[i]) == ResidualSquare(ds[i], p, t)
    ensures Sum(ds, whole) == Expanded(Sum(ds, One), Sum(ds, XX), Sum(ds, XY), Sum(ds, YY), p, t)
  {
    forall i | 0 <= i < |ds|
      ensures whole(ds[i]) == Quadratic(ds[i], -2.0 * t, t * t, p * p, 2.0 * p * t, -2.0 * p)
    {
      ResidualIsQuadratic(ds[i], p, t);
    }
    SumOfQuadratic(ds, -2.0 * t, t * t, p * p, 2.0 * p * t, -2.0 * p, whole);
  }

  /** The line's height above `d` at `c`. */
  ghost function Height(line: Fit, c: real, d: real): real {
    line.master + line.slope * (c - line.anchorLocal as real) - d
  }

  lemma ErrorAboutCentroid(s: seq<Sample>, line: Fit)
    requires s != []
    ensures
      var ds := Centred(s);
      Error(s, line) == Expanded(Sum(ds, One), Sum(ds, XX), Sum(ds, XY), Sum(ds, YY),
                                 Height(line, MeanX(s), MeanY(s)), line.slope)
  {
    var rs, ds := Residuals(s, line), Centred(s);
    var p, t := Height(line, MeanX(s), MeanY(s)), line.slope;
    var f: Delta -> real := (d: Delta) => ResidualSquare(d, p, t);
    forall i | 0 <= i < |s| ensures YY(rs[i]) == f(ds[i]) {
      Reanchor(t, s[i].local as real, line.anchorLocal as real, MeanX(s));
      assert rs[i].y == ds[i].y - p - t * ds[i].x;
    }
    SameTerms(rs, YY, ds, f, |s|);
    NoFirstMoments(s);
    ErrorInMoments(ds, p, t, f);
  }

  lemma Spread(ds: seq<Delta>)
    ensures Sum(ds, XX) >= 0.0
    ensures Sum(ds, XX) == 0.0 ==> Sum(ds, XY) == 0.0
    ensures (exists i :: 0 <= i < |ds| && ds[i].x != 0.0) ==> Sum(ds, XX) > 0.0
  {
    forall i | 0 <= i < |ds| ensures XX(ds[i]) >= 0.0 && (ds[i].x != 0.0 ==> XX(ds[i]) > 0.0) {
      WeightedSquare(1.0, ds[i].x, XX(ds[i]));
    }
    NonNegativeSum(ds, XX, |ds|);
    if Sum(ds, XX) == 0.0 {
      ZeroSum(ds, XY, |ds|);
    }
  }

  /** Two different local times give the window a spread. */
  lemma TwoTimesSpread(s: seq<Sample>, i: nat, j: nat)
    requires i < j < |s| && s[i].local != s[j].local
    ensures Sum(Centred(s), XX) > 0.0
  {
    var ds := Centred(s);
    assert ds[i].x != ds[j].x;
    Spread(ds);
  }

  lemma CompleteSquare(v: real, t: real, b: real)
    ensures v * (t - b) * (t - b) == t * t * v - 2.0 * (t * (b * v)) + b * (b * v)
    ensures b * b * v == b * (b * v)
  {
    assert (t - b) * (t - b) == t * t - 2.0 * (t * b) + b * b;
    assert v * (t - b) * (t - b) == v * ((t - b) * (t - b));
    assert v * (t * b) == t * (b * v);
  }

  /** How much worse any line is than the regression line: by its height above the
      centroid, and by its tilt against the regression slope. */
  lemma Shortfall(w: real, sxx: real, sxy: real, syy: real, p: real, t: real) returns (above: real, tilt: real)
    requires w > 0.0 && sxx >= 0.0 && (sxx == 0.0 ==> sxy == 0.0)
    ensures Expanded(w, sxx, sxy, syy, p, t)
         == Expanded(w, sxx, sxy, syy, 0.0, Slope(sxx, sxy)) + above + tilt
    ensures above >= 0.0 && (p != 0.0 ==> above > 0.0)
    ensures tilt >= 0.0 && (sxx > 0.0 && t != Slope(sxx, sxy) ==> tilt > 0.0)
  {
    var b := Slope(sxx, sxy);
    above := w * p * p;
    WeightedSquare(w, p, above);
    tilt := 0.0;
    assert p * p * w == above;
    if sxx > 0.0 {
      tilt := sxx * (t - b) * (t - b);
      WeightedSquare(sxx, t - b, tilt);
      Divided(sxy, sxx);
      CompleteSquare(sxx, t, b);
      assert b * sxx == sxy;
    }
  }

  lemma FitThroughCentroid(s: seq<Sample>)
    requires s != []
    ensures Height(WindowFit(s), MeanX(s), MeanY(s)) == 0.0
  {
    Reanchor(WindowFit(s).slope, MeanX(s), MeanX(s), s[|s| - 1].local as real);
  }

  lemma SameLine(a: Fit, b: Fit, c: real, d: real)
    requires a.slope == b.slope && Height(a, c, d) == Height(b, c, d)
    ensures forall l: nat :: Project(a, l) == Project(b, l)
  {
    forall l: nat ensures Project(a, l) == Project(b, l) {
      Reanchor(a.slope, l as real, a.anchorLocal as real, c);
      Reanchor(b.slope, l as real, b.anchorLocal as real, c);
    }
  }

  /** The window's fit has the least weighted squared error of all lines, and when
      the window holds two different local times it is the only such line. */
  lemma FitIsOptimal(s: seq<Sample>, line: Fit)
    requires s != []
    ensures Error(s, WindowFit(s)) <= Error(s, line)
    ensures Error(s, WindowFit(s)) == Error(s, line) && (exists i, j :: 0 <= i < j < |s| && s[i].local != s[j].local)
            ==> forall l: nat :: Project(line, l) == Project(WindowFit(s), l)
  {
    var fit, ds := WindowFit(s), Centred(s);
    ErrorAboutCentroid(s, line);
    ErrorAboutCentroid(s, fit);
    FitThroughCentroid(s);
    NoFirstMoments(s);
    Spread(ds);
    var above, tilt := Shortfall(Sum(ds, One), Sum(ds, XX), Sum(ds, XY), Sum(ds, YY),
                                 Height(line, MeanX(s), MeanY(s)), line.slope);
    if Error(s, fit) == Error(s, line) && exists i, j :: 0 <= i < j < |s| && s[i].local != s[j].local {
      var i, j :| 0 <= i < j < |s| && s[i].local != s[j].local;
      TwoTimesSpread(s, i, j);
      SameLine(line, fit, MeanX(s), MeanY(s));
    }
  }

  // ----- samples that lie on one line -----

  ghost predicate OnLine(s: seq<Sample>, c: real, m: real) {
    forall i :: 0 <= i < |s| ==> s[i].master as real == c + m * s[i].local as real
  }

  lemma ErrorNonNegative(s: seq<Sample>, line: Fit)
    ensures Error(s, line) >= 0.0
  {
    var rs := Residuals(s, line);
    forall i | 0 <= i < |rs| ensures YY(rs[i]) >= 0.0 {
      WeightedSquare(1.0, rs[i].y, YY(rs[i]));
    }
    NonNegativeSum(rs, YY, |s|);
  }

  /** Two or more local times on one line are fitted by that line exactly. */
  lemma LineIsRecovered(s: seq<Sample>, c: real, m: real, i: nat, j: nat)
    requires OnLine(s, c, m) && i < j < |s| && s[i].local != s[j].local
    ensures forall l: nat :: Project(WindowFit(s), l) == c + m * l as real
  {
    var line := Fit(0, c, m);
    ZeroSum(Residuals(s, line), YY, |s|);
    ErrorNonNegative(s, WindowFit(s));
    FitIsOptimal(s, line);
    FromZero(c, m);
  }

  lemma FromZero(c: real, m: real)
    ensures forall l: nat :: Project(Fit(0, c, m), l) == c + m * l as real
  {
  }
}
