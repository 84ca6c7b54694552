/**
 * The layer logic of the HVVP wind retrieval: fourteen 200 m layers, every
 * 100 m from 600 m up. For each layer the prepared points are fitted by least
 * squares; points more than two standard deviations from the fit are dropped
 * and the fit is repeated on the survivors; the Rankine exponent and the
 * plausibility gate accept or reject the layer's winds. Over the accepted
 * layers the inverse-variance mean of the across-beam wind is formed and the
 * layer nearest 2 km decides whether a result was found.
 *
 * The design matrix (built with trigonometry from the radar volume), the
 * least-squares solver and the wind formulas (square roots, sines and cosines)
 * are parameters of the model: `Layer` holds what the preparation step
 * produced, a `Solver` stands for the fitting routine and `derive` for the
 * formulas that turn a fit into winds.
 */
module HvvpWinds {
  import opened HvvpSmooth
  import GaussJordan

  /** The number of columns of the design matrix. */
  const XlsDimension: nat := 16

  /** The fewest points with which a layer is fitted at all. */
  const MinPoints: nat := 6500

  /** The capacity of the point buffers. */
  const MaxPoints: nat := 200000

  /**
   * rotateAzimuth: the azimuth relative to the storm-centre bearing cca, both
   * in degrees from north, brought back into [0, 360) by one turn at most.
   */
  function RotateAzimuth(angle: real, cca: real): (r: real)
    ensures r == angle - cca || r == angle - cca + 360.0
    ensures 0.0 <= angle < 360.0 && 0.0 <= cca < 360.0 ==> 0.0 <= r < 360.0
    ensures angle >= cca ==> r == angle - cca
  {
    var d := angle - cca;
    if d < 0.0 then d + 360.0 else d
  }

  /** Rotating by cca and then by the rest of the turn gives the azimuth back. */
  lemma RotateAzimuthBack(angle: real, cca: real)
    requires 0.0 <= angle < 360.0 && 0.0 <= cca < 360.0
    ensures RotateAzimuth(RotateAzimuth(angle, cca), 360.0 - cca) == angle
  {
  }

  /** The centre height of layer m in km. */
  function LayerHeight(m: int): (h: real)
    ensures 0 <= m < Levels ==> 0.6 <= h <= 1.9
  {
    0.6 + 0.1 * (m as real)
  }

  /**
   * The Rankine exponent xt of the tangential wind, from the radial wind above
   * the radar vr and the Rankine exponent xr of the radial wind.
   */
  function RankineXt(vr: real, xr: real): real
  {
    if vr > 0.0 then
      if xr > 0.0 then 1.0 - xr else -1.0 * xr / 2.0
    else
      if xr >= 0.0 then xr / 2.0 else 1.0 + xr
  }

  /** The exponent is negative exactly for strong inflow or strong outflow. */
  lemma RankineXtNegative(vr: real, xr: real)
    ensures RankineXt(vr, xr) < 0.0 <==> (vr > 0.0 && xr > 1.0) || (vr <= 0.0 && xr < -1.0)
  {
  }

  /** What the preparation step produced for one layer: the design matrix by rows and the radial velocities. */
  datatype Layer = Layer(xs: seq<seq<real>>, ys: seq<real>)

  /** A least-squares fit: success, standard deviation, coefficients and their errors. */
  datatype Fit = Fit(ok: bool, sse: real, cc: seq<real>, stdErr: seq<real>)

  /** The winds one fit yields: vr, xr, the earth-relative wind (ue, ve), vm_sin and its variance. */
  datatype Winds = Winds(vr: real, xr: real, ue: real, ve: real, vmS: real, variance: real)

  /** What a layer leaves in u, v, vm_sin and var. */
  datatype Outcome = Outcome(u: real, v: real, vmSin: real, variance: real)

  type Solver = (seq<seq<real>>, seq<real>) -> Fit

  /** The solver fills one coefficient per column of the design matrix. */
  ghost predicate Shaped(lls: Solver)
  {
    forall xs, ys :: |lls(xs, ys).cc| == XlsDimension
  }

  /** Sixteen rows of one entry per point; every velocity is a measured one. */
  predicate WellFormed(l: Layer)
  {
    |l.xs| == XlsDimension && |l.ys| <= MaxPoints &&
    (forall p :: 0 <= p < XlsDimension ==> |l.xs[p]| == |l.ys|) &&
    forall n :: 0 <= n < |l.ys| ==> Valued(l.ys[n])
  }

  /** The fitted value at point n: the first p coefficients against column n. */
  function Dot(cc: seq<real>, xs: seq<seq<real>>, n: int, p: nat): real
    requires p <= |cc| && p <= |xs| && 0 <= n && forall q :: 0 <= q < |xs| ==> n < |xs[q]|
  {
    if p == 0 then 0.0 else Dot(cc, xs, n, p - 1) + cc[p - 1] * xs[p - 1][n]
  }

  /** Point n lies more than two standard deviations from the fit. */
  predicate Outlier(l: Layer, f: Fit, n: int)
    requires WellFormed(l) && |f.cc| == XlsDimension && 0 <= n < |l.ys|
  {
    GaussJordan.Abs(Dot(f.cc, l.xs, n, XlsDimension) - l.ys[n]) > 2.0 * f.sse
  }

  predicate HasOutlier(l: Layer, f: Fit)
    requires WellFormed(l) && |f.cc| == XlsDimension
  {
    exists n :: 0 <= n < |l.ys| && Outlier(l, f, n)
  }

  /** The velocities after the outlier pass: outliers overwritten with the missing-value marker. */
  function Screened(l: Layer, f: Fit): (s: seq<real>)
    requires WellFormed(l) && |f.cc| == XlsDimension
    ensures |s| == |l.ys|
    ensures forall n :: 0 <= n < |s| ==> (Valued(s[n]) <==> !Outlier(l, f, n))
    ensures forall n :: 0 <= n < |s| && Valued(s[n]) ==> s[n] == l.ys[n]
  {
    seq(|l.ys|, n requires 0 <= n < |l.ys| => if Outlier(l, f, n) then VelNull else l.ys[n])
  }

  /** cgood: the number of points among the first n that are not outliers. */
  function NumGood(l: Layer, f: Fit, n: int): nat
    requires WellFormed(l) && |f.cc| == XlsDimension && 0 <= n <= |l.ys|
  {
    if n == 0 then 0 else NumGood(l, f, n - 1) + (if Outlier(l, f, n - 1) then 0 else 1)
  }

  /** There is an outlier among the first n points exactly when fewer than n are good. */
  lemma {:induction false} NumGoodBound(l: Layer, f: Fit, n: int)
    requires WellFormed(l) && |f.cc| == XlsDimension && 0 <= n <= |l.ys|
    ensures NumGood(l, f, n) <= n
    ensures NumGood(l, f, n) < n <==> exists k :: 0 <= k < n && Outlier(l, f, k)
  {
    if n > 0 {
      NumGoodBound(l, f, n - 1);
    }
  }

  /** The indices, in increasing order, of the measured values among the first n. */
  function Kept(s: seq<real>, n: int): (r: seq<int>)
    requires 0 <= n <= |s|
    ensures |r| <= n
    ensures forall k :: 0 <= k < |r| ==> 0 <= r[k] < n && Valued(s[r[k]])
    ensures forall j, k :: 0 <= j < k < |r| ==> r[j] < r[k]
    ensures forall i :: 0 <= i < n && Valued(s[i]) ==> i in r
  {
    if n == 0 then []
    else
      var r := Kept(s, n - 1) + (if Valued(s[n - 1]) then [n - 1] else []);
      assert forall i :: 0 <= i < n - 1 && Valued(s[i]) ==> i in Kept(s, n - 1);
      r
  }

  /** qc_count == cgood: the survivors of the outlier pass are exactly the good points. */
  lemma {:induction false} KeptCountsGood(l: Layer, f: Fit, n: int)
    requires WellFormed(l) && |f.cc| == XlsDimension && 0 <= n <= |l.ys|
    ensures |Kept(Screened(l, f), n)| == NumGood(l, f, n)
  {
    if n > 0 {
      KeptCountsGood(l, f, n - 1);
    }
  }

  /** Without outliers every point survives, in its own place. */
  lemma {:induction false} KeptAll(s: seq<real>, n: int)
    requires 0 <= n <= |s| && forall i :: 0 <= i < n ==> Valued(s[i])
    ensures |Kept(s, n)| == n && forall k :: 0 <= k < n ==> Kept(s, n)[k] == k
  {
    if n > 0 {
      KeptAll(s, n - 1);
    }
  }

  /** The velocities at the kept indices. */
  function KeptValues(s: seq<real>, idx: seq<int>): (r: seq<real>)
    requires forall k :: 0 <= k < |idx| ==> 0 <= idx[k] < |s|
    ensures |r| == |idx| && forall k :: 0 <= k < |idx| ==> r[k] == s[idx[k]]
  {
    seq(|idx|, k requires 0 <= k < |idx| => s[idx[k]])
  }

  /** The design matrix restricted to the kept columns. */
  function KeptRows(xs: seq<seq<real>>, idx: seq<int>, m: int): (r: seq<seq<real>>)
    requires forall p :: 0 <= p < |xs| ==> |xs[p]| == m
    requires forall k :: 0 <= k < |idx| ==> 0 <= idx[k] < m
    ensures |r| == |xs|
    ensures forall p :: 0 <= p < |xs| ==> |r[p]| == |idx| && forall k :: 0 <= k < |idx| ==> r[p][k] == xs[p][idx[k]]
  {
    seq(|xs|, p requires 0 <= p < |xs| => seq(|idx|, k requires 0 <= k < |idx| => xs[p][idx[k]]))
  }

  /**
   * The fit the winds are taken from: the first fit, or, when it has outliers
   * and at least MinPoints good points, the fit of the survivors. The refit's
   * own success flag is not consulted.
   */
  ghost function FinalFit(l: Layer, lls: Solver): Fit
    requires WellFormed(l) && Shaped(lls)
  {
    var f := lls(l.xs, l.ys);
    if HasOutlier(l, f) && NumGood(l, f, |l.ys|) >= MinPoints then
      var s := Screened(l, f);
      var idx := Kept(s, |s|);
      lls(KeptRows(l.xs, idx, |s|), KeptValues(s, idx))
    else f
  }

  /** The plausibility gate: xt not negative and both wind components within 30 m/s. */
  function Accept(w: Winds): Outcome
  {
    var xt := RankineXt(w.vr, w.xr);
    if xt < 0.0 || GaussJordan.Abs(w.ue) > 30.0 || GaussJordan.Abs(w.ve) > 30.0 then
      Outcome(VelNull, VelNull, VelNull, w.variance)
    else
      Outcome(w.ue, w.ve, w.vmS, w.variance)
  }

  /** What layer processing leaves for one layer, given its var before. */
  ghost function LayerResult(l: Layer, lls: Solver, derive: Fit -> Winds, oldVar: real): Outcome
    requires WellFormed(l) && Shaped(lls)
  {
    if |l.ys| < MinPoints || !lls(l.xs, l.ys).ok then Outcome(VelNull, VelNull, VelNull, oldVar)
    else Accept(derive(FinalFit(l, lls)))
  }

  /**
   * A layer either has both wind components missing or both within 30 m/s
   * with a non-negative exponent; with too few points or a failed first fit it
   * is missing and its var is left alone.
   */
  lemma LayerResultGated(l: Layer, lls: Solver, derive: Fit -> Winds, oldVar: real)
    requires WellFormed(l) && Shaped(lls)
    ensures var o := LayerResult(l, lls, derive, oldVar);
      (o.u == VelNull <==> o.v == VelNull) &&
      (o.u != VelNull ==> GaussJordan.Abs(o.u) <= 30.0 && GaussJordan.Abs(o.v) <= 30.0) &&
      (o.u == VelNull ==> o.vmSin == VelNull) &&
      (|l.ys| < MinPoints ==> o == Outcome(VelNull, VelNull, VelNull, oldVar))
  {
  }

  /** A layer's winds come from a non-negative exponent. */
  lemma AcceptedExponent(w: Winds)
    requires Accept(w).u != VelNull
    ensures RankineXt(w.vr, w.xr) >= 0.0 && Accept(w).vmSin == w.vmS
  {
  }

  // The inverse-variance mean of vm_sin.

  /** A layer contributes to the mean when its u is present and its var is not zero. */
  predicate Qualifies(u: seq<real>, w: seq<real>, i: int)
    requires 0 <= i < |u| && i < |w|
  {
    u[i] != VelNull && w[i] != 0.0
  }

  /** The weight 1/var^2 of a qualifying layer; nothing for the others. */
  function Weight(u: seq<real>, w: seq<real>, i: int): real
    requires 0 <= i < |u| && i < |w|
  {
    if Qualifies(u, w, i) then 1.0 / (w[i] * w[i]) else 0.0
  }

  /** The weighted vm_sin of a qualifying layer; nothing for the others. */
  function Term(u: seq<real>, w: seq<real>, x: seq<real>, i: int): real
    requires 0 <= i < |u| && i < |w| && i < |x|
  {
    if Qualifies(u, w, i) then x[i] / (w[i] * w[i]) else 0.0
  }

  /** A qualifying layer weighs something, the others nothing. */
  lemma WeightSign(u: seq<real>, w: seq<real>, i: int)
    requires 0 <= i < |u| && i < |w|
    ensures Weight(u, w, i) >= 0.0 && (Weight(u, w, i) > 0.0 <==> Qualifies(u, w, i))
  {
    if Qualifies(u, w, i) {
      SquarePositive(w[i]);
    }
  }

  lemma SquarePositive(x: real)
    requires x != 0.0
    ensures x * x > 0.0 && 1.0 / (x * x) > 0.0
  {
  }

  /** A layer's term lies between its weight times the bounds of its value. */
  lemma TermBounds(u: seq<real>, w: seq<real>, x: seq<real>, i: int, lo: real, hi: real)
    requires 0 <= i < |u| && i < |w| && i < |x|
    requires Qualifies(u, w, i) ==> lo <= x[i] <= hi
    ensures lo * Weight(u, w, i) <= Term(u, w, x, i) <= hi * Weight(u, w, i)
  {
    if Qualifies(u, w, i) {
      SquarePositive(w[i]);
      WeightedTermBounds(x[i], w[i] * w[i], lo, hi);
    }
  }

  /** The sum of the weights 1/var^2 over the qualifying layers among the first n. */
  function SumW(u: seq<real>, w: seq<real>, n: int): real
    requires 0 <= n <= |u| && n <= |w|
  {
    if n == 0 then 0.0 else SumW(u, w, n - 1) + Weight(u, w, n - 1)
  }

  /** The weighted sum of vm_sin over the qualifying layers among the first n. */
  function SumWX(u: seq<real>, w: seq<real>, x: seq<real>, n: int): real
    requires 0 <= n <= |u| && n <= |w| && n <= |x|
  {
    if n == 0 then 0.0 else SumWX(u, w, x, n - 1) + Term(u, w, x, n - 1)
  }

  /** av_VmSin: the weighted mean, or the missing-value marker when no layer qualifies. */
  function InverseVarianceMean(u: seq<real>, w: seq<real>, x: seq<real>): real
    requires |u| == |w| == |x|
  {
    var sw := SumW(u, w, |u|);
    if sw != 0.0 then SumWX(u, w, x, |u|) / sw else VelNull
  }

  /** var after the mean: squared where the layer qualifies, as it was elsewhere. */
  function Squared(u: seq<real>, w: seq<real>): (r: seq<real>)
    requires |u| == |w|
    ensures |r| == |w|
    ensures forall i :: 0 <= i < |w| ==> r[i] == if Qualifies(u, w, i) then w[i] * w[i] else w[i]
  {
    seq(|w|, i requires 0 <= i < |w| => if Qualifies(u, w, i) then w[i] * w[i] else w[i])
  }

  /** One more layer of the averaging loop: what it adds to each sum. */
  lemma AverageStep(u: seq<real>, w: seq<real>, x: seq<real>, i: nat)
    requires i < |u| == |w| == |x|
    ensures SumW(u, w, i + 1) == SumW(u, w, i) + (if Qualifies(u, w, i) then 1.0 / (w[i] * w[i]) else 0.0)
    ensures SumWX(u, w, x, i + 1) == SumWX(u, w, x, i) + (if Qualifies(u, w, i) then x[i] / (w[i] * w[i]) else 0.0)
  {
  }

  /** A sequence that agrees with var squared at every layer is Squared. */
  lemma SquaredPointwise(u: seq<real>, w: seq<real>, v: seq<real>)
    requires |u| == |w| == |v|
    requires forall k :: 0 <= k < |v| ==> v[k] == if Qualifies(u, w, k) then w[k] * w[k] else w[k]
    ensures v == Squared(u, w)
  {
  }

  /** The total weight is positive exactly when some layer qualifies, and is never negative. */
  lemma {:induction false} SumWPositive(u: seq<real>, w: seq<real>, n: int)
    requires 0 <= n <= |u| && n <= |w|
    ensures SumW(u, w, n) >= 0.0
    ensures SumW(u, w, n) > 0.0 <==> exists i :: 0 <= i < n && Qualifies(u, w, i)
  {
    if n > 0 {
      SumWPositive(u, w, n - 1);
      WeightSign(u, w, n - 1);
    }
  }

  /** The weighted sum lies between the least and the greatest qualifying value, times the total weight. */
  lemma {:induction false} SumWXBounds(u: seq<real>, w: seq<real>, x: seq<real>, n: int, lo: real, hi: real)
    requires 0 <= n <= |u| && n <= |w| && n <= |x|
    requires forall i :: 0 <= i < n && Qualifies(u, w, i) ==> lo <= x[i] <= hi
    ensures lo * SumW(u, w, n) <= SumWX(u, w, x, n) <= hi * SumW(u, w, n)
  {
    if n > 0 {
      SumWXBounds(u, w, x, n - 1, lo, hi);
      SumWXStep(u, w, x, n, lo, hi);
    }
  }

  lemma SumWXStep(u: seq<real>, w: seq<real>, x: seq<real>, n: int, lo: real, hi: real)
    requires 0 < n <= |u| && n <= |w| && n <= |x|
    requires Qualifies(u, w, n - 1) ==> lo <= x[n - 1] <= hi
    requires lo * SumW(u, w, n - 1) <= SumWX(u, w, x, n - 1) <= hi * SumW(u, w, n - 1)
    ensures lo * SumW(u, w, n) <= SumWX(u, w, x, n) <= hi * SumW(u, w, n)
  {
    TermBounds(u, w, x, n - 1, lo, hi);
    AddBounds(SumW(u, w, n - 1), Weight(u, w, n - 1), SumWX(u, w, x, n - 1), Term(u, w, x, n - 1), lo, hi);
  }

  /**
   * The mean is the marker exactly when no layer qualifies; otherwise it lies
   * between the least and the greatest qualifying vm_sin.
   */
  lemma MeanBetween(u: seq<real>, w: seq<real>, x: seq<real>, lo: real, hi: real)
    requires |u| == |w| == |x|
    requires forall i :: 0 <= i < |u| && Qualifies(u, w, i) ==> lo <= x[i] <= hi
    ensures (exists i :: 0 <= i < |u| && Qualifies(u, w, i)) ==>
      lo <= InverseVarianceMean(u, w, x) <= hi
    ensures !(exists i :: 0 <= i < |u| && Qualifies(u, w, i)) ==> InverseVarianceMean(u, w, x) == VelNull
  {
    SumWPositive(u, w, |u|);
    SumWXBounds(u, w, x, |u|, lo, hi);
    var sw := SumW(u, w, |u|);
    if sw > 0.0 {
      DivideBounds(SumWX(u, w, x, |u|), sw, lo, hi);
    }
  }

  lemma WeightedTermBounds(x: real, q: real, lo: real, hi: real)
    requires q > 0.0 && lo <= x <= hi
    ensures lo * (1.0 / q) <= x / q <= hi * (1.0 / q)
  {
    var g := 1.0 / q;
    assert g > 0.0;
    assert x / q == x * g;
  }

  lemma AddBounds(t1: real, t2: real, s1: real, s2: real, lo: real, hi: real)
    requires lo * t1 <= s1 <= hi * t1 && lo * t2 <= s2 <= hi * t2
    ensures lo * (t1 + t2) <= s1 + s2 <= hi * (t1 + t2)
  {
  }

  lemma DivideBounds(s: real, t: real, lo: real, hi: real)
    requires t > 0.0 && lo * t <= s <= hi * t
    ensures lo <= s / t <= hi
  {
    assert s == (s / t) * t;
  }

  /** The fitted value at point n, summed column entry by column entry. */
  method EstimateAt(cc: seq<real>, xs: seq<seq<real>>, n: int) returns (est: real)
    requires |cc| == XlsDimension && |xs| == XlsDimension
    requires 0 <= n && forall q :: 0 <= q < |xs| ==> n < |xs[q]|
    ensures est == Dot(cc, xs, n, XlsDimension)
  {
    est := 0.0;
    var p := 0;
    while p < XlsDimension
      invariant 0 <= p <= XlsDimension && est == Dot(cc, xs, n, p)
    {
      est := est + cc[p] * xs[p][n];
      p := p + 1;
    }
  }

  /** The first k columns of a two-dimensional buffer, row by row. */
  function Rows(a: array2<real>, k: int): (r: seq<seq<real>>)
    requires 0 <= k <= a.Length1
    reads a
    ensures |r| == a.Length0
    ensures forall p :: 0 <= p < a.Length0 ==> |r[p]| == k && forall j :: 0 <= j < k ==> r[p][j] == a[p, j]
  {
    seq(a.Length0, p requires 0 <= p < a.Length0 reads a => seq(k, j requires 0 <= j < k reads a => a[p, j]))
  }

  /** Clears column n of the compacted design matrix. */
  method ZeroColumn(a: array2<real>, n: int)
    requires 0 <= n < a.Length1
    modifies a
    ensures forall p, k :: 0 <= p < a.Length0 && 0 <= k < a.Length1 ==>
      a[p, k] == if k == n then 0.0 else old(a[p, k])
  {
    var p := 0;
    while p < a.Length0
      invariant 0 <= p <= a.Length0
      invariant forall q, k :: 0 <= q < a.Length0 && 0 <= k < a.Length1 ==>
        a[q, k] == if k == n && q < p then 0.0 else old(a[q, k])
    {
      a[p, n] := 0.0;
      p := p + 1;
    }
  }

  /** Copies column n of the design matrix into column k of the compacted one. */
  method CopyColumn(a: array2<real>, xs: seq<seq<real>>, n: int, k: int)
    requires 0 <= k < a.Length1 && a.Length0 == |xs| && 0 <= n && forall p :: 0 <= p < |xs| ==> n < |xs[p]|
    modifies a
    ensures forall p, j :: 0 <= p < a.Length0 && 0 <= j < a.Length1 ==>
      a[p, j] == if j == k then xs[p][n] else old(a[p, j])
  {
    var p := 0;
    while p < a.Length0
      invariant 0 <= p <= a.Length0
      invariant forall q, j :: 0 <= q < a.Length0 && 0 <= j < a.Length1 ==>
        a[q, j] == if j == k && q < p then xs[q][n] else old(a[q, j])
    {
      a[p, k] := xs[p][n];
      p := p + 1;
    }
  }

  /** The compacted design matrix, read back, is the design matrix at the kept indices. */
  lemma CompactedRows(a: array2<real>, qc: int, xs: seq<seq<real>>, idx: seq<int>, count: int)
    requires 0 <= qc <= a.Length1 && a.Length0 == |xs| && qc == |idx|
    requires forall p :: 0 <= p < |xs| ==> |xs[p]| == count
    requires forall k :: 0 <= k < |idx| ==> 0 <= idx[k] < count
    requires forall p, k :: 0 <= p < |xs| && 0 <= k < qc ==> a[p, k] == xs[p][idx[k]]
    ensures Rows(a, qc) == KeptRows(xs, idx, count)
  {
    var r, t := Rows(a, qc), KeptRows(xs, idx, count);
    forall p | 0 <= p < |xs| ensures r[p] == t[p] {
      assert |r[p]| == |t[p]|;
    }
  }

  /** The compacted velocities, read back, are the velocities at the kept indices. */
  lemma CompactedValues(a: array<real>, qc: int, s: seq<real>, idx: seq<int>)
    requires 0 <= qc <= a.Length && qc == |idx|
    requires forall k :: 0 <= k < |idx| ==> 0 <= idx[k] < |s|
    requires forall k :: 0 <= k < qc ==> a[k] == s[idx[k]]
    ensures a[..qc] == KeptValues(s, idx)
  {
  }

  /**
   * The compaction after n points: the survivors' velocities and columns at
   * the front, in order, and zeros from there up to n.
   */
  ghost predicate Compacted(qcX: array2<real>, qcY: array<real>, xs: seq<seq<real>>, s: seq<real>, idx: seq<int>, n: int)
    reads qcX, qcY
  {
    qcX.Length0 == XlsDimension == |xs| && qcX.Length1 == qcY.Length == |s| &&
    (forall p :: 0 <= p < XlsDimension ==> |xs[p]| == |s|) &&
    0 <= |idx| <= n <= |s| &&
    (forall k :: 0 <= k < |idx| ==> 0 <= idx[k] < n) &&
    (forall k :: 0 <= k < |idx| ==> qcY[k] == s[idx[k]]) &&
    (forall p, k :: 0 <= p < XlsDimension && 0 <= k < |idx| ==> qcX[p, k] == xs[p][idx[k]]) &&
    (forall k :: |idx| <= k < n ==> qcY[k] == 0.0) &&
    (forall p, k :: 0 <= p < XlsDimension && |idx| <= k < n ==> qcX[p, k] == 0.0)
  }

  /** One point of the compaction: clear slot n, then append the point if it survived. */
  method CompactStep(qcX: array2<real>, qcY: array<real>, xs: seq<seq<real>>, ghost s: seq<real>,
                     ghost idx: seq<int>, y: real, n: int, qc: int)
    returns (qc': int, ghost idx': seq<int>)
    requires Compacted(qcX, qcY, xs, s, idx, n) && qc == |idx| && n < |s| && y == s[n]
    modifies qcX, qcY
    ensures idx' == idx + (if Valued(y) then [n] else []) && qc' == |idx'|
    ensures Compacted(qcX, qcY, xs, s, idx', n + 1)
  {
    qcY[n] := 0.0;
    ZeroColumn(qcX, n);
    qc', idx' := qc, idx;
    if y != VelNull {
      qcY[qc] := y;
      CopyColumn(qcX, xs, n, qc);
      qc', idx' := qc + 1, idx + [n];
    }
  }

  /** A layer's outcome for each of the levels, given var before the layers were processed. */
  ghost function Outcomes(layers: seq<Layer>, lls: Solver, derive: Fit -> Winds, oldVar: seq<real>): (os: seq<Outcome>)
    requires |layers| == Levels && |oldVar| == Levels && Shaped(lls)
    requires forall m :: 0 <= m < Levels ==> WellFormed(layers[m])
    ensures |os| == Levels
    ensures forall m :: 0 <= m < Levels ==> os[m] == LayerResult(layers[m], lls, derive, oldVar[m])
  {
    seq(Levels, m requires 0 <= m < Levels => LayerResult(layers[m], lls, derive, oldVar[m]))
  }

  function UOf(os: seq<Outcome>): (r: seq<real>)
    ensures |r| == |os| && forall i :: 0 <= i < |os| ==> r[i] == os[i].u
  {
    seq(|os|, i requires 0 <= i < |os| => os[i].u)
  }

  function VOf(os: seq<Outcome>): (r: seq<real>)
    ensures |r| == |os| && forall i :: 0 <= i < |os| ==> r[i] == os[i].v
  {
    seq(|os|, i requires 0 <= i < |os| => os[i].v)
  }

  function VmSinOf(os: seq<Outcome>): (r: seq<real>)
    ensures |r| == |os| && forall i :: 0 <= i < |os| ==> r[i] == os[i].vmSin
  {
    seq(|os|, i requires 0 <= i < |os| => os[i].vmSin)
  }

  function VarOf(os: seq<Outcome>): (r: seq<real>)
    ensures |r| == |os| && forall i :: 0 <= i < |os| ==> r[i] == os[i].variance
  {
    seq(|os|, i requires 0 <= i < |os| => os[i].variance)
  }

  /** A layer the search for the level nearest 2 km considers. */
  predicate Candidate(u: seq<real>, w: seq<real>, i: int)
    requires 0 <= i < |u| && i < |w|
  {
    u[i] != VelNull && w[i] != VelNull
  }

  function Distance(z: seq<real>, i: int): real
    requires 0 <= i < |z|
  {
    GaussJordan.Abs(2.0 - z[i])
  }

  /** A candidate closer to 2 km than the initial 100 km. */
  predicate Near(u: seq<real>, w: seq<real>, z: seq<real>, i: int)
    requires 0 <= i < |u| && i < |w| && i < |z|
  {
    Candidate(u, w, i) && Distance(z, i) < 100.0
  }

  /** After the mean, a layer is a candidate exactly when its u is present. */
  lemma SquaredCandidates(u: seq<real>, w: seq<real>, i: int)
    requires |u| == |w| && 0 <= i < |u|
    ensures Candidate(u, Squared(u, w), i) <==> u[i] != VelNull
  {
    if Qualifies(u, w, i) {
      assert Squared(u, w)[i] == w[i] * w[i] >= 0.0;
    }
  }

  /**
   * With the layers at their heights, the nearest candidate is the highest
   * one, so it is above the lowest layer exactly when some layer above the
   * lowest is a candidate.
   */
  lemma NearestAboveLowest(u: seq<real>, w: seq<real>, z: seq<real>, best: int)
    requires |u| == Levels && |w| == Levels && |z| == Levels && 0 <= best < Levels
    requires forall i :: 0 <= i < Levels ==> z[i] == LayerHeight(i)
    requires !(exists i :: 0 <= i < Levels && Near(u, w, z, i)) ==> best == 0
    requires (exists i :: 0 <= i < Levels && Near(u, w, z, i)) ==>
      Near(u, w, z, best) && forall j :: 0 <= j < Levels && Near(u, w, z, j) ==> Distance(z, best) <= Distance(z, j)
    ensures best >= 1 <==> exists i :: 1 <= i < Levels && Candidate(u, w, i)
  {
    if exists i :: 1 <= i < Levels && Candidate(u, w, i) {
      var i :| 1 <= i < Levels && Candidate(u, w, i);
      assert Distance(z, i) == 1.4 - 0.1 * (i as real);
      assert Near(u, w, z, i);
      assert Distance(z, best) == 1.4 - 0.1 * (best as real);
    }
  }

  /**
   * The state of the wind retrieval: per-layer heights, winds, vm_sin and
   * variances, the buffer of radial velocities and the mean vm_sin.
   */
  class Hvvp {
    const z: array<real>
    const u: array<real>
    const v: array<real>
    const variance: array<real>
    const vmSin: array<real>
    const yls: array<real>
    var avVmSin: real

    ghost predicate Valid()
      reads this
    {
      z.Length == Levels && u.Length == Levels && v.Length == Levels &&
      variance.Length == Levels && vmSin.Length == Levels && yls.Length == MaxPoints &&
      z != u && z != v && z != variance && z != vmSin && z != yls &&
      u != v && u != variance && u != vmSin && u != yls &&
      v != variance && v != vmSin && v != yls &&
      variance != vmSin && variance != yls && vmSin != yls
    }

    /** Every per-layer value starts missing. */
    constructor ()
      ensures Valid()
      ensures fresh(z) && fresh(u) && fresh(v) && fresh(variance) && fresh(vmSin) && fresh(yls)
      ensures forall i :: 0 <= i < Levels ==>
        z[i] == VelNull && u[i] == VelNull && v[i] == VelNull && variance[i] == VelNull && vmSin[i] == VelNull
    {
      z := new real[Levels];
      u := new real[Levels];
      v := new real[Levels];
      variance := new real[Levels];
      vmSin := new real[Levels];
      yls := new real[MaxPoints];
      new;
      var i := 0;
      while i < Levels
        modifies z, u, v, variance, vmSin
        invariant 0 <= i <= Levels
        invariant forall k :: 0 <= k < i ==>
          z[k] == VelNull && u[k] == VelNull && v[k] == VelNull && variance[k] == VelNull && vmSin[k] == VelNull
      {
        z[i] := VelNull;
        u[i] := VelNull;
        v[i] := VelNull;
        variance[i] := VelNull;
        vmSin[i] := VelNull;
        i := i + 1;
      }
    }

    /** The part of hvvpPrep kept here: the layer height and the cleared, refilled velocity buffer. */
    method Prep(m: int, l: Layer) returns (count: int)
      requires Valid() && 0 <= m < Levels && WellFormed(l)
      modifies z, yls
      ensures count == |l.ys|
      ensures z[..] == old(z[..])[m := LayerHeight(m)]
      ensures yls[..count] == l.ys && forall k :: count <= k < MaxPoints ==> yls[k] == 0.0
    {
      var j := 0;
      while j < MaxPoints
        modifies yls
        invariant 0 <= j <= MaxPoints
        invariant forall k :: 0 <= k < j ==> yls[k] == if k < |l.ys| then l.ys[k] else 0.0
      {
        yls[j] := if j < |l.ys| then l.ys[j] else 0.0;
        j := j + 1;
      }
      z[m] := LayerHeight(m);
      count := |l.ys|;
    }

    /** The outlier pass: overwrites the outliers in yls and counts the good points. */
    method ScreenOutliers(l: Layer, f: Fit) returns (outlier: bool, cgood: int)
      requires Valid() && WellFormed(l) && |f.cc| == XlsDimension && yls[..|l.ys|] == l.ys
      modifies yls
      ensures yls[..|l.ys|] == Screened(l, f)
      ensures forall k :: |l.ys| <= k < MaxPoints ==> yls[k] == old(yls[k])
      ensures outlier <==> HasOutlier(l, f)
      ensures cgood == NumGood(l, f, |l.ys|)
    {
      ghost var s := Screened(l, f);
      outlier, cgood := false, 0;
      var n := 0;
      while n < |l.ys|
        invariant 0 <= n <= |l.ys|
        invariant forall k :: 0 <= k < n ==> yls[k] == s[k]
        invariant forall k :: n <= k < MaxPoints ==> yls[k] == old(yls[k])
        invariant outlier <==> exists k :: 0 <= k < n && Outlier(l, f, k)
        invariant cgood == NumGood(l, f, n)
      {
        assert yls[n] == old(yls[..|l.ys|])[n];
        var est := EstimateAt(f.cc, l.xs, n);
        if GaussJordan.Abs(est - yls[n]) > 2.0 * f.sse {
          yls[n] := VelNull;
          outlier := true;
        } else {
          cgood := cgood + 1;
        }
        n := n + 1;
      }
    }

    /**
     * Copies the surviving velocities and design-matrix columns, in order, to
     * the front of fresh buffers; every slot behind them is cleared.
     */
    method Compact(l: Layer, count: int) returns (qcX: array2<real>, qcY: array<real>, qcCount: int)
      requires Valid() && WellFormed(l) && count == |l.ys|
      ensures fresh(qcX) && fresh(qcY)
      ensures qcX.Length0 == XlsDimension && qcX.Length1 == count && qcY.Length == count
      ensures var idx := Kept(yls[..count], count);
        qcCount == |idx| &&
        (forall k :: 0 <= k < qcCount ==> qcY[k] == yls[idx[k]]) &&
        (forall p, k :: 0 <= p < XlsDimension && 0 <= k < qcCount ==> qcX[p, k] == l.xs[p][idx[k]]) &&
        (forall k :: qcCount <= k < count ==> qcY[k] == 0.0) &&
        (forall p, k :: 0 <= p < XlsDimension && qcCount <= k < count ==> qcX[p, k] == 0.0)
    {
      qcX := new real[XlsDimension, count];
      qcY := new real[count];
      qcCount := 0;
      ghost var s := yls[..count];
      ghost var idx: seq<int> := [];
      var n := 0;
      while n < count
        modifies qcX, qcY
        invariant 0 <= n <= count && idx == Kept(s, n) && qcCount == |idx|
        invariant Compacted(qcX, qcY, l.xs, s, idx, n)
      {
        qcCount, idx := CompactStep(qcX, qcY, l.xs, s, idx, yls[n], n, qcCount);
        n := n + 1;
      }
    }

    /**
     * Screens the first fit's outliers and, when there are some and at least
     * MinPoints good points remain, fits the survivors again.
     */
    method ScreenAndRefit(l: Layer, lls: Solver, first: Fit) returns (fit: Fit)
      requires Valid() && WellFormed(l) && Shaped(lls) && first == lls(l.xs, l.ys)
      requires yls[..|l.ys|] == l.ys
      modifies yls
      ensures fit == FinalFit(l, lls)
    {
      var count := |l.ys|;
      var outlier, cgood := ScreenOutliers(l, first);
      fit := first;
      if outlier && cgood >= MinPoints {
        var qcX, qcY, qcCount := Compact(l, count);
        ghost var s := Screened(l, first);
        ghost var idx := Kept(s, count);
        CompactedRows(qcX, qcCount, l.xs, idx, count);
        CompactedValues(qcY, qcCount, s, idx);
        fit := lls(Rows(qcX, qcCount), qcY[..qcCount]);
      }
    }

    /** One pass of the layer loop of findHVVPWinds. */
    method SolveLayer(m: int, l: Layer, lls: Solver, derive: Fit -> Winds) returns (count: int)
      requires Valid() && 0 <= m < Levels && WellFormed(l) && Shaped(lls)
      modifies z, u, v, variance, vmSin, yls
      ensures count == |l.ys|
      ensures z[..] == old(z[..])[m := LayerHeight(m)]
      ensures var o := LayerResult(l, lls, derive, old(variance[m]));
        u[..] == old(u[..])[m := o.u] && v[..] == old(v[..])[m := o.v] &&
        vmSin[..] == old(vmSin[..])[m := o.vmSin] && variance[..] == old(variance[..])[m := o.variance]
    {
      count := Prep(m, l);
      var ok := false;
      if count >= MinPoints {
        var fit := lls(l.xs, yls[..count]);
        if fit.ok {
          ok := true;
          fit := ScreenAndRefit(l, lls, fit);
          var w := derive(fit);
          variance[m] := w.variance;
          var xt := RankineXt(w.vr, w.xr);
          if xt < 0.0 || GaussJordan.Abs(w.ue) > 30.0 || GaussJordan.Abs(w.ve) > 30.0 {
            u[m], v[m], vmSin[m] := VelNull, VelNull, VelNull;
          } else {
            u[m], v[m], vmSin[m] := w.ue, w.ve, w.vmS;
          }
        }
      }
      if !ok {
        u[m], v[m], vmSin[m] := VelNull, VelNull, VelNull;
      }
    }

    /** The layer loop of findHVVPWinds; returns the point count of the last layer. */
    method SolveLayers(layers: seq<Layer>, lls: Solver, derive: Fit -> Winds) returns (count: int)
      requires Valid() && |layers| == Levels && Shaped(lls)
      requires forall m :: 0 <= m < Levels ==> WellFormed(layers[m])
      modifies z, u, v, variance, vmSin, yls
      ensures count == |layers[Levels - 1].ys|
      ensures forall m :: 0 <= m < Levels ==> z[m] == LayerHeight(m)
      ensures forall m :: 0 <= m < Levels ==>
        var o := LayerResult(layers[m], lls, derive, old(variance[m]));
        u[m] == o.u && v[m] == o.v && vmSin[m] == o.vmSin && variance[m] == o.variance
    {
      count := 0;
      var m := 0;
      while m < Levels
        invariant 0 <= m <= Levels
        invariant m > 0 ==> count == |layers[m - 1].ys|
        invariant forall k :: 0 <= k < m ==> z[k] == LayerHeight(k)
        invariant forall k :: 0 <= k < m ==>
          var o := LayerResult(layers[k], lls, derive, old(variance[k]));
          u[k] == o.u && v[k] == o.v && vmSin[k] == o.vmSin && variance[k] == o.variance
        invariant forall k :: m <= k < Levels ==> variance[k] == old(variance[k])
      {
        count := SolveLayer(m, layers[m], lls, derive);
        m := m + 1;
      }
    }

    /**
     * The inverse-variance mean of vm_sin over the layers with u present and
     * var not zero; the var of those layers is squared in place.
     */
    method AverageVmSin()
      requires Valid()
      modifies variance, `avVmSin
      ensures variance[..] == Squared(u[..], old(variance[..]))
      ensures avVmSin == InverseVarianceMean(u[..], old(variance[..]), vmSin[..])
    {
      ghost var w, us, xs := variance[..], u[..], vmSin[..];
      avVmSin := 0.0;
      var varAv := 0.0;
      var sumwgt := 0.0;
      var i := 0;
      while i < Levels
        invariant 0 <= i <= Levels
        invariant forall k :: 0 <= k < i ==> variance[k] == if Qualifies(us, w, k) then w[k] * w[k] else w[k]
        invariant forall k :: i <= k < Levels ==> variance[k] == w[k]
        invariant sumwgt == varAv == SumW(us, w, i)
        invariant avVmSin == SumWX(us, w, xs, i)
      {
        var v := variance[i];
        assert u[i] == us[i] && vmSin[i] == xs[i] && v == w[i];
        AverageStep(us, w, xs, i);
        if u[i] != VelNull && v != 0.0 {
          SquarePositive(v);
          var sq := v * v;
          variance[i] := sq;
          sumwgt := sumwgt + 1.0 / sq;
          avVmSin := avVmSin + vmSin[i] / sq;
          varAv := varAv + 1.0 / sq;
        }
        i := i + 1;
      }
      if sumwgt != 0.0 && varAv != 0.0 {
        avVmSin := avVmSin / sumwgt;
        varAv := 1.0 / varAv;
      } else {
        avVmSin := VelNull;
        varAv := VelNull;
      }
      SquaredPointwise(us, w, variance[..]);
    }

    /**
     * The layer nearest 2 km among those with u and var present, the lowest
     * one on ties; layer 0 when there is none.
     */
    method NearestTo2Km() returns (ifoundit: int)
      requires Valid()
      ensures 0 <= ifoundit < Levels
      ensures !(exists i :: 0 <= i < Levels && Near(u[..], variance[..], z[..], i)) ==> ifoundit == 0
      ensures (exists i :: 0 <= i < Levels && Near(u[..], variance[..], z[..], i)) ==>
        Near(u[..], variance[..], z[..], ifoundit) &&
        (forall j :: 0 <= j < Levels && Near(u[..], variance[..], z[..], j) ==>
          Distance(z[..], ifoundit) <= Distance(z[..], j)) &&
        (forall j :: 0 <= j < ifoundit && Near(u[..], variance[..], z[..], j) ==>
          Distance(z[..], ifoundit) < Distance(z[..], j))
    {
      ghost var us, ws, zs := u[..], variance[..], z[..];
      ghost var seen := false;
      var diff := 100.0;
      ifoundit := 0;
      var i := 0;
      while i < Levels
        invariant 0 <= i <= Levels && 0 <= ifoundit < Levels
        invariant seen <==> exists k :: 0 <= k < i && Near(us, ws, zs, k)
        invariant !seen ==> ifoundit == 0 && diff == 100.0
        invariant seen ==>
          ifoundit < i && Near(us, ws, zs, ifoundit) && diff == Distance(zs, ifoundit) &&
          (forall j :: 0 <= j < i && Near(us, ws, zs, j) ==> diff <= Distance(zs, j)) &&
          (forall j :: 0 <= j < ifoundit && Near(us, ws, zs, j) ==> diff < Distance(zs, j))
      {
        assert u[i] == us[i] && variance[i] == ws[i] && z[i] == zs[i];
        if u[i] != VelNull && variance[i] != VelNull {
          if GaussJordan.Abs(2.0 - z[i]) < diff {
            diff := GaussJordan.Abs(2.0 - z[i]);
            ifoundit := i;
          }
        }
        seen := seen || Near(us, ws, zs, i);
        i := i + 1;
      }
    }

    /**
     * findHVVPWinds: processes the fourteen layers, forms the mean vm_sin and
     * reports whether the layer nearest 2 km lies above the lowest one; in that
     * case, when the last layer had more than four points, the profiles are
     * smoothed.
     */
    method FindHvvpWinds(layers: seq<Layer>, lls: Solver, derive: Fit -> Winds) returns (found: bool)
      requires Valid() && |layers| == Levels && Shaped(lls)
      requires forall m :: 0 <= m < Levels ==> WellFormed(layers[m])
      modifies z, u, v, variance, vmSin, yls, `avVmSin
      ensures forall m :: 0 <= m < Levels ==> z[m] == LayerHeight(m)
      ensures var os := Outcomes(layers, lls, derive, old(variance[..]));
        (found <==> exists i :: 1 <= i < Levels && os[i].u != VelNull) &&
        avVmSin == InverseVarianceMean(UOf(os), VarOf(os), VmSinOf(os)) &&
        var smoothed := found && |layers[Levels - 1].ys| > 4;
        u[..] == (if smoothed then Smooth(UOf(os)) else UOf(os)) &&
        v[..] == (if smoothed then Smooth(VOf(os)) else VOf(os)) &&
        var w := Squared(UOf(os), VarOf(os));
        (vmSin[..], variance[..]) == (if smoothed then SmoothPairs(VmSinOf(os), w) else (VmSinOf(os), w))
    {
      ghost var os := Outcomes(layers, lls, derive, variance[..]);
      var count := SolveLayers(layers, lls, derive);
      assert u[..] == UOf(os) && v[..] == VOf(os) && vmSin[..] == VmSinOf(os) && variance[..] == VarOf(os);
      AverageVmSin();
      var ifoundit := NearestTo2Km();
      ghost var w := Squared(UOf(os), VarOf(os));
      forall i | 0 <= i < Levels ensures Candidate(UOf(os), w, i) <==> os[i].u != VelNull {
        SquaredCandidates(UOf(os), VarOf(os), i);
      }
      NearestAboveLowest(u[..], variance[..], z[..], ifoundit);
      found := ifoundit >= 1;
      if found && count > 4 {
        SmoothHvvp(u);
        SmoothHvvp(v);
        SmoothHvvpVmSin(vmSin, variance);
      }
    }
  }
}
