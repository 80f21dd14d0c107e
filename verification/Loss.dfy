/** The loss the isophote fitter minimises at one radius: the amplitude of the
    second Fourier coefficient of the fluxes sampled on the ellipse, relative to
    the local flux level, inflated by a penalty for differing from the
    neighbouring isophotes. Two variants exist: the robust one clips bright
    samples and normalises by the median, the mean one normalises by the mean
    and gives up on non-finite samples. */
module Loss {
  import opened Common

  datatype Variant = Robust | Mean

  /** Quantile at which the robust variant clips the samples, without a mask. */
  const ClipLevel: real := 0.85
  /** Quantile at which the robust variant clips the samples when a mask is in use. */
  const MaskedClipLevel: real := 0.9

  /** Scale of the angle term of the regulariser: twice the angle tolerance,
      0.2 for the robust variant and 0.3 for the mean one. */
  function Bandwidth(v: Variant): (bw: real)
    ensures 0.0 < bw
  {
    match v
    case Robust => 2.0 * 0.2
    case Mean => 2.0 * 0.3
  }

  /** The numerical routines the loss calls, kept abstract: the ellipse sampler
      (at a radius, ellipticity and position angle, with the centre and mask
      fixed), the magnitude of the second FFT coefficient, median, mean and
      quantile, the angle difference, the ellipticity transform and its
      inverse, whether a mask is in use, and the background noise. */
  datatype FitEnv = FitEnv(
    sample: (real, real, real) -> seq<Flux>,
    amp2: seq<real> -> real,
    median: seq<real> -> real,
    mean: seq<real> -> real,
    quantile: (seq<real>, real) -> real,
    angleDiff: (real, real) -> real,
    toEps: real -> real,
    fromEps: real -> real,
    masked: bool,
    noise: real)
  {
    /** What the model assumes of the routines: the sampler returns at least
        three fluxes (the FFT has a second coefficient), amplitudes are not
        negative, ellipticities produced by the transform lie in [0, 1), and
        the noise is positive. */
    ghost predicate Valid()
    {
      && 0.0 < noise
      && (forall r, e, p :: |sample(r, e, p)| >= 3)
      && (forall xs :: 0.0 <= amp2(xs))
      && (forall x :: 0.0 <= toEps(x) < 1.0)
    }

    lemma SampleLength(r: real, e: real, p: real)
      requires Valid()
      ensures |sample(r, e, p)| >= 3
    {
    }
  }

  function Abs(x: real): (a: real)
    ensures 0.0 <= a && (a == x || a == -x)
  {
    if x < 0.0 then -x else x
  }

  function Max(a: real, b: real): (m: real)
    ensures a <= m && b <= m && (m == a || m == b)
  {
    if a < b then b else a
  }

  /** Every ellipticity of a profile lies in [0, 1). */
  predicate EllipOk(e: seq<real>)
  {
    forall k :: 0 <= k < |e| ==> 0.0 <= e[k] < 1.0
  }

  /** The penalty between isophote `i` and its neighbour `j`: the relative change
      of ellipticity plus the scaled difference of the doubled position angles. */
  function NeighbourTerm(e: seq<real>, pa: seq<real>, i: nat, j: nat, bw: real, angleDiff: (real, real) -> real): (t: real)
    requires |e| == |pa| && i < |e| && j < |e|
    requires e[j] < 1.0 && 0.0 < bw
    ensures 0.0 <= t
  {
    Abs((e[i] - e[j]) / (1.0 - e[j])) + Abs(angleDiff(2.0 * pa[i], 2.0 * pa[j]) / bw)
  }

  /** A neighbour adds nothing exactly when it has the same ellipticity and the
      angle difference of the doubled position angles is zero. */
  lemma NeighbourTermZero(e: seq<real>, pa: seq<real>, i: nat, j: nat, bw: real, angleDiff: (real, real) -> real)
    requires |e| == |pa| && i < |e| && j < |e|
    requires e[j] < 1.0 && 0.0 < bw
    ensures NeighbourTerm(e, pa, i, j, bw, angleDiff) == 0.0
        <==> e[i] == e[j] && angleDiff(2.0 * pa[i], 2.0 * pa[j]) == 0.0
  {
    var u := e[i] - e[j];
    var w := 1.0 - e[j];
    var a := angleDiff(2.0 * pa[i], 2.0 * pa[j]);
    QuotientZero(u, w);
    QuotientZero(a, bw);
  }

  lemma QuotientZero(x: real, d: real)
    requires d != 0.0
    ensures x / d == 0.0 <==> x == 0.0
  {
    if x / d == 0.0 {
      assert x == (x / d) * d;
    }
  }

  /** The regulariser at radius `i`: one neighbour term for each neighbour that exists. */
  function Regularizer(e: seq<real>, pa: seq<real>, i: nat, bw: real, angleDiff: (real, real) -> real): (reg: real)
    requires |e| == |pa| && i < |e| && EllipOk(e) && 0.0 < bw
    ensures 0.0 <= reg
    ensures i + 1 < |e| ==> NeighbourTerm(e, pa, i, i + 1, bw, angleDiff) <= reg
    ensures 0 < i ==> NeighbourTerm(e, pa, i, i - 1, bw, angleDiff) <= reg
  {
    (if i + 1 < |e| then NeighbourTerm(e, pa, i, i + 1, bw, angleDiff) else 0.0)
    + (if 0 < i then NeighbourTerm(e, pa, i, i - 1, bw, angleDiff) else 0.0)
  }

  /** The regulariser only looks at radius `i` and its two neighbours: two
      profiles that agree there get the same penalty. */
  lemma RegularizerLocal(e: seq<real>, pa: seq<real>, e': seq<real>, pa': seq<real>, i: nat, bw: real, angleDiff: (real, real) -> real)
    requires |e| == |pa| == |e'| == |pa'| && i < |e| && EllipOk(e) && EllipOk(e') && 0.0 < bw
    requires forall k :: 0 <= k < |e| && i <= k + 1 && k <= i + 1 ==> e[k] == e'[k] && pa[k] == pa'[k]
    ensures Regularizer(e, pa, i, bw, angleDiff) == Regularizer(e', pa', i, bw, angleDiff)
  {
    assert e[i] == e'[i] && pa[i] == pa'[i];
    if i + 1 < |e| {
      assert e[i + 1] == e'[i + 1] && pa[i + 1] == pa'[i + 1];
    }
    if 0 < i {
      assert e[i - 1] == e'[i - 1] && pa[i - 1] == pa'[i - 1];
    }
  }

  /** The regulariser vanishes exactly when every neighbour that exists has the
      same ellipticity and a zero angle difference; a single isophote is never
      penalised. */
  lemma RegularizerZero(e: seq<real>, pa: seq<real>, i: nat, bw: real, angleDiff: (real, real) -> real)
    requires |e| == |pa| && i < |e| && EllipOk(e) && 0.0 < bw
    ensures Regularizer(e, pa, i, bw, angleDiff) == 0.0 <==>
      && (i + 1 < |e| ==> e[i] == e[i + 1] && angleDiff(2.0 * pa[i], 2.0 * pa[i + 1]) == 0.0)
      && (0 < i ==> e[i] == e[i - 1] && angleDiff(2.0 * pa[i], 2.0 * pa[i - 1]) == 0.0)
    ensures |e| == 1 ==> Regularizer(e, pa, i, bw, angleDiff) == 0.0
  {
    if i + 1 < |e| {
      NeighbourTermZero(e, pa, i, i + 1, bw, angleDiff);
    }
    if 0 < i {
      NeighbourTermZero(e, pa, i, i - 1, bw, angleDiff);
    }
  }

  /** The weight given to the regulariser on pass `count`: none for the first
      four passes, the configured weight afterwards. */
  function RegWeight(count: nat, weight: real): real
  {
    if count > 4 then weight else 0.0
  }

  /** The relative amplitude of the second Fourier coefficient: `amp` over the
      number of samples times the flux level (floored at zero) plus the noise. */
  function F2(amp: real, count: nat, level: real, noise: real): (f: real)
    requires 0 < count && 0.0 < noise && 0.0 <= amp
    ensures 0.0 <= f
    ensures f == 0.0 <==> amp == 0.0
  {
    var d := count as real * (Max(0.0, level) + noise);
    PositiveProduct(count as real, Max(0.0, level) + noise);
    QuotientZero(amp, d);
    amp / d
  }

  lemma PositiveProduct(x: real, y: real)
    requires 0.0 < x && 0.0 < y
    ensures 0.0 < x * y
  {
  }

  /** The final loss: the Fourier term inflated by the weighted regulariser. */
  function Compose(f2: real, reg: real, weight: real): (l: real)
    requires 0.0 <= f2 && 0.0 <= reg && 0.0 <= weight
    ensures f2 <= l
    ensures weight == 0.0 || reg == 0.0 ==> l == f2
  {
    NonNegProduct(reg, weight);
    NonNegProduct(f2, reg * weight);
    assert f2 * (1.0 + reg * weight) == f2 + f2 * (reg * weight);
    f2 * (1.0 + reg * weight)
  }

  lemma NonNegProduct(x: real, y: real)
    requires 0.0 <= x && 0.0 <= y
    ensures 0.0 <= x * y
  {
  }

  /** `np.clip(xs, a_max = hi)`: every sample above `hi` is lowered to `hi`. */
  function ClipAbove(xs: seq<real>, hi: real): (ys: seq<real>)
    ensures |ys| == |xs|
    ensures forall k :: 0 <= k < |xs| ==> ys[k] <= hi && ys[k] <= xs[k]
    ensures forall k :: 0 <= k < |xs| ==> xs[k] <= hi ==> ys[k] == xs[k]
    ensures forall k :: 0 <= k < |xs| ==> hi < xs[k] ==> ys[k] == hi
  {
    seq(|xs|, k requires 0 <= k < |xs| => if xs[k] <= hi then xs[k] else hi)
  }

  /** Clipping twice at the same level clips once. */
  lemma ClipAboveIdempotent(xs: seq<real>, hi: real)
    ensures ClipAbove(ClipAbove(xs, hi), hi) == ClipAbove(xs, hi)
  {
  }

  /** The clip level of the robust variant. */
  function ClipQuantile(masked: bool): real
  {
    if masked then MaskedClipLevel else ClipLevel
  }

  /** The Fourier term of the loss for the finite samples `vs`: the robust
      variant clips above its quantile and normalises by the median, the mean
      variant normalises by the mean. */
  function FourierLoss(env: FitEnv, v: Variant, vs: seq<real>): (f2: real)
    requires env.Valid() && |vs| >= 3
    ensures 0.0 <= f2
    ensures v.Robust? ==> (f2 == 0.0 <==> env.amp2(ClipAbove(vs, env.quantile(vs, ClipQuantile(env.masked)))) == 0.0)
    ensures v.Mean? ==> (f2 == 0.0 <==> env.amp2(vs) == 0.0)
  {
    if v.Robust? then
      var clipped := ClipAbove(vs, env.quantile(vs, ClipQuantile(env.masked)));
      F2(env.amp2(clipped), |vs|, env.median(vs), env.noise)
    else
      F2(env.amp2(vs), |vs|, env.mean(vs), env.noise)
  }

  /** The unregularised loss of the samples `xs`: NaN (robust variant) or
      infinity (mean variant) when a sample is not finite, else the Fourier term. */
  function BaseLoss(env: FitEnv, v: Variant, xs: seq<Flux>): (l: LossVal)
    requires env.Valid() && |xs| >= 3
    ensures v.Robust? ==> (l.NaN? <==> !AllFinite(xs)) && !l.PosInf?
    ensures v.Mean? ==> (l.PosInf? <==> !AllFinite(xs)) && !l.NaN?
    ensures l.Num? ==> 0.0 <= l.v
  {
    if !AllFinite(xs) then
      if v.Robust? then NaN else PosInf
    else
      Num(FourierLoss(env, v, Values(xs)))
  }

  /** A loss inflated by the weighted regulariser; NaN and infinity stay as they are. */
  function Weighted(l: LossVal, reg: real, weight: real): (w: LossVal)
    requires (l.Num? ==> 0.0 <= l.v) && 0.0 <= reg && 0.0 <= weight
    ensures w.Num? <==> l.Num?
    ensures !l.Num? ==> w == l
    ensures w.Num? ==> l.v <= w.v
  {
    if l.Num? then Num(Compose(l.v, reg, weight)) else l
  }

  /** The loss of isophote `i` of the profile `(e, pa)` at radii `r`, for either
      variant, with regulariser weight `weight`. The robust variant lets a
      non-finite sample through as NaN; the mean variant answers infinity. */
  function FitLoss(env: FitEnv, v: Variant, r: seq<real>, e: seq<real>, pa: seq<real>, i: nat, weight: real): (l: LossVal)
    requires env.Valid()
    requires |r| == |e| == |pa| && i < |r| && EllipOk(e) && 0.0 <= weight
    ensures var xs := env.sample(r[i], e[i], pa[i]);
      && (v.Robust? ==> (l.NaN? <==> !AllFinite(xs)) && !l.PosInf?)
      && (v.Mean? ==> (l.PosInf? <==> !AllFinite(xs)) && !l.NaN?)
    ensures l.Num? ==> 0.0 <= l.v
  {
    env.SampleLength(r[i], e[i], pa[i]);
    Weighted(BaseLoss(env, v, env.sample(r[i], e[i], pa[i])), Regularizer(e, pa, i, Bandwidth(v), env.angleDiff), weight)
  }

  /** The weight only scales the penalty: whether the loss is a number does not
      depend on it, and a loss that is a number is the unregularised loss times
      one plus the weighted regulariser. */
  lemma FitLossWeight(env: FitEnv, v: Variant, r: seq<real>, e: seq<real>, pa: seq<real>, i: nat, weight: real)
    requires env.Valid()
    requires |r| == |e| == |pa| && i < |r| && EllipOk(e) && 0.0 <= weight
    ensures FitLoss(env, v, r, e, pa, i, weight).Num? <==> FitLoss(env, v, r, e, pa, i, 0.0).Num?
    ensures FitLoss(env, v, r, e, pa, i, weight).Num? ==>
      FitLoss(env, v, r, e, pa, i, weight).v
        == FitLoss(env, v, r, e, pa, i, 0.0).v * (1.0 + Regularizer(e, pa, i, Bandwidth(v), env.angleDiff) * weight)
  {
    env.SampleLength(r[i], e[i], pa[i]);
    var base := BaseLoss(env, v, env.sample(r[i], e[i], pa[i]));
    assert FitLoss(env, v, r, e, pa, i, weight) == Weighted(base, Regularizer(e, pa, i, Bandwidth(v), env.angleDiff), weight);
    assert FitLoss(env, v, r, e, pa, i, 0.0) == Weighted(base, Regularizer(e, pa, i, Bandwidth(v), env.angleDiff), 0.0);
    if base.Num? {
      assert FitLoss(env, v, r, e, pa, i, 0.0).v == base.v;
      assert FitLoss(env, v, r, e, pa, i, weight).v == Compose(base.v, Regularizer(e, pa, i, Bandwidth(v), env.angleDiff), weight);
      assert FitLoss(env, v, r, e, pa, i, weight).v
          == Compose(FitLoss(env, v, r, e, pa, i, 0.0).v, Regularizer(e, pa, i, Bandwidth(v), env.angleDiff), weight);
      ComposedIsProduct(FitLoss(env, v, r, e, pa, i, weight).v, FitLoss(env, v, r, e, pa, i, 0.0).v,
                        Regularizer(e, pa, i, Bandwidth(v), env.angleDiff), weight);
    } else {
      assert !FitLoss(env, v, r, e, pa, i, weight).Num?;
    }
  }

  /** A value composed from `f2` is `f2` times one plus the weighted
      regulariser, as line 90 of the fitter computes it. */
  lemma ComposedIsProduct(l: real, f2: real, reg: real, weight: real)
    requires 0.0 <= f2 && 0.0 <= reg && 0.0 <= weight
    requires l == Compose(f2, reg, weight)
    ensures l == f2 * (1.0 + reg * weight)
  {
  }

  /** While the regulariser is switched off (the first four passes), the loss at
      radius `i` does not depend on the rest of the profile. */
  lemma EarlyLossIgnoresNeighbours(env: FitEnv, v: Variant, r: seq<real>, e: seq<real>, pa: seq<real>, e': seq<real>, pa': seq<real>, i: nat, count: nat, weight: real)
    requires env.Valid()
    requires |r| == |e| == |pa| == |e'| == |pa'| && i < |r| && EllipOk(e) && EllipOk(e') && 0.0 <= weight
    requires e[i] == e'[i] && pa[i] == pa'[i]
    requires count <= 4
    ensures FitLoss(env, v, r, e, pa, i, RegWeight(count, weight)) == FitLoss(env, v, r, e', pa', i, RegWeight(count, weight))
  {
  }

  /** The loss at radius `i` depends on the profile only through radius `i` and
      its neighbours. */
  lemma FitLossLocal(env: FitEnv, v: Variant, r: seq<real>, e: seq<real>, pa: seq<real>, e': seq<real>, pa': seq<real>, i: nat, weight: real)
    requires env.Valid()
    requires |r| == |e| == |pa| == |e'| == |pa'| && i < |r| && EllipOk(e) && EllipOk(e') && 0.0 <= weight
    requires forall k :: 0 <= k < |e| && i <= k + 1 && k <= i + 1 ==> e[k] == e'[k] && pa[k] == pa'[k]
    ensures FitLoss(env, v, r, e, pa, i, weight) == FitLoss(env, v, r, e', pa', i, weight)
  {
    RegularizerLocal(e, pa, e', pa', i, Bandwidth(v), env.angleDiff);
    assert e[i] == e'[i] && pa[i] == pa'[i];
  }
}
