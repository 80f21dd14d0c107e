/** The isophote fitter end to end, for both loss variants: choose the radii,
    start every radius at the initial ellipticity and angle, run the search,
    flatten a collapsed centre, smooth, clamp the inner ellipticities and
    estimate errors. */
module IsophoteFit {
  import opened Common
  import opened Radii
  import opened Loss
  import opened Search
  import opened PostProcess

  /** Default regulariser weight (`ap_regularize_scale`). */
  const DefaultRegularize: real := 1.0

  /** Default fit limit (`ap_fit_limit`), in units of the background noise:
      2 for the robust fitter and 1 for the mean fitter. */
  function DefaultFitLimit(v: Variant): real
  {
    match v
    case Robust => 2.0
    case Mean => 1.0
  }

  /** The options the fitter reads; a missing option takes its default. */
  datatype Options = Options(scale: Option<real>, fitLimit: Option<real>, regularize: Option<real>)

  /** The smoothing regressions for ellipticity and angle, kept abstract; they
      return one value per radius. */
  datatype Smoothers = Smoothers(ellip: (seq<real>, seq<real>) -> seq<real>, pa: (seq<real>, seq<real>) -> seq<real>)
  {
    ghost predicate Valid()
    {
      forall r, xs :: |ellip(r, xs)| == |xs| && |pa(r, xs)| == |xs|
    }

    lemma Lengths(r: seq<real>, xs: seq<real>)
      requires Valid()
      ensures |ellip(r, xs)| == |xs| && |pa(r, xs)| == |xs|
    {
    }
  }

  /** What the fitter reports: the fitted ellipticity and angle at each radius,
      the radii, the error estimates, and the outermost radius (the fit limit). */
  datatype FitResult = FitResult(
    ellip: seq<real>, pa: seq<real>, radii: seq<real>,
    ellipErr: seq<real>, paErr: seq<real>, fitLimit: real)

  /** The profile the search starts from: every radius at the initial guess. */
  function InitialProfile(n: nat, ellip0: real, pa0: real): (p: Profile)
    ensures p.Shaped(n)
    ensures forall k :: 0 <= k < n ==> p.ellip[k] == ellip0 && p.pa[k] == pa0
  {
    Profile(seq(n, _ => ellip0), seq(n, _ => pa0))
  }

  /** The radius search set up from the options: growth rate `ap_scale`
      (default 0.2) and faintness threshold fit limit times noise. */
  function RadiusSetup(v: Variant, opts: Options, psf: real, half: real, level: real -> real, noise: real): Setup
  {
    Setup(psf, OrElse(opts.scale, DefaultScale), half, level, OrElse(opts.fitLimit, DefaultFitLimit(v)) * noise)
  }

  /** Every angle is the initial one or lies in [0, pi). */
  predicate AnglesOk(pa: seq<real>, pa0: real)
  {
    forall k :: 0 <= k < |pa| ==> pa[k] == pa0 || 0.0 <= pa[k] < Pi
  }

  /** `Isophote_Fit_FFT_Robust` / `Isophote_Fit_FFT_mean`. `half` is half the
      larger image side and `level` the flux level of the ring at a radius
      with the initial shape (median for the robust fitter, mean for the mean
      fitter). Fails exactly when none of the five growth rates gives 15 radii;
      otherwise every output has one entry per radius, the ellipticities stay in
      [0, 1), every angle is the initial one or lies in [0, pi), the errors are
      non-negative and the fit limit is the outermost radius. */
  method FitIsophotes(v: Variant, env: FitEnv, draws: Draws, smooth: Smoothers, sqrt: real -> real, opts: Options,
                      psf: real, half: real, level: real -> real, ellip0: real, pa0: real)
    returns (res: Result<FitResult, InitError>)
    requires env.Valid() && draws.Valid() && smooth.Valid() && SqrtLike(sqrt)
    requires 0.0 < psf && 0.0 < OrElse(opts.scale, DefaultScale) && 0.0 <= OrElse(opts.regularize, DefaultRegularize)
    requires 0.0 <= ellip0 < 1.0
    ensures var su := RadiusSetup(v, opts, psf, half, level, env.noise);
      res.Failure? <==> forall s :: 0 <= s < MaxShrink ==> |RadiusSet(su, s)| < MinRadii
    ensures res.Success? ==>
      && |res.value.radii| >= MinRadii
      && (exists s :: 0 <= s < MaxShrink && res.value.radii == RadiusSet(RadiusSetup(v, opts, psf, half, level, env.noise), s))
      && WellFormed(res.value, pa0)
    ensures res.Success? ==> exists s ::
      && 0 <= s < MaxShrink && res.value.radii == RadiusSet(RadiusSetup(v, opts, psf, half, level, env.noise), s)
      && forall s' :: 0 <= s' < s ==> |RadiusSet(RadiusSetup(v, opts, psf, half, level, env.noise), s')| < MinRadii
    ensures res.Success? ==>
      var r := res.value.radii;
      var init := InitialProfile(|r|, ellip0, pa0);
      var weight := OrElse(opts.regularize, DefaultRegularize);
      Finished(res.value, env.fromEps, smooth, sqrt, r,
               Run(env, v, draws, r, State(init, 0), Identity(|r|), 0, weight, init.pa).0.prof)
  {
    var su := RadiusSetup(v, opts, psf, half, level, env.noise);
    var radii := InitRadii(su);
    if radii.Failure? {
      return Failure(radii.error);
    }
    var r := radii.value;
    var init := InitialProfile(|r|, ellip0, pa0);
    var p, count := Fit(env, v, draws, r, init, OrElse(opts.regularize, DefaultRegularize));
    AdmissibleAngles(p, init.pa, pa0);
    var f := Finish(env.fromEps, smooth, sqrt, r, p, pa0);
    res := Success(f);
  }

  lemma AdmissibleAngles(p: Profile, init: seq<real>, pa0: real)
    requires Admissible(p, init)
    requires forall k :: 0 <= k < |init| ==> init[k] == pa0
    ensures AnglesOk(p.pa, pa0)
  {
  }

  /** A fit result with one entry per radius in every array, ellipticities in
      [0, 1), angles as `AnglesOk` allows, non-negative errors, and the
      outermost radius as the fit limit. */
  predicate WellFormed(f: FitResult, pa0: real)
  {
    var n := |f.radii|;
    && n >= 1
    && |f.ellip| == n && |f.pa| == n && |f.ellipErr| == n && |f.paErr| == n
    && EllipOk(f.ellip) && AnglesOk(f.pa, pa0)
    && (forall k :: 0 <= k < n ==> 0.0 <= f.ellipErr[k] && 0.0 <= f.paErr[k])
    && f.fitLimit == f.radii[n - 1]
  }

  /** The steps after the search: flatten a collapsed centre, smooth the
      flattened profile, clamp the inner ellipticities, and compare the clamped
      profile with the smooth one for the errors. */
  method Finish(fromEps: real -> real, smooth: Smoothers, sqrt: real -> real, r: seq<real>, p: Profile, pa0: real)
    returns (f: FitResult)
    requires smooth.Valid() && SqrtLike(sqrt)
    requires |r| > CollapseChecks && p.Shaped(|r|) && EllipOk(p.ellip) && AnglesOk(p.pa, pa0)
    ensures WellFormed(f, pa0) && f.radii == r
    ensures Finished(f, fromEps, smooth, sqrt, r, p)
  {
    var n := |r|;
    var q := CollapseCentre(fromEps, p);
    CollapseKeeps(p, q, pa0);
    var smoothEllip := smooth.ellip(r, q.ellip);
    var smoothPa := smooth.pa(r, q.pa);
    smooth.Lengths(r, q.ellip);
    smooth.Lengths(r, q.pa);
    var ellip := ClampInner(q.ellip);
    ClampInnerIdempotent(q.ellip);
    var ellipErr := Errors(ellip, smoothEllip, sqrt);
    var paErr := Errors(q.pa, smoothPa, sqrt);
    f := FitResult(ellip, q.pa, r, ellipErr, paErr, r[n - 1]);
  }

  /** `f` is what the steps after the search make of the profile `p` found at
      radii `r`: the clamped ellipticities and the angles of the collapsed
      profile, errors of each against the smoothed collapsed profile (the
      ellipticity smoothed before the clamp), and the outermost radius. */
  ghost predicate Finished(f: FitResult, fromEps: real -> real, smooth: Smoothers, sqrt: real -> real, r: seq<real>, p: Profile)
  {
    && smooth.Valid() && SqrtLike(sqrt)
    && |r| > CollapseChecks && p.Shaped(|r|)
    && var c := Collapse(fromEps, p);
       && f.radii == r && f.fitLimit == r[|r| - 1]
       && f.ellip == ClampInner(c.ellip) && f.pa == c.pa
       && f.ellipErr == Errors(f.ellip, smooth.ellip(r, c.ellip), sqrt)
       && f.paErr == Errors(c.pa, smooth.pa(r, c.pa), sqrt)
  }

  /** Flattening only copies values between radii, so it keeps ellipticities
      in [0, 1) and angles as `AnglesOk` allows. */
  lemma CollapseKeeps(p: Profile, q: Profile, pa0: real)
    requires p.Shaped(|p.ellip|) && q.Shaped(|p.ellip|) && |p.ellip| > CollapseChecks
    requires EllipOk(p.ellip) && AnglesOk(p.pa, pa0)
    requires forall k :: CollapseChecks <= k < |p.ellip| ==> q.ellip[k] == p.ellip[k] && q.pa[k] == p.pa[k]
    requires CopiedInward(p, q)
    ensures EllipOk(q.ellip) && AnglesOk(q.pa, pa0)
  {
    forall j | 0 <= j < CollapseChecks
      ensures 0.0 <= q.ellip[j] < 1.0 && (q.pa[j] == pa0 || 0.0 <= q.pa[j] < Pi)
    {
      assert FromOutward(p, q, j);
      var k :| j <= k <= CollapseChecks && q.ellip[j] == p.ellip[k] && q.pa[j] == p.pa[k];
    }
  }
}
