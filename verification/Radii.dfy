/** Choice of the semi-major axes at which the isophote fitter works: radii grow
    geometrically from one and a half PSF widths until the ring gets too faint
    or leaves the image, and the growth rate is relaxed up to five times when
    that gives too few radii. */
module Radii {
  import opened Common

  /** Default of `ap_scale`, the geometric growth rate. */
  const DefaultScale: real := 0.2
  /** Fewest radii a usable radius set has. */
  const MinRadii: nat := 15
  /** Number of growth rates tried before giving up. */
  const MaxShrink: nat := 5

  datatype InitError = PossibleMissedCentre

  /** What the radius search sees of the image: the PSF width, the growth rate,
      half the larger image side, the central flux of the ring at a radius
      (median or mean of the samples on the ellipse with the initial shape), and
      the flux below which a ring counts as faint (fit limit times noise). */
  datatype Setup = Setup(psf: real, scale: real, half: real, level: real -> real, threshold: real)
  {
    predicate Faint(r: real)
    {
      level(r) < threshold
    }
  }

  function StartRadius(psf: real): real
  {
    3.0 * psf / 2.0
  }

  /** Ratio between neighbouring radii on attempt `shrink`. */
  function Growth(scale: real, shrink: nat): (q: real)
    requires 0.0 < scale
    ensures 1.0 < q <= 1.0 + scale
  {
    var d := 1.0 + shrink as real;
    assert scale / d <= scale by { DivAtLeastOne(scale, d); }
    1.0 + scale / d
  }

  lemma DivAtLeastOne(x: real, d: real)
    requires 0.0 < x && 1.0 <= d
    ensures 0.0 < x / d <= x
  {
  }

  /** A bound on the number of radii still to come when each step adds at least `d`. */
  function StepsLeft(r: real, d: real, half: real): nat
    requires 0.0 < d
  {
    if r < half then ((half - r) / d).Floor + 1 else 0
  }

  /** From `lo` on, one growth step adds at least `d`. */
  ghost predicate GrowsBy(grow: real -> real, lo: real, d: real)
  {
    forall x :: lo <= x ==> x + d <= grow(x)
  }

  lemma StepShrinks(r: real, next: real, d: real, half: real)
    requires 0.0 < d && r < half && r + d <= next
    ensures StepsLeft(next, d, half) < StepsLeft(r, d, half)
  {
    if next < half {
      DivMono(half - next, (half - r) - d, d);
      DivShift(half - r, d);
    }
  }

  lemma DivShift(y: real, d: real)
    requires 0.0 < d
    ensures (y - d) / d == y / d - 1.0
  {
    assert (y - d) / d == y / d - d / d;
    assert d / d == 1.0;
  }

  lemma DivMono(x: real, y: real, d: real)
    requires x <= y && 0.0 < d
    ensures x / d <= y / d
  {
  }

  /** One growth step: multiply the radius by `q`. */
  function Times(q: real): real -> real
  {
    x => x * q
  }

  /** The least amount one growth step adds to a radius of at least `r0`. */
  function MinStep(r0: real, q: real): real
  {
    r0 * (q - 1.0)
  }

  /** Multiplying by `q > 1` adds at least `r0 * (q - 1)` to every radius from `r0` on. */
  lemma ScaleGrows(r0: real, q: real)
    requires 0.0 < r0 && 1.0 < q
    ensures 0.0 < MinStep(r0, q)
    ensures GrowsBy(Times(q), r0, MinStep(r0, q))
  {
    ScaleMono(0.0, r0, q - 1.0);
    assert 0.0 * (q - 1.0) == 0.0;
    forall x | r0 <= x
      ensures x + r0 * (q - 1.0) <= Times(q)(x)
    {
      ScaleMono(r0, x, q - 1.0);
      assert x * (q - 1.0) == x * q - x;
    }
  }

  lemma ScaleMono(x: real, y: real, c: real)
    requires x <= y && 0.0 < c
    ensures x * c <= y * c
  {
  }

  /** Each radius is the growth of the one before. */
  ghost predicate Geometric(rs: seq<real>, grow: real -> real)
  {
    forall j, k :: 0 <= j && k == j + 1 && k < |rs| ==> rs[k] == grow(rs[j])
  }

  /** Each radius is smaller than the next. */
  ghost predicate StepsUp(rs: seq<real>)
  {
    forall j, k :: 0 <= j && k == j + 1 && k < |rs| ==> rs[j] < rs[k]
  }

  /** Every radius but the last is inside the image and bright enough. */
  ghost predicate KeptGrowing(su: Setup, rs: seq<real>)
  {
    forall k :: 0 <= k < |rs| - 1 ==> rs[k] < su.half && !su.Faint(rs[k])
  }

  /** The growth stopped at the last radius: it left the image or the ring was faint. */
  ghost predicate Stopped(su: Setup, rs: seq<real>)
  {
    |rs| >= 1 && (rs[|rs| - 1] >= su.half || su.Faint(rs[|rs| - 1]))
  }

  /** The radii the inner loop produces from `r` on. */
  function RadiiFrom(su: Setup, r: real, grow: real -> real, d: real): (rs: seq<real>)
    requires 0.0 < d && GrowsBy(grow, r, d)
    ensures |rs| >= 1 && rs[0] == r
    decreases StepsLeft(r, d, su.half)
  {
    if r < su.half && !su.Faint(r) then
      StepShrinks(r, grow(r), d, su.half);
      [r] + RadiiFrom(su, grow(r), grow, d)
    else
      [r]
  }

  /** `RadiiFrom` grows each radius into the next, keeps growing only while
      inside the image and bright enough, stops at the first radius that is
      not, and is strictly increasing. */
  lemma {:induction false} RadiiFromShape(su: Setup, r: real, grow: real -> real, d: real)
    requires 0.0 < d && GrowsBy(grow, r, d)
    ensures var rs := RadiiFrom(su, r, grow, d);
      Geometric(rs, grow) && StepsUp(rs) && KeptGrowing(su, rs) && Stopped(su, rs)
    decreases StepsLeft(r, d, su.half)
  {
    var rs := RadiiFrom(su, r, grow, d);
    if r < su.half && !su.Faint(r) {
      StepShrinks(r, grow(r), d, su.half);
      var tail := RadiiFrom(su, grow(r), grow, d);
      RadiiFromShape(su, grow(r), grow, d);
      assert rs == [r] + tail;
      forall j, k | 0 <= j && k == j + 1 && k < |rs|
        ensures rs[k] == grow(rs[j]) && rs[j] < rs[k]
      {
        if j > 0 {
          assert rs[j] == tail[j - 1] && rs[k] == tail[k - 1];
        }
      }
      forall k | 0 <= k < |rs| - 1
        ensures rs[k] < su.half && !su.Faint(rs[k])
      {
        if k > 0 {
          assert rs[k] == tail[k - 1];
        }
      }
      assert rs[|rs| - 1] == tail[|tail| - 1];
    }
  }

  /** A sequence with the shape that `RadiiFromShape` describes is the one
      `RadiiFrom` computes. */
  lemma {:induction false} RadiiFromUnique(su: Setup, rs: seq<real>, grow: real -> real, d: real)
    requires |rs| >= 1 && 0.0 < d && GrowsBy(grow, rs[0], d)
    requires Geometric(rs, grow) && KeptGrowing(su, rs) && Stopped(su, rs)
    ensures rs == RadiiFrom(su, rs[0], grow, d)
    decreases |rs|
  {
    if |rs| > 1 {
      var r := rs[0];
      var tail := rs[1..];
      assert rs[1] == grow(r);
      StepShrinks(r, grow(r), d, su.half);
      assert Geometric(tail, grow) by {
        forall j, k | 0 <= j && k == j + 1 && k < |tail|
          ensures tail[k] == grow(tail[j])
        {
          assert tail[k] == rs[k + 1] && tail[j] == rs[j + 1];
        }
      }
      assert KeptGrowing(su, tail) by {
        forall k | 0 <= k < |tail| - 1
          ensures tail[k] < su.half && !su.Faint(tail[k])
        {
          assert tail[k] == rs[k + 1];
        }
      }
      RadiiFromUnique(su, tail, grow, d);
      assert rs == [r] + tail;
    }
  }

  /** The radius set of attempt `shrink`. */
  function RadiusSet(su: Setup, shrink: nat): seq<real>
    requires 0.0 < su.psf && 0.0 < su.scale
  {
    var r0 := StartRadius(su.psf);
    var q := Growth(su.scale, shrink);
    ScaleGrows(r0, q);
    RadiiFrom(su, r0, Times(q), MinStep(r0, q))
  }

  /** A radius set starts at 3/2 PSF widths, each radius is `Growth(scale,
      shrink)` times the one before, every one but the last is inside the image
      and bright enough, the last is not, and the set is strictly increasing. */
  lemma RadiusSetShape(su: Setup, shrink: nat)
    requires 0.0 < su.psf && 0.0 < su.scale
    ensures var rs := RadiusSet(su, shrink);
      && rs[0] == 3.0 * su.psf / 2.0
      && (forall k :: 0 <= k < |rs| - 1 ==> rs[k + 1] == rs[k] * Growth(su.scale, shrink))
      && (forall k :: 0 <= k < |rs| - 1 ==> rs[k] < su.half && su.level(rs[k]) >= su.threshold)
      && (rs[|rs| - 1] >= su.half || su.level(rs[|rs| - 1]) < su.threshold)
      && (forall j, k :: 0 <= j < k < |rs| ==> rs[j] < rs[k])
  {
    var rs := RadiusSet(su, shrink);
    var q := Growth(su.scale, shrink);
    RadiusSetUnfold(su, shrink);
    forall k | 0 <= k < |rs| - 1
      ensures rs[k + 1] == rs[k] * q
    {
      assert rs[k + 1] == Times(q)(rs[k]);
    }
    forall j, k | 0 <= j < k < |rs|
      ensures rs[j] < rs[k]
    {
      IncreasingStep(rs, j, k);
    }
  }

  lemma RadiusSetUnfold(su: Setup, shrink: nat)
    requires 0.0 < su.psf && 0.0 < su.scale
    ensures var rs := RadiusSet(su, shrink);
      var q := Growth(su.scale, shrink);
      && rs[0] == StartRadius(su.psf)
      && Geometric(rs, Times(q)) && StepsUp(rs) && KeptGrowing(su, rs) && Stopped(su, rs)
  {
    var r0 := StartRadius(su.psf);
    var q := Growth(su.scale, shrink);
    ScaleGrows(r0, q);
    RadiiFromShape(su, r0, Times(q), MinStep(r0, q));
  }

  lemma {:induction false} IncreasingStep(rs: seq<real>, j: nat, k: nat)
    requires StepsUp(rs)
    requires j < k < |rs|
    ensures rs[j] < rs[k]
    decreases k - j
  {
    assert rs[j] < rs[j + 1];
    if k > j + 1 {
      IncreasingStep(rs, j + 1, k);
    }
  }

  /** The inner loop of the radius search as written: start at 3/2 PSF, stop at
      the image edge or at the first faint ring, otherwise append the next
      radius. It computes `RadiusSet`. */
  method SampleRadii(su: Setup, shrink: nat) returns (rs: seq<real>)
    requires 0.0 < su.psf && 0.0 < su.scale
    ensures rs == RadiusSet(su, shrink)
  {
    var r0 := StartRadius(su.psf);
    var q := Growth(su.scale, shrink);
    ScaleGrows(r0, q);
    rs := GrowRadii(su, r0, Times(q), MinStep(r0, q));
    assert RadiusSet(su, shrink) == RadiiFrom(su, r0, Times(q), MinStep(r0, q));
  }

  method GrowRadii(su: Setup, r0: real, grow: real -> real, d: real) returns (rs: seq<real>)
    requires 0.0 < d && GrowsBy(grow, r0, d)
    ensures rs == RadiiFrom(su, r0, grow, d)
  {
    rs := [r0];
    while rs[|rs| - 1] < su.half
      invariant |rs| >= 1 && rs[0] == r0 && r0 <= rs[|rs| - 1]
      invariant Geometric(rs, grow) && KeptGrowing(su, rs)
      decreases StepsLeft(rs[|rs| - 1], d, su.half)
    {
      var last := rs[|rs| - 1];
      if su.Faint(last) {
        break;
      }
      StepShrinks(last, grow(last), d, su.half);
      rs := rs + [grow(last)];
    }
    RadiiFromUnique(su, rs, grow, d);
  }

  /** The outer retry loop: the first attempt whose radius set has at least 15
      radii is used; if all five attempts fall short the fit cannot start. */
  method InitRadii(su: Setup) returns (res: Result<seq<real>, InitError>)
    requires 0.0 < su.psf && 0.0 < su.scale
    ensures res.Success? ==> |res.value| >= MinRadii
    ensures res.Success? ==> exists s ::
      && 0 <= s < MaxShrink && res.value == RadiusSet(su, s)
      && forall s' :: 0 <= s' < s ==> |RadiusSet(su, s')| < MinRadii
    ensures res.Failure? <==> forall s :: 0 <= s < MaxShrink ==> |RadiusSet(su, s)| < MinRadii
  {
    var shrink: nat := 0;
    var radii := [];
    while shrink < MaxShrink
      invariant shrink <= MaxShrink
      invariant forall s :: 0 <= s < shrink ==> |RadiusSet(su, s)| < MinRadii
    {
      radii := SampleRadii(su, shrink);
      if |radii| < MinRadii {
        shrink := shrink + 1;
      } else {
        break;
      }
    }
    if shrink >= MaxShrink {
      return Failure(PossibleMissedCentre);
    }
    assert radii == RadiusSet(su, shrink);
    return Success(radii);
  }
}
