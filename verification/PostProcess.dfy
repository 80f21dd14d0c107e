/** What the isophote fitter does to the fitted profile after the search: it
    flattens a collapsed centre, clamps the innermost ellipticities, and
    estimates errors from the scatter about a smoothed profile in a window of
    four radii. */
module PostProcess {
  import opened Common
  import opened Loss
  import opened Search

  /** Number of innermost radii checked for a collapsed centre. */
  const CollapseChecks: nat := 5
  /** A drop of the transformed ellipticity larger than this marks a collapse. */
  const CollapseDrop: real := 0.5
  /** Number of innermost ellipticities clamped to their minimum. */
  const ClampCount: nat := 3
  /** Width of the window the errors are computed over. */
  const WindowWidth: nat := 4

  /** The transformed ellipticity falls by more than 0.5 from radius `i` to `i + 1`. */
  predicate Drop(fromEps: real -> real, e: seq<real>, i: nat)
    requires i + 1 < |e|
  {
    fromEps(e[i]) - fromEps(e[i + 1]) > CollapseDrop
  }

  /** Radius `j` of `q` holds the ellipticity and angle pair that `p` has at
      some radius from `j` to 5. */
  ghost predicate FromOutward(p: Profile, q: Profile, j: nat)
    requires p.Shaped(|p.ellip|) && q.Shaped(|p.ellip|) && CollapseChecks < |p.ellip|
  {
    exists k :: j <= k <= CollapseChecks && q.ellip[j] == p.ellip[k] && q.pa[j] == p.pa[k]
  }

  /** Each of the first five radii of `q` comes from `p` at or beyond it. */
  ghost predicate CopiedInward(p: Profile, q: Profile)
    requires p.Shaped(|p.ellip|) && q.Shaped(|p.ellip|) && CollapseChecks < |p.ellip|
  {
    forall j :: 0 <= j < CollapseChecks ==> FromOutward(p, q, j)
  }

  /** The collapsed-centre pass: for `i` from 0 to 4, if the ellipticity drops
      sharply after radius `i`, radii 0..i take the ellipticity and angle of
      radius `i + 1`. Afterwards none of the first five drops is sharp, radii
      from 5 on are untouched, and every radius holds the ellipticity and angle
      pair of some radius at or beyond it, no further out than radius 5. */
  method CollapseCentre(fromEps: real -> real, p: Profile) returns (q: Profile)
    requires p.Shaped(|p.ellip|) && |p.ellip| > CollapseChecks
    ensures q.Shaped(|p.ellip|)
    ensures forall i :: 0 <= i < CollapseChecks ==> !Drop(fromEps, q.ellip, i)
    ensures forall k :: CollapseChecks <= k < |p.ellip| ==> q.ellip[k] == p.ellip[k] && q.pa[k] == p.pa[k]
    ensures CopiedInward(p, q)
    ensures q == Collapse(fromEps, p)
  {
    SeedMidway(fromEps, p);
    var e := p.ellip;
    var a := p.pa;
    ghost var src: seq<nat> := seq(|p.ellip|, k => k);
    var i := 0;
    while i < CollapseChecks
      invariant Midway(fromEps, p, e, a, src, i)
    {
      e, a, src := CollapseStep(fromEps, p, e, a, src, i);
      i := i + 1;
    }
    q := Profile(e, a);
    MidwayDone(fromEps, p, q, src);
  }

  /** The collapsed-centre pass before step `i`: the sources are tracked, the
      first `i` drops are no longer sharp, and the remaining steps lead to the
      same result as the whole pass. */
  ghost predicate Midway(fromEps: real -> real, p: Profile, e: seq<real>, a: seq<real>, src: seq<nat>, i: nat)
    requires p.Shaped(|p.ellip|) && |p.ellip| > CollapseChecks
  {
    && i <= CollapseChecks
    && Tracks(p, e, a, src, i)
    && (forall m :: 0 <= m < i ==> !Drop(fromEps, e, m))
    && CollapseFrom(fromEps, Profile(e, a), i) == Collapse(fromEps, p)
  }

  /** The pass starts with every radius its own source. */
  lemma SeedMidway(fromEps: real -> real, p: Profile)
    requires p.Shaped(|p.ellip|) && |p.ellip| > CollapseChecks
    ensures Midway(fromEps, p, p.ellip, p.pa, seq(|p.ellip|, k => k), 0)
  {
  }

  /** After the last step the pass has produced its result. */
  lemma MidwayDone(fromEps: real -> real, p: Profile, q: Profile, src: seq<nat>)
    requires p.Shaped(|p.ellip|) && |p.ellip| > CollapseChecks
    requires Midway(fromEps, p, q.ellip, q.pa, src, CollapseChecks)
    ensures q.Shaped(|p.ellip|)
    ensures forall i :: 0 <= i < CollapseChecks ==> !Drop(fromEps, q.ellip, i)
    ensures forall k :: CollapseChecks <= k < |p.ellip| ==> q.ellip[k] == p.ellip[k] && q.pa[k] == p.pa[k]
    ensures CopiedInward(p, q)
    ensures q == Collapse(fromEps, p)
  {
    SourcesCopied(p, q, src);
  }

  /** Step `i` of the collapsed-centre pass. */
  method CollapseStep(fromEps: real -> real, p: Profile, e: seq<real>, a: seq<real>, ghost src: seq<nat>, i: nat)
    returns (e': seq<real>, a': seq<real>, ghost src': seq<nat>)
    requires p.Shaped(|p.ellip|) && |p.ellip| > CollapseChecks
    requires Midway(fromEps, p, e, a, src, i) && i < CollapseChecks
    ensures Midway(fromEps, p, e', a', src', i + 1)
  {
    e', a', src' := e, a, src;
    if Drop(fromEps, e, i) {
      FlattenTracks(p, e, a, src, i);
      FlattenLevels(fromEps, e, i);
      e', a', src' := Flatten(e, i), Flatten(a, i), Flatten(src, i);
    }
  }

  /** The collapsed-centre pass as a fold: steps `i` to 4 applied to `p`,
      each flattening ellipticity and angle alike when its drop is sharp. */
  function CollapseFrom(fromEps: real -> real, p: Profile, i: nat): (q: Profile)
    requires p.Shaped(|p.ellip|) && |p.ellip| > CollapseChecks
    ensures q.Shaped(|p.ellip|)
    decreases CollapseChecks - i
  {
    if i >= CollapseChecks then p
    else if Drop(fromEps, p.ellip, i) then CollapseFrom(fromEps, Profile(Flatten(p.ellip, i), Flatten(p.pa, i)), i + 1)
    else CollapseFrom(fromEps, p, i + 1)
  }

  /** The whole collapsed-centre pass, steps 0 to 4. */
  function Collapse(fromEps: real -> real, p: Profile): (q: Profile)
    requires p.Shaped(|p.ellip|) && |p.ellip| > CollapseChecks
    ensures q.Shaped(|p.ellip|)
  {
    CollapseFrom(fromEps, p, 0)
  }

  /** A profile with no sharp drop among its first five radii is left as it is. */
  lemma {:induction false} SteadyFrom(fromEps: real -> real, p: Profile, i: nat)
    requires p.Shaped(|p.ellip|) && |p.ellip| > CollapseChecks
    requires forall m :: i <= m < CollapseChecks ==> !Drop(fromEps, p.ellip, m)
    ensures CollapseFrom(fromEps, p, i) == p
    decreases CollapseChecks - i
  {
    if i < CollapseChecks {
      SteadyFrom(fromEps, p, i + 1);
    }
  }

  /** Whatever the profile, the pass leaves no sharp drop among the first
      five radii. */
  lemma {:induction false} SettlesFrom(fromEps: real -> real, p: Profile, i: nat)
    requires p.Shaped(|p.ellip|) && |p.ellip| > CollapseChecks
    requires forall m :: 0 <= m < i && m < CollapseChecks ==> !Drop(fromEps, p.ellip, m)
    ensures forall m :: 0 <= m < CollapseChecks ==> !Drop(fromEps, CollapseFrom(fromEps, p, i).ellip, m)
    decreases CollapseChecks - i
  {
    if i < CollapseChecks {
      if Drop(fromEps, p.ellip, i) {
        FlattenLevels(fromEps, p.ellip, i);
        SettlesFrom(fromEps, Profile(Flatten(p.ellip, i), Flatten(p.pa, i)), i + 1);
      } else {
        SettlesFrom(fromEps, p, i + 1);
      }
    }
  }

  /** The pass changes a profile exactly when one of its first five drops is
      sharp, and applying it twice is applying it once. */
  lemma CollapseSteady(fromEps: real -> real, p: Profile)
    requires p.Shaped(|p.ellip|) && |p.ellip| > CollapseChecks
    ensures Collapse(fromEps, p) == p <==> forall m :: 0 <= m < CollapseChecks ==> !Drop(fromEps, p.ellip, m)
    ensures Collapse(fromEps, Collapse(fromEps, p)) == Collapse(fromEps, p)
  {
    var q := Collapse(fromEps, p);
    SettlesFrom(fromEps, p, 0);
    if forall m :: 0 <= m < CollapseChecks ==> !Drop(fromEps, p.ellip, m) {
      SteadyFrom(fromEps, p, 0);
    }
    SteadyFrom(fromEps, q, 0);
  }

  /** The state of the collapsed-centre pass before step `i`: radius `k`
      holds what `p` holds at source radius `src[k]`, which is at or beyond
      `k`, and is either `k` itself or no further out than radius `i`; from
      `i + 1` on nothing has moved. */
  ghost predicate Tracks(p: Profile, e: seq<real>, a: seq<real>, src: seq<nat>, i: nat)
    requires p.Shaped(|p.ellip|)
  {
    var n := |p.ellip|;
    && |e| == n && |a| == n && |src| == n
    && (forall k :: 0 <= k < n ==> k <= src[k] < n && (src[k] <= i || src[k] == k))
    && (forall k :: 0 <= k < n ==> e[k] == p.ellip[src[k]] && a[k] == p.pa[src[k]])
    && (forall k :: i < k < n ==> src[k] == k)
  }

  /** Flattening at step `i` keeps the sources consistent for step `i + 1`. */
  lemma FlattenTracks(p: Profile, e: seq<real>, a: seq<real>, src: seq<nat>, i: nat)
    requires p.Shaped(|p.ellip|) && i + 1 < |p.ellip|
    requires Tracks(p, e, a, src, i)
    ensures Tracks(p, Flatten(e, i), Flatten(a, i), Flatten(src, i), i + 1)
  {
    assert src[i + 1] == i + 1;
  }

  /** After flattening at step `i`, radii 0 to `i + 1` all hold the same
      ellipticity, so none of the first `i + 1` drops is sharp. */
  lemma FlattenLevels(fromEps: real -> real, e: seq<real>, i: nat)
    requires i + 1 < |e|
    ensures forall m :: 0 <= m <= i ==> !Drop(fromEps, Flatten(e, i), m)
  {
  }

  /** When every radius of `q` holds what `p` holds at its source radius,
      and the first five sources lie between the radius and radius 5, the
      first five radii are copied inward. */
  lemma SourcesCopied(p: Profile, q: Profile, src: seq<nat>)
    requires p.Shaped(|p.ellip|) && q.Shaped(|p.ellip|) && CollapseChecks < |p.ellip|
    requires Tracks(p, q.ellip, q.pa, src, CollapseChecks)
    ensures CopiedInward(p, q)
  {
    forall j | 0 <= j < CollapseChecks
      ensures FromOutward(p, q, j)
    {
      assert j <= src[j] <= CollapseChecks;
    }
  }

  /** Radii 0 to `i` take the value at radius `i + 1`; the rest keep theirs. */
  function Flatten<T>(xs: seq<T>, i: nat): (ys: seq<T>)
    requires i + 1 < |xs|
    ensures |ys| == |xs|
    ensures forall k :: 0 <= k <= i ==> ys[k] == xs[i + 1]
    ensures forall k :: i < k < |xs| ==> ys[k] == xs[k]
  {
    seq(|xs|, k requires 0 <= k < |xs| => if k <= i then xs[i + 1] else xs[k])
  }

  /** `ellip[:3] = min(ellip[:3])`: the first three ellipticities (all of them
      if there are fewer) become their minimum; the rest are untouched. */
  function ClampInner(e: seq<real>): (c: seq<real>)
    requires |e| >= 1
    ensures |c| == |e|
    ensures var m := c[0];
      && (forall k :: 0 <= k < |e| && k < ClampCount ==> c[k] == m && m <= e[k])
      && (exists k :: 0 <= k < |e| && k < ClampCount && m == e[k])
    ensures forall k :: ClampCount <= k < |e| ==> c[k] == e[k]
  {
    var m := MinPrefix(e, if |e| < ClampCount then |e| else ClampCount);
    seq(|e|, k requires 0 <= k < |e| => if k < ClampCount then m else e[k])
  }

  /** The least of the first `len` entries. */
  function MinPrefix(e: seq<real>, len: nat): (m: real)
    requires 1 <= len <= |e|
    ensures forall k :: 0 <= k < len ==> m <= e[k]
    ensures exists k :: 0 <= k < len && m == e[k]
  {
    if len == 1 then e[0]
    else
      var m := MinPrefix(e, len - 1);
      if e[len - 1] < m then e[len - 1] else m
  }

  /** Clamping twice is clamping once, and clamping keeps ellipticities in [0, 1). */
  lemma ClampInnerIdempotent(e: seq<real>)
    requires |e| >= 1
    ensures ClampInner(ClampInner(e)) == ClampInner(e)
    ensures EllipOk(e) ==> EllipOk(ClampInner(e))
  {
    var c := ClampInner(e);
    var cc := ClampInner(c);
    var k :| 0 <= k < |c| && k < ClampCount && cc[0] == c[k];
    assert cc[0] == c[0];
    if EllipOk(e) {
      var j :| 0 <= j < |e| && j < ClampCount && c[0] == e[j];
      assert 0.0 <= e[j] < 1.0;
    }
  }

  /** The window of radii that the error at radius `i` of `n` is computed on:
      radii 0 and 1 use the first four, the last radius the last four, and every
      other radius the two below it, itself and the one above. A profile of
      fewer than four radii uses all of them everywhere. */
  function ErrorWindow(i: nat, n: nat): (w: (nat, nat))
    requires i < n
    ensures w.0 <= i < w.1 <= n
    ensures n >= WindowWidth ==> w.1 - w.0 == WindowWidth
    ensures i < 2 && WindowWidth <= n ==> w == (0, WindowWidth)
    ensures i + 1 == n && WindowWidth <= n ==> w == (n - WindowWidth, n)
    ensures 2 <= i && i + 2 <= n ==> w == (i - 2, i + 2)
    ensures n < WindowWidth ==> w == (0, n)
  {
    if 2 <= i && i + 2 <= n then (i - 2, i + 2)
    else if i == n - 1 then (if n < WindowWidth then 0 else n - WindowWidth, n)
    else (0, if n < WindowWidth then n else WindowWidth)
  }

  /** On a profile of at least four radii, every interior radius from 2 on is
      the third radius of its window, and the window slides by one from radius
      to radius there. */
  lemma ErrorWindowSlides(i: nat, n: nat)
    requires WindowWidth <= n && 2 <= i && i + 2 <= n
    ensures ErrorWindow(i, n).0 + 2 == i
    ensures i + 3 <= n ==> ErrorWindow(i + 1, n).0 == ErrorWindow(i, n).0 + 1
  {
  }

  /** Sum of squared differences. */
  function SumSq(x: seq<real>, s: seq<real>): (t: real)
    requires |x| == |s|
    ensures 0.0 <= t
    decreases |x|
  {
    if |x| == 0 then 0.0
    else
      Square(x[0] - s[0]) + SumSq(x[1..], s[1..])
  }

  function Square(d: real): (q: real)
    ensures 0.0 <= q
  {
    d * d
  }

  /** A profile that matches its smoothed version over a window has a zero
      sum of squared differences there. */
  lemma {:induction false} SumSqSame(x: seq<real>)
    ensures SumSq(x, x) == 0.0
    decreases |x|
  {
    if |x| > 0 {
      SumSqSame(x[1..]);
      assert Square(x[0] - x[0]) == 0.0;
    }
  }

  /** A zero sum of squared differences means the sequences are equal. */
  lemma {:induction false} SumSqZero(x: seq<real>, s: seq<real>)
    requires |x| == |s| && SumSq(x, s) == 0.0
    ensures x == s
    decreases |x|
  {
    if |x| > 0 {
      var d := x[0] - s[0];
      assert SumSq(x, s) == Square(d) + SumSq(x[1..], s[1..]);
      assert 0.0 <= SumSq(x[1..], s[1..]);
      assert Square(d) == 0.0;
      SquarePositive(d);
      assert x[0] == s[0];
      SumSqZero(x[1..], s[1..]);
      assert x == [x[0]] + x[1..] && s == [s[0]] + s[1..];
    }
  }

  /** The square of a non-zero difference is positive. */
  lemma SquarePositive(d: real)
    ensures d != 0.0 ==> Square(d) > 0.0
  {
    if d < 0.0 {
      PositiveProductOf(-d, -d, Square(d));
    } else if d > 0.0 {
      PositiveProductOf(d, d, Square(d));
    }
  }

  lemma PositiveProductOf(a: real, b: real, p: real)
    requires 0.0 < a && 0.0 < b && p == a * b
    ensures 0.0 < p
  {
  }

  /** The sum of squared differences vanishes exactly on equal sequences. */
  lemma SumSqZeroIff(x: seq<real>, s: seq<real>)
    requires |x| == |s|
    ensures SumSq(x, s) == 0.0 <==> x == s
  {
    if SumSq(x, s) == 0.0 {
      SumSqZero(x, s);
    }
    if x == s {
      SumSqSame(x);
    }
  }

  /** The error at every radius: the square root of the summed squared
      deviation from the smoothed profile over the radius's window, divided by
      four. Each error is non-negative, and zero exactly where the profile
      matches the smooth one throughout the window. */
  function Errors(x: seq<real>, s: seq<real>, sqrt: real -> real): (err: seq<real>)
    requires |x| == |s| && SqrtLike(sqrt)
    ensures |err| == |x|
    ensures forall i :: 0 <= i < |x| ==>
      var w := ErrorWindow(i, |x|);
      err[i] == sqrt(SumSq(x[w.0..w.1], s[w.0..w.1]) / 4.0)
    ensures forall i :: 0 <= i < |x| ==> 0.0 <= err[i]
    ensures forall i :: 0 <= i < |x| ==>
      var w := ErrorWindow(i, |x|);
      err[i] == 0.0 <==> x[w.0..w.1] == s[w.0..w.1]
  {
    seq(|x|, i requires 0 <= i < |x| => WindowError(x, s, i, sqrt))
  }

  /** The error at radius `i`: non-negative, and zero exactly when the
      profile matches the smooth one throughout the window. */
  function WindowError(x: seq<real>, s: seq<real>, i: nat, sqrt: real -> real): (e: real)
    requires |x| == |s| && i < |x| && SqrtLike(sqrt)
    ensures 0.0 <= e
    ensures var w := ErrorWindow(i, |x|);
      e == 0.0 <==> x[w.0..w.1] == s[w.0..w.1]
  {
    var w := ErrorWindow(i, |x|);
    SumSqZeroIff(x[w.0..w.1], s[w.0..w.1]);
    sqrt(SumSq(x[w.0..w.1], s[w.0..w.1]) / 4.0)
  }

  /** A profile that matches its smoothed version everywhere has zero errors. */
  lemma PerfectFitNoError(x: seq<real>, sqrt: real -> real)
    requires SqrtLike(sqrt)
    ensures forall i :: 0 <= i < |x| ==> Errors(x, x, sqrt)[i] == 0.0
  {
  }

  /** The recombination of the smoothed position angle from smoothed sine and
      cosine of twice the angle: the arctangent of their ratio, shifted by pi
      when the cosine is negative, taken modulo 2 pi and halved. */
  function RecombinePa(atanRatio: real, cos2: real): (pa: real)
    ensures 0.0 <= pa < Pi
  {
    var x := FMod(atanRatio + (if cos2 < 0.0 then Pi else 0.0), 2.0 * Pi);
    x / 2.0
  }

  /** With the arctangent in (-pi/2, pi/2), a negative cosine puts twice the
      angle in the left half plane, a non-negative cosine with a non-negative
      arctangent leaves it as it is, and a non-negative cosine with a negative
      arctangent turns it by a full circle. */
  lemma RecombinePaBranches(atanRatio: real, cos2: real)
    requires -Pi / 2.0 < atanRatio < Pi / 2.0
    ensures cos2 < 0.0 ==> RecombinePa(atanRatio, cos2) == (atanRatio + Pi) / 2.0
    ensures 0.0 <= cos2 && 0.0 <= atanRatio ==> RecombinePa(atanRatio, cos2) == atanRatio / 2.0
    ensures 0.0 <= cos2 && atanRatio < 0.0 ==> RecombinePa(atanRatio, cos2) == (atanRatio + 2.0 * Pi) / 2.0
  {
    if 0.0 <= cos2 && atanRatio < 0.0 {
      FModShift(atanRatio, 2.0 * Pi);
    }
  }
}
