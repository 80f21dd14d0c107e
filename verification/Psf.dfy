/** The PSF estimate from star finding: a user value wins outright; otherwise
    stars are found in the central half of the image starting from a guess,
    and when more than ten are found the PSF is the median FWHM of the least
    deformed stars, with the deformity cut raised in steps of 0.1 until it
    keeps at least ten stars and at least two thirds of them. */
module Psf {
  import opened Common

  /** More stars than this are needed to measure the PSF; at least this many are kept. */
  const MinStars: nat := 10
  /** The deformity cut starts at, and grows by, one tenth. */
  const ClipStep: real := 0.1

  /** A star found in the image: its FWHM and how far its shape is from round. */
  datatype Star = Star(fwhm: real, deformity: real)

  /** The options read: `ap_set_psf`, `ap_guess_psf` and `ap_pixscale`. */
  datatype PsfOptions = PsfOptions(setPsf: Option<real>, guessPsf: Option<real>, pixscale: real)

  /** The default guess divides by the pixel scale, which fails at zero. */
  datatype PsfError = ZeroPixelScale

  /** The starting FWHM: `ap_guess_psf` when given, otherwise one arcsec in
      pixels but never below one pixel. */
  function Guess(o: PsfOptions): (r: Result<real, PsfError>)
    ensures o.guessPsf.Some? ==> r == Success(o.guessPsf.value)
    ensures o.guessPsf.None? ==> (r.Failure? <==> o.pixscale == 0.0)
    ensures o.guessPsf.None? && r.Success? ==>
      && r.value >= 1.0
      && (0.0 < o.pixscale < 1.0 ==> r.value * o.pixscale == 1.0)
      && (o.pixscale < 0.0 || 1.0 <= o.pixscale ==> r.value == 1.0)
  {
    match o.guessPsf
    case Some(g) => Success(g)
    case None =>
      if o.pixscale == 0.0 then Failure(ZeroPixelScale)
      else
        var inv := 1.0 / o.pixscale;
        InverseAboveOne(o.pixscale);
        Success(if 1.0 < inv then inv else 1.0)
  }

  lemma InverseAboveOne(p: real)
    requires p != 0.0
    ensures 1.0 < 1.0 / p <==> 0.0 < p < 1.0
  {
    if 0.0 < p < 1.0 {
      assert (1.0 / p) * p == 1.0;
    } else if 1.0 <= p {
      assert (1.0 / p) * p == 1.0;
    }
  }

  /** The rows (or columns) the star search covers along a side of `n`
      pixels: from `int(n/4)` up to but not including `int(3n/4)`. */
  function Band(n: nat): (b: (nat, nat))
    ensures b.0 <= b.1 <= n
  {
    (n / 4, (3 * n) / 4)
  }

  /** The band is centred to within a pixel, and not empty once the side is
      at least two pixels. */
  lemma BandCentred(n: nat)
    ensures n - 1 <= Band(n).0 + Band(n).1 <= n
    ensures n >= 2 ==> Band(n).0 < Band(n).1
  {
    var q := n / 4;
    var r := n % 4;
    assert n == 4 * q + r;
    DivModUnique(3 * n, 4, 3 * q + (3 * r) / 4, (3 * r) % 4);
  }

  /** Pixel `(row, col)` of an `h` by `w` image is searched for stars. */
  predicate Central(h: nat, w: nat, row: nat, col: nat)
  {
    Band(h).0 <= row < Band(h).1 && Band(w).0 <= col < Band(w).1
  }

  /** The search mask: `true` exactly on the central band of rows and columns. */
  function EdgeMask(h: nat, w: nat): (m: seq<seq<bool>>)
    ensures |m| == h
    ensures forall row :: 0 <= row < h ==> |m[row]| == w
    ensures forall row, col :: 0 <= row < h && 0 <= col < w ==> (m[row][col] <==> Central(h, w, row, col))
  {
    seq(h, row requires 0 <= row < h => seq(w, col requires 0 <= col < w => Central(h, w, row, col)))
  }

  /** Number of stars with deformity below `clip`. */
  function Count(stars: seq<Star>, clip: real): (c: nat)
    ensures c <= |stars|
    decreases |stars|
  {
    if |stars| == 0 then 0
    else (if stars[0].deformity < clip then 1 else 0) + Count(stars[1..], clip)
  }

  /** A cut above every deformity keeps every star. */
  lemma {:induction false} CountAll(stars: seq<Star>, clip: real)
    requires forall i :: 0 <= i < |stars| ==> stars[i].deformity < clip
    ensures Count(stars, clip) == |stars|
    decreases |stars|
  {
    if |stars| > 0 {
      CountAll(stars[1..], clip);
    }
  }

  /** `max(10, 2*len/3)`: how many stars the cut must keep. */
  function Need(n: nat): real
  {
    var twoThirds := 2.0 * (n as real) / 3.0;
    if (MinStars as real) < twoThirds then twoThirds else MinStars as real
  }

  /** With more than ten stars the requirement is no more than all of them. */
  lemma NeedAtMostAll(n: nat)
    requires n > MinStars
    ensures Need(n) <= n as real
  {
  }

  /** The cut after `k` raises: `0.1 * (k + 1)`. */
  function Clip(k: nat): real
  {
    ((k + 1) as real) * ClipStep
  }

  /** The cut after `k` raises keeps enough stars. */
  predicate Enough(stars: seq<Star>, k: nat)
  {
    Count(stars, Clip(k)) as real >= Need(|stars|)
  }

  /** The largest deformity, or 0 when it is below 0 or there are no stars. */
  function MaxDeformity(stars: seq<Star>): (m: real)
    ensures 0.0 <= m
    ensures forall i :: 0 <= i < |stars| ==> stars[i].deformity <= m
    decreases |stars|
  {
    if |stars| == 0 then 0.0
    else
      var rest := MaxDeformity(stars[1..]);
      if stars[0].deformity > rest then stars[0].deformity else rest
  }

  /** How many raises at most it takes to pass every deformity. */
  function Budget(stars: seq<Star>): nat
  {
    (10.0 * MaxDeformity(stars)).Floor as nat
  }

  /** From `Budget` raises on the cut lies above every deformity. */
  lemma CutPassesAll(stars: seq<Star>, k: nat)
    requires Budget(stars) <= k
    ensures forall i :: 0 <= i < |stars| ==> stars[i].deformity < Clip(k)
  {
    var m := MaxDeformity(stars);
    assert 10.0 * m < (k + 1) as real;
  }

  /** With more than ten stars, a cut past every deformity keeps enough of them. */
  lemma EnoughPastBudget(stars: seq<Star>, k: nat)
    requires |stars| > MinStars
    ensures Budget(stars) <= k ==> Enough(stars, k)
  {
    if Budget(stars) <= k {
      CutPassesAll(stars, k);
      CountAll(stars, Clip(k));
      NeedAtMostAll(|stars|);
    }
  }

  /** The number of raises the loop makes, searching from `k`: the first
      count of raises from `k` on whose cut keeps enough stars. With more
      than ten stars there always is one. */
  function Raises(stars: seq<Star>, k: nat): (j: nat)
    requires |stars| > MinStars
    ensures k <= j && Enough(stars, j)
    ensures forall i :: k <= i < j ==> !Enough(stars, i)
    decreases if k <= Budget(stars) then Budget(stars) - k + 1 else 0
  {
    EnoughPastBudget(stars, k);
    if Enough(stars, k) then k else Raises(stars, k + 1)
  }

  /** The `while` loop that raises the cut by 0.1 until enough stars pass;
      it returns the final number of raises. */
  method RaiseClip(stars: seq<Star>) returns (k: nat)
    requires |stars| > MinStars
    ensures k == Raises(stars, 0)
  {
    k := 0;
    while !Enough(stars, k)
      invariant Raises(stars, k) == Raises(stars, 0)
      decreases Raises(stars, 0) - k
    {
      k := k + 1;
    }
  }

  /** The FWHMs of the stars with deformity below `clip`, in order: one per
      such star, each the FWHM of such a star, and every such star's FWHM
      among them. */
  function Kept(stars: seq<Star>, clip: real): (fs: seq<real>)
    ensures |fs| == Count(stars, clip)
    ensures forall k :: 0 <= k < |fs| ==> exists i :: 0 <= i < |stars| && stars[i].deformity < clip && fs[k] == stars[i].fwhm
    ensures forall i :: 0 <= i < |stars| && stars[i].deformity < clip ==> stars[i].fwhm in fs
    decreases |stars|
  {
    if |stars| == 0 then []
    else (if stars[0].deformity < clip then [stars[0].fwhm] else []) + Kept(stars[1..], clip)
  }

  /** Keeping distributes over concatenation, so the kept FWHMs follow the
      order of the stars. */
  lemma {:induction false} KeptAppend(a: seq<Star>, b: seq<Star>, clip: real)
    ensures Kept(a + b, clip) == Kept(a, clip) + Kept(b, clip)
    decreases |a|
  {
    if |a| > 0 {
      assert (a + b)[1..] == a[1..] + b;
      KeptAppend(a[1..], b, clip);
    } else {
      assert a + b == b;
    }
  }

  /** Least and greatest entry of a non-empty sequence. */
  function Lo(xs: seq<real>): real
    requires |xs| > 0
    decreases |xs|
  {
    if |xs| == 1 then xs[0] else var m := Lo(xs[1..]); if xs[0] < m then xs[0] else m
  }

  function Hi(xs: seq<real>): real
    requires |xs| > 0
    decreases |xs|
  {
    if |xs| == 1 then xs[0] else var m := Hi(xs[1..]); if xs[0] > m then xs[0] else m
  }

  /** A median routine: on a non-empty input it lies between the least and
      the greatest entry. */
  ghost predicate MedianLike(median: seq<real> -> real)
  {
    forall xs :: |xs| > 0 ==> Lo(xs) <= median(xs) <= Hi(xs)
  }

  /** What the step reports: the FWHM, and the deformity cut when stars were
      measured. */
  datatype PsfOutcome = PsfOutcome(fwhm: real, clip: Option<real>)

  /** `PSF_StarFind`. `find` is the star finder on the background-subtracted
      image, given the FWHM guess, the noise and the search mask. A user PSF
      is returned as it is, without searching. Otherwise, with no more than
      ten stars the guess is returned; with more, the cut is the first
      multiple of 0.1 that keeps `max(10, 2n/3)` stars, no smaller multiple
      does, and the PSF lies between the least and greatest FWHM of the kept
      stars (at least ten of them). */
  function PsfStarFind(o: PsfOptions, h: nat, w: nat, noise: real,
                       find: (real, real, seq<seq<bool>>) -> seq<Star>, median: seq<real> -> real)
    : (r: Result<PsfOutcome, PsfError>)
    requires MedianLike(median)
    ensures o.setPsf.Some? ==> r == Success(PsfOutcome(o.setPsf.value, None))
    ensures o.setPsf.None? ==> (r.Failure? <==> Guess(o).Failure?)
    ensures o.setPsf.None? && r.Success? ==>
      var stars := find(Guess(o).value, noise, EdgeMask(h, w));
      && (r.value.clip.None? <==> |stars| <= MinStars)
      && (r.value.clip.None? ==> r.value.fwhm == Guess(o).value)
      && (r.value.clip.Some? ==>
            var clip := r.value.clip.value;
            var kept := Kept(stars, clip);
            && (exists k: nat :: clip == Clip(k) && Enough(stars, k) && forall i :: 0 <= i < k ==> !Enough(stars, i))
            && |kept| >= MinStars
            && 3 * |kept| >= 2 * |stars|
            && Lo(kept) <= r.value.fwhm <= Hi(kept))
  {
    match o.setPsf
    case Some(p) => Success(PsfOutcome(p, None))
    case None =>
      match Guess(o)
      case Failure(e) => Failure(e)
      case Success(guess) =>
        var stars := find(guess, noise, EdgeMask(h, w));
        if |stars| <= MinStars then Success(PsfOutcome(guess, None))
        else
          var k := Raises(stars, 0);
          var kept := Kept(stars, Clip(k));
          assert |kept| >= MinStars;
          Success(PsfOutcome(median(kept), Some(Clip(k))))
  }
}
