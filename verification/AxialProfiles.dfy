/** Axial profiles: surface brightness sampled along lines parallel to the
    minor axis that start at points on the major axis. A grid of radii fixes
    both where the lines start and where along each line the brightness is
    binned; there are four line families (either side of the centre, either
    direction), and the result is written as one table with a header row, a
    units row and one row per radius. */
module AxialProfiles {
  import opened Common
  import opened Text

  /** The brightness written for a bin with no samples or no positive flux. */
  const Sentinel: real := 99.999
  /** Default geometric growth of the grid (`ap_samplegeometricscale`). */
  const DefaultGeometricScale: real := 0.1
  /** Default linear step as a multiple of the PSF FWHM. */
  const DefaultLinearFactor: real := 0.5
  /** Columns written per grid radius: two quantities in each of four families. */
  const FieldsPerRadius: nat := 8

  /** The grid options: `ap_samplestyle`, `ap_samplelinearscale` and
      `ap_samplegeometricscale`, each possibly absent. */
  datatype Sampling = Sampling(style: Option<string>, linearScale: Option<real>, geometricScale: Option<real>)
  {
    predicate Linear()
    {
      style == Some("linear")
    }
  }

  /** The proposed step from radius `last`: the linear scale (default half
      the PSF FWHM) in linear mode, otherwise `last` times the geometric scale
      (default 0.1). */
  function Step(o: Sampling, psf: real, last: real): real
  {
    if o.Linear() then OrElse(o.linearScale, DefaultLinearFactor * psf)
    else last * OrElse(o.geometricScale, DefaultGeometricScale)
  }

  /** The next grid radius: the proposed step, but never less than one pixel. */
  function Next(o: Sampling, psf: real, last: real): (r: real)
    ensures r >= last + 1.0
    ensures Step(o, psf, last) <= 1.0 ==> r == last + 1.0
    ensures 1.0 < Step(o, psf, last) ==> r == last + Step(o, psf, last)
  {
    var s := Step(o, psf, last);
    last + (if 1.0 < s then s else 1.0)
  }

  /** How many more radii at most can be added below `lim`. */
  function Room(lim: real, last: real): nat
  {
    if last < lim then ((lim - last).Floor + 1) as nat else 0
  }

  lemma RoomShrinks(lim: real, last: real, next: real)
    requires last < lim && last + 1.0 <= next
    ensures Room(lim, next) < Room(lim, last)
  {
    if next < lim {
      assert (lim - next).Floor <= (lim - last).Floor - 1 by {
        assert lim - next <= (lim - last) - 1.0;
        assert ((lim - last) - 1.0).Floor == (lim - last).Floor - 1;
      }
    }
  }

  /** The radii the grid adds after `last` while the last one is below `lim`. */
  function GridFrom(o: Sampling, psf: real, lim: real, last: real): (rs: seq<real>)
    ensures |rs| == 0 <==> lim <= last
    ensures |rs| > 0 ==> rs[0] == Next(o, psf, last) && lim <= rs[|rs| - 1]
    ensures forall k :: 0 <= k < |rs| - 1 ==> rs[k] < lim && rs[k + 1] == Next(o, psf, rs[k])
    decreases Room(lim, last)
  {
    if last < lim then
      var next := Next(o, psf, last);
      RoomShrinks(lim, last, next);
      var rest := GridFrom(o, psf, lim, next);
      assert forall k :: 1 <= k < |rest| + 1 ==> ([next] + rest)[k] == rest[k - 1];
      [next] + rest
    else []
  }

  /** `R`: start at 0 and keep adding radii while the last one is below the
      profile limit. */
  function Grid(o: Sampling, psf: real, lim: real): (rs: seq<real>)
  {
    [0.0] + GridFrom(o, psf, lim, 0.0)
  }

  /** A grid starts at 0, each radius is `Next` of the one before (so the
      gaps are at least one pixel and the grid strictly increases), every
      radius but the last is below the limit and the last one is not. A
      positive limit gives at least two radii, and in geometric mode the
      first step from 0 is exactly one pixel. */
  predicate IsGrid(o: Sampling, psf: real, lim: real, rs: seq<real>)
  {
    && |rs| >= 1 && rs[0] == 0.0
    && (forall k :: 0 <= k < |rs| - 1 ==> rs[k] < lim && rs[k + 1] == Next(o, psf, rs[k]))
    && lim <= rs[|rs| - 1]
  }

  lemma GridShape(o: Sampling, psf: real, lim: real)
    ensures IsGrid(o, psf, lim, Grid(o, psf, lim))
    ensures forall k :: 0 <= k < |Grid(o, psf, lim)| - 1 ==> Grid(o, psf, lim)[k] + 1.0 <= Grid(o, psf, lim)[k + 1]
    ensures 0.0 < lim ==> |Grid(o, psf, lim)| >= 2
    ensures 0.0 < lim && !o.Linear() ==> Grid(o, psf, lim)[1] == 1.0
  {
    var rest := GridFrom(o, psf, lim, 0.0);
    var rs := Grid(o, psf, lim);
    assert forall k :: 1 <= k < |rs| ==> rs[k] == rest[k - 1];
  }

  /** The grid is the only sequence with the `IsGrid` shape. */
  lemma {:induction false} GridUnique(o: Sampling, psf: real, lim: real, rs: seq<real>)
    requires IsGrid(o, psf, lim, rs)
    ensures rs == Grid(o, psf, lim)
  {
    GridFromUnique(o, psf, lim, rs);
  }

  lemma {:induction false} GridFromUnique(o: Sampling, psf: real, lim: real, rs: seq<real>)
    requires |rs| >= 1
    requires forall k :: 0 <= k < |rs| - 1 ==> rs[k] < lim && rs[k + 1] == Next(o, psf, rs[k])
    requires lim <= rs[|rs| - 1]
    ensures rs[1..] == GridFrom(o, psf, lim, rs[0])
    decreases |rs|
  {
    if |rs| > 1 {
      GridFromUnique(o, psf, lim, rs[1..]);
      assert rs[1..][1..] == rs[2..];
      assert rs[1..] == [rs[1]] + rs[2..];
    }
  }

  /** The `while` loop that builds the grid. */
  method BuildGrid(o: Sampling, psf: real, lim: real) returns (rs: seq<real>)
    ensures rs == Grid(o, psf, lim)
  {
    rs := [0.0];
    while rs[|rs| - 1] < lim
      invariant |rs| >= 1 && rs[0] == 0.0
      invariant forall k :: 0 <= k < |rs| - 1 ==> rs[k] < lim && rs[k + 1] == Next(o, psf, rs[k])
      decreases Room(lim, rs[|rs| - 1])
    {
      var last := rs[|rs| - 1];
      RoomShrinks(lim, last, Next(o, psf, last));
      rs := rs + [Next(o, psf, last)];
    }
    GridUnique(o, psf, lim, rs);
  }

  /** The profile limit in pixels: the outermost radius of the photometry
      profile divided by the pixel scale when there is one, otherwise half the
      smaller image side. */
  function ProfileLimit(profileEdge: Option<real>, pixscale: real, height: nat, width: nat): (lim: real)
    requires profileEdge.Some? ==> pixscale != 0.0
    ensures profileEdge.Some? ==> lim * pixscale == profileEdge.value
    ensures profileEdge.None? ==> 2.0 * lim == (if height < width then height else width) as real
  {
    match profileEdge
    case Some(edge) => edge / pixscale
    case None => (if height < width then height else width) as real / 2.0
  }

  /** One family of lines: `rd` picks the side of the centre the starting
      points are on, `ang` the direction the lines run in. */
  datatype Branch = Branch(rd: int, ang: int)

  /** The families in the order they are computed and written. */
  const Branches: seq<Branch> := [Branch(1, 1), Branch(1, -1), Branch(-1, 1), Branch(-1, -1)]

  /** The four families are distinct and are all the sign pairs. */
  lemma BranchesCover()
    ensures |Branches| == 4
    ensures forall a, b :: 0 <= a < b < 4 ==> Branches[a] != Branches[b]
    ensures forall rd, ang :: (rd == 1 || rd == -1) && (ang == 1 || ang == -1) ==> Branch(rd, ang) in Branches
  {
  }

  /** The major-axis angle: the initial angle, turned by `ap_axialprof_pa`
      degrees when that option is set. */
  function AxisPa(initPa: real, turnDeg: Option<real>): (pa: real)
    ensures turnDeg.None? ==> pa == initPa
    ensures turnDeg.Some? ==> (pa - initPa) * 180.0 == turnDeg.value * Pi
  {
    initPa + (match turnDeg case Some(d) => d * Pi / 180.0 case None => 0.0)
  }

  /** The direction of a family's lines, `(pa + ang*pi/2) % (2*pi)`: in
      [0, 2 pi) and a whole number of turns away from `pa + ang*pi/2`. */
  function BranchPa(pa: real, ang: int): (t: real)
    ensures 0.0 <= t < 2.0 * Pi
    ensures exists k: int :: t == pa + (ang as real) * Pi / 2.0 - Turns(k)
  {
    var x := pa + (ang as real) * Pi / 2.0;
    var t := FMod(x, 2.0 * Pi);
    assert t == x - Turns((x / (2.0 * Pi)).Floor);
    t
  }

  /** `k` whole turns, in radians. */
  function Turns(k: int): real
  {
    2.0 * Pi * (k as real)
  }

  /** The two directions of a side are opposite: they differ by exactly pi. */
  lemma BranchesOpposite(pa: real)
    ensures BranchPa(pa, 1) - BranchPa(pa, -1) == Pi || BranchPa(pa, -1) - BranchPa(pa, 1) == Pi
  {
    var a := BranchPa(pa, 1);
    var b := BranchPa(pa, -1);
    var k1: int :| a == pa + (1 as real) * Pi / 2.0 - Turns(k1);
    var k2: int :| b == pa + (-1 as real) * Pi / 2.0 - Turns(k2);
    assert a - b == Pi + 2.0 * Pi * ((k2 - k1) as real);
  }

  /** The image geometry: the centre, the major-axis angle, and the cosine and
      sine, assumed to turn sign under a half turn as they do exactly. */
  datatype Geometry = Geometry(cx: real, cy: real, pa: real, cos: real -> real, sin: real -> real)
  {
    ghost predicate Valid()
    {
      && cos(pa + Pi) == -cos(pa)
      && sin(pa + Pi) == -sin(pa)
    }
  }

  /** Where a line of family `b` through grid radius `pR` starts: `ang*rd*pR`
      along the major axis, turned by pi when `ang` is negative. */
  function LineOrigin(g: Geometry, b: Branch, pR: real): (real, real)
  {
    var d := (b.ang * b.rd) as real * pR;
    var theta := g.pa + (if b.ang > 0 then 0.0 else Pi);
    (g.cx + d * g.cos(theta), g.cy + d * g.sin(theta))
  }

  /** Both directions of a side start from the same point, `rd*pR` along the
      major axis, and the two sides start at mirror-image points. */
  lemma OriginsOnAxis(g: Geometry, rd: int, pR: real)
    requires g.Valid()
    requires rd == 1 || rd == -1
    ensures LineOrigin(g, Branch(rd, 1), pR) == LineOrigin(g, Branch(rd, -1), pR)
    ensures LineOrigin(g, Branch(rd, 1), pR).0 - g.cx == (rd as real) * pR * g.cos(g.pa)
    ensures LineOrigin(g, Branch(rd, 1), pR).1 - g.cy == (rd as real) * pR * g.sin(g.pa)
  {
    var d := (rd as real) * pR;
    assert LineOrigin(g, Branch(rd, 1), pR).0 == g.cx + d * g.cos(g.pa);
    assert LineOrigin(g, Branch(rd, 1), pR).1 == g.cy + d * g.sin(g.pa);
    assert LineOrigin(g, Branch(rd, -1), pR).0 == g.cx + (-d) * g.cos(g.pa + Pi);
    assert LineOrigin(g, Branch(rd, -1), pR).1 == g.cy + (-d) * g.sin(g.pa + Pi);
    assert (-d) * g.cos(g.pa + Pi) == d * g.cos(g.pa);
    assert (-d) * g.sin(g.pa + Pi) == d * g.sin(g.pa);
    assert LineOrigin(g, Branch(rd, 1), pR).0 == LineOrigin(g, Branch(rd, -1), pR).0;
    assert LineOrigin(g, Branch(rd, 1), pR).1 == LineOrigin(g, Branch(rd, -1), pR).1;
  }

  /** The width of bin `k` (and of the line through radius `k`): the gap to
      the radius before, or 1 for the first. */
  function BinLength(rs: seq<real>, k: nat): real
    requires k < |rs|
  {
    if k > 0 then rs[k] - rs[k - 1] else 1.0
  }

  /** On a grid every bin is at least one pixel wide. */
  lemma BinLengthAtLeastOne(o: Sampling, psf: real, lim: real, k: nat)
    requires k < |Grid(o, psf, lim)|
    ensures BinLength(Grid(o, psf, lim), k) >= 1.0
  {
    GridShape(o, psf, lim);
  }

  /** A sample at position `x` along the line falls in the bin of width
      `length` about `centre` when it lies strictly inside it. */
  predicate InBin(x: real, centre: real, length: real)
  {
    centre - length / 2.0 < x < centre + length / 2.0
  }

  /** The indices from `from` on whose positions fall in the bin, in order. */
  function Chosen(xs: seq<real>, centre: real, length: real, from: nat): (ix: seq<nat>)
    requires from <= |xs|
    ensures forall j :: 0 <= j < |ix| ==> from <= ix[j] < |xs| && InBin(xs[ix[j]], centre, length)
    ensures forall j, k :: 0 <= j < k < |ix| ==> ix[j] < ix[k]
    ensures forall i :: from <= i < |xs| && InBin(xs[i], centre, length) ==> i in ix
    decreases |xs| - from
  {
    if from == |xs| then []
    else
      var rest := Chosen(xs, centre, length, from + 1);
      if InBin(xs[from], centre, length) then [from] + rest else rest
  }

  /** `ix` lists, in increasing order, exactly the indices of `xs` whose
      positions fall in the bin. */
  predicate BinIndices(xs: seq<real>, centre: real, length: real, ix: seq<nat>)
  {
    && (forall j :: 0 <= j < |ix| ==> ix[j] < |xs| && InBin(xs[ix[j]], centre, length))
    && (forall j, k :: 0 <= j < k < |ix| ==> ix[j] < ix[k])
    && (forall i :: 0 <= i < |xs| && InBin(xs[i], centre, length) ==> i in ix)
  }

  /** The chosen indices are the only increasing list of the in-bin indices. */
  lemma ChosenUnique(xs: seq<real>, centre: real, length: real)
    ensures forall ix :: BinIndices(xs, centre, length, ix) <==> ix == Chosen(xs, centre, length, 0)
  {
    var c := Chosen(xs, centre, length, 0);
    forall ix | BinIndices(xs, centre, length, ix)
      ensures ix == c
    {
      forall x
        ensures x in ix <==> x in c
      {
      }
      SameIncreasing(ix, c);
    }
  }

  /** Two increasing lists with the same elements are equal. */
  lemma {:induction false} SameIncreasing(a: seq<nat>, b: seq<nat>)
    requires forall j, k :: 0 <= j < k < |a| ==> a[j] < a[k]
    requires forall j, k :: 0 <= j < k < |b| ==> b[j] < b[k]
    requires forall x :: x in a <==> x in b
    ensures a == b
    decreases |a|
  {
    if |a| > 0 {
      assert a[0] in a;
    }
    if |b| > 0 {
      assert b[0] in b;
    }
    if |a| > 0 && |b| > 0 {
      assert a[0] == b[0] by {
        var ka :| 0 <= ka < |b| && b[ka] == a[0];
        var kb :| 0 <= kb < |a| && a[kb] == b[0];
      }
      forall x
        ensures x in a[1..] <==> x in b[1..]
      {
        if x in a[1..] {
          var k :| 0 <= k < |a| - 1 && a[1..][k] == x;
          assert a[k + 1] == x && x in a;
          var m :| 0 <= m < |b| && b[m] == x;
          assert b[1..][m - 1] == x;
        }
        if x in b[1..] {
          var k :| 0 <= k < |b| - 1 && b[1..][k] == x;
          assert b[k + 1] == x && x in b;
          var m :| 0 <= m < |a| && a[m] == x;
          assert a[1..][m - 1] == x;
        }
      }
      SameIncreasing(a[1..], b[1..]);
    }
  }

  /** The fluxes of the chosen samples. */
  function Pick(flux: seq<real>, ix: seq<nat>): (vs: seq<real>)
    requires forall j :: 0 <= j < |ix| ==> ix[j] < |flux|
    ensures |vs| == |ix|
    ensures forall j :: 0 <= j < |ix| ==> vs[j] == flux[ix[j]]
  {
    seq(|ix|, j requires 0 <= j < |ix| => flux[ix[j]])
  }

  /** The averaging of a bin: the average and scatter (median and
      interquartile measure by default), the flux to surface-brightness
      conversion with the pixel scale and zero point (22.5 by default) fixed,
      and a square root. */
  datatype Averager = Averager(average: seq<real> -> real, scatter: seq<real> -> real,
                               toSb: real -> real, sqrt: real -> real)

  /** One bin's surface brightness and its error. An empty bin or a
      non-positive average gives the sentinel for both; otherwise the
      brightness is the converted average and the error, multiplied by
      `sqrt(count) * average * ln 10`, gives 2.5 times the scatter. */
  function Cell(avg: Averager, fs: seq<real>): (c: (real, real))
    requires SqrtLike(avg.sqrt)
    ensures |fs| == 0 || avg.average(fs) <= 0.0 ==> c == (Sentinel, Sentinel)
    ensures |fs| > 0 && avg.average(fs) > 0.0 ==>
      && c.0 == avg.toSb(avg.average(fs))
      && c.1 * (avg.sqrt(|fs| as real) * avg.average(fs) * Ln10) == 2.5 * avg.scatter(fs)
  {
    if |fs| == 0 then (Sentinel, Sentinel)
    else
      var med := avg.average(fs);
      if med > 0.0 then
        var den := avg.sqrt(|fs| as real) * med * Ln10;
        PositiveDenominator(avg.sqrt(|fs| as real), med);
        (avg.toSb(med), 2.5 * avg.scatter(fs) / den)
      else (Sentinel, Sentinel)
  }

  lemma PositiveDenominator(s: real, m: real)
    requires 0.0 < s && 0.0 < m
    ensures 0.0 < s * m * Ln10
  {
    assert 0.0 < s * m;
  }

  /** Sampling a line: given its length, width, direction and start, the
      fluxes and positions along it of the pixels it covers, one each. */
  datatype LineSampler = LineSampler(sample: (real, real, real, (real, real)) -> (seq<real>, seq<real>))
  {
    ghost predicate Valid()
    {
      forall len, w, t, s :: |sample(len, w, t, s).0| == |sample(len, w, t, s).1|
    }

    lemma Lengths(len: real, w: real, t: real, s: (real, real))
      requires Valid()
      ensures |sample(len, w, t, s).0| == |sample(len, w, t, s).1|
    {
    }
  }

  /** The samples along the line of family `b` through grid radius `p`: it
      runs to the outermost radius, is as wide as bin `p`, and starts at the
      line origin. */
  function LineSamples(g: Geometry, line: LineSampler, rs: seq<real>, b: Branch, p: nat): (s: (seq<real>, seq<real>))
    requires line.Valid() && p < |rs|
    ensures |s.0| == |s.1|
  {
    line.Lengths(rs[|rs| - 1], BinLength(rs, p), BranchPa(g.pa, b.ang), LineOrigin(g, b, rs[p]));
    line.sample(rs[|rs| - 1], BinLength(rs, p), BranchPa(g.pa, b.ang), LineOrigin(g, b, rs[p]))
  }

  /** The bin at grid radius `q` of the line of family `b` through grid
      radius `p`: the cell of the fluxes, in sample order, of exactly the
      samples whose positions fall strictly inside the bin. A bin no sample
      falls in holds the sentinel in both entries. */
  function Bin(g: Geometry, line: LineSampler, avg: Averager, rs: seq<real>, b: Branch, p: nat, q: nat): (c: (real, real))
    requires line.Valid() && SqrtLike(avg.sqrt)
    requires p < |rs| && q < |rs|
    ensures var xs := LineSamples(g, line, rs, b, p).1;
      (forall i :: 0 <= i < |xs| ==> !InBin(xs[i], rs[q], BinLength(rs, q))) ==> c == (Sentinel, Sentinel)
    ensures var s := LineSamples(g, line, rs, b, p);
      forall ix :: BinIndices(s.1, rs[q], BinLength(rs, q), ix) ==> c == Cell(avg, Pick(s.0, ix))
  {
    var s := LineSamples(g, line, rs, b, p);
    ChosenUnique(s.1, rs[q], BinLength(rs, q));
    var ix := Chosen(s.1, rs[q], BinLength(rs, q), 0);
    assert |ix| > 0 ==> InBin(s.1[ix[0]], rs[q], BinLength(rs, q));
    Cell(avg, Pick(s.0, ix))
  }

  /** `sb`/`sbE` for all four families: entry `[b][p][q]` is family `b`, line
      through radius `p`, bin at radius `q`. */
  function Tables(g: Geometry, line: LineSampler, avg: Averager, rs: seq<real>): (t: seq<seq<seq<(real, real)>>>)
    requires line.Valid() && SqrtLike(avg.sqrt)
    ensures TableShape(t, |rs|)
    ensures forall b, p, q :: 0 <= b < |t| && 0 <= p < |rs| && 0 <= q < |rs| ==> t[b][p][q] == Bin(g, line, avg, rs, Branches[b], p, q)
  {
    var n := |rs|;
    seq(|Branches|, b requires 0 <= b < |Branches| =>
      seq(n, p requires 0 <= p < n =>
        seq(n, q requires 0 <= q < n => Bin(g, line, avg, rs, Branches[b], p, q))))
  }

  /** Number formatting, `'%.Nf' % x` for `N` digits; the output never
      contains a comma. */
  datatype Formatter = Formatter(fmt: (nat, real) -> string)
  {
    ghost predicate Valid()
    {
      forall d, x :: Comma !in fmt(d, x)
    }

    lemma NoComma(d: nat, x: real)
      requires Valid()
      ensures Comma !in fmt(d, x)
    {
    }
  }

  /** The column after the first that column `c` holds: family, grid radius
      and quantity (0 for `sb`, 1 for `sbE`). Columns run over families, then
      radii, then the two quantities. */
  function ColumnKey(c: nat, n: nat): (key: (nat, nat, nat))
    requires 0 < n
    ensures key.1 < n && key.2 < 2
  {
    ((c / 2) / n, (c / 2) % n, c % 2)
  }

  /** Where the column for family `b`, radius `p` and quantity `kind` is. */
  function ColumnIndex(b: nat, p: nat, kind: nat, n: nat): nat
  {
    2 * (b * n + p) + kind
  }

  /** Column index and key are inverse to each other on the table's columns. */
  lemma ColumnRoundTrip(b: nat, p: nat, kind: nat, n: nat)
    requires b < |Branches| && p < n && kind < 2
    ensures ColumnIndex(b, p, kind, n) < FieldsPerRadius * n
    ensures ColumnKey(ColumnIndex(b, p, kind, n), n) == (b, p, kind)
  {
    var c := ColumnIndex(b, p, kind, n);
    DivModUnique(c, 2, b * n + p, kind);
    DivModUnique(b * n + p, n, b, p);
    MulMono(b, 3, n);
  }

  /** Every column of the table belongs to one family, radius and quantity. */
  lemma ColumnKeyInRange(c: nat, n: nat)
    requires 0 < n && c < FieldsPerRadius * n
    ensures ColumnKey(c, n).0 < |Branches|
    ensures ColumnIndex(ColumnKey(c, n).0, ColumnKey(c, n).1, ColumnKey(c, n).2, n) == c
  {
    var q := c / 2;
    var b := q / n;
    assert q < 4 * n;
    assert q == b * n + q % n;
    MulMono(4, b, n);
  }

  /** A header label, `sb[%.3f:+90]` or `sbE[%.3f:-90]` with the signed
      radius in arcsec and the direction's sign. */
  function Label(f: Formatter, kind: nat, x: real, ang: int): string
  {
    (if kind == 0 then "sb[" else "sbE[") + f.fmt(3, x) + ":" + (if ang > 0 then "+" else "-") + "90]"
  }

  lemma LabelNoComma(f: Formatter, kind: nat, x: real, ang: int)
    requires f.Valid()
    ensures Comma !in Label(f, kind, x, ang)
  {
    f.NoComma(3, x);
    var open := if kind == 0 then "sb[" else "sbE[";
    var sign := if ang > 0 then "+" else "-";
    assert Comma !in open;
    assert Comma !in sign;
    assert Comma !in ":" && Comma !in "90]";
    assert Label(f, kind, x, ang) == open + f.fmt(3, x) + ":" + sign + "90]";
  }

  /** `t` has four families of `n` lines of `n` bins. */
  predicate TableShape(t: seq<seq<seq<(real, real)>>>, n: nat)
  {
    && |t| == |Branches|
    && (forall b :: 0 <= b < |t| ==> |t[b]| == n)
    && (forall b, p :: 0 <= b < |t| && 0 <= p < n ==> |t[b][p]| == n)
  }

  /** A grid radius on side `rd` of the centre, in arcsec. */
  function SignedArcsec(rd: int, r: real, pixscale: real): real
  {
    (rd as real) * r * pixscale
  }

  /** The label of column `c`. */
  function HeaderField(f: Formatter, rs: seq<real>, pixscale: real, c: nat): string
    requires |rs| > 0
  {
    var key := ColumnKey(c, |rs|);
    var b := if key.0 < |Branches| then Branches[key.0] else Branch(1, 1);
    Label(f, key.2, SignedArcsec(b.rd, rs[key.1], pixscale), b.ang)
  }

  /** The header row: `R`, then each column's label. */
  function HeaderFields(f: Formatter, rs: seq<real>, pixscale: real): (fs: seq<string>)
    requires |rs| > 0
    ensures |fs| == 1 + FieldsPerRadius * |rs|
    ensures fs[0] == "R" && forall c :: 0 <= c < FieldsPerRadius * |rs| ==> fs[1 + c] == HeaderField(f, rs, pixscale, c)
  {
    var n := |rs|;
    ["R"] + seq(FieldsPerRadius * n, c requires 0 <= c < FieldsPerRadius * n => HeaderField(f, rs, pixscale, c))
  }

  /** The units row: `arcsec`, then the magnitude unit for every column. */
  function UnitsFields(n: nat): (fs: seq<string>)
    ensures |fs| == 1 + FieldsPerRadius * n
    ensures fs[0] == "arcsec" && forall c :: 1 <= c < |fs| ==> fs[c] == "mag*arcsec^-2"
  {
    ["arcsec"] + seq(FieldsPerRadius * n, _ => "mag*arcsec^-2")
  }

  /** Column `c` of the row for bin `q`. */
  function DataField(f: Formatter, rs: seq<real>, t: seq<seq<seq<(real, real)>>>, q: nat, c: nat): string
    requires q < |rs| && TableShape(t, |rs|)
  {
    var key := ColumnKey(c, |rs|);
    if key.0 < |Branches| then
      var cell := t[key.0][key.1][q];
      f.fmt(4, if key.2 == 0 then cell.0 else cell.1)
    else ""
  }

  /** The data row for bin `q`: the radius in arcsec, then for each column
      the brightness or error of that family and line at this bin. */
  function DataFields(f: Formatter, rs: seq<real>, pixscale: real, t: seq<seq<seq<(real, real)>>>, q: nat): (fs: seq<string>)
    requires q < |rs| && TableShape(t, |rs|)
    ensures |fs| == 1 + FieldsPerRadius * |rs|
    ensures fs[0] == f.fmt(4, rs[q] * pixscale)
    ensures forall c :: 0 <= c < FieldsPerRadius * |rs| ==> fs[1 + c] == DataField(f, rs, t, q, c)
  {
    var n := |rs|;
    [f.fmt(4, rs[q] * pixscale)] + seq(FieldsPerRadius * n, c requires 0 <= c < FieldsPerRadius * n => DataField(f, rs, t, q, c))
  }

  /** The written file, line by line without the line ends: header, units,
      then one row per grid radius. */
  function Rows(f: Formatter, rs: seq<real>, pixscale: real, t: seq<seq<seq<(real, real)>>>): (lines: seq<string>)
    requires |rs| > 0 && TableShape(t, |rs|)
    ensures |lines| == 2 + |rs|
    ensures lines[0] == Join(HeaderFields(f, rs, pixscale), Comma)
    ensures lines[1] == Join(UnitsFields(|rs|), Comma)
    ensures forall q :: 0 <= q < |rs| ==> lines[2 + q] == Join(DataFields(f, rs, pixscale, t, q), Comma)
  {
    [Join(HeaderFields(f, rs, pixscale), Comma), Join(UnitsFields(|rs|), Comma)]
      + seq(|rs|, q requires 0 <= q < |rs| => Join(DataFields(f, rs, pixscale, t, q), Comma))
  }

  /** Column for family `b`, line radius `p` and quantity `kind` of the header
      holds the label with that family's signed radius in arcsec and its
      direction. */
  lemma HeaderColumns(f: Formatter, rs: seq<real>, pixscale: real)
    requires |rs| > 0
    ensures forall b, p, kind :: 0 <= b < |Branches| && 0 <= p < |rs| && 0 <= kind < 2 ==>
      HeaderFields(f, rs, pixscale)[1 + ColumnIndex(b, p, kind, |rs|)]
        == Label(f, kind, SignedArcsec(Branches[b].rd, rs[p], pixscale), Branches[b].ang)
  {
    forall b, p, kind | 0 <= b < |Branches| && 0 <= p < |rs| && 0 <= kind < 2
      ensures HeaderFields(f, rs, pixscale)[1 + ColumnIndex(b, p, kind, |rs|)]
        == Label(f, kind, SignedArcsec(Branches[b].rd, rs[p], pixscale), Branches[b].ang)
    {
      var c := ColumnIndex(b, p, kind, |rs|);
      ColumnRoundTrip(b, p, kind, |rs|);
      assert HeaderFields(f, rs, pixscale)[1 + c] == HeaderField(f, rs, pixscale, c);
      assert ColumnKey(c, |rs|) == (b, p, kind);
      assert HeaderField(f, rs, pixscale, c) == Label(f, kind, SignedArcsec(Branches[b].rd, rs[p], pixscale), Branches[b].ang);
    }
  }

  /** The same column of the row for bin `q` holds that family's brightness
      (`kind` 0) or error (`kind` 1) for line `p` at bin `q`. */
  lemma DataColumns(f: Formatter, rs: seq<real>, pixscale: real, t: seq<seq<seq<(real, real)>>>, q: nat)
    requires q < |rs| && TableShape(t, |rs|)
    ensures forall b, p, kind :: 0 <= b < |Branches| && 0 <= p < |rs| && 0 <= kind < 2 ==>
      DataFields(f, rs, pixscale, t, q)[1 + ColumnIndex(b, p, kind, |rs|)]
        == f.fmt(4, if kind == 0 then t[b][p][q].0 else t[b][p][q].1)
  {
    forall b, p, kind | 0 <= b < |Branches| && 0 <= p < |rs| && 0 <= kind < 2
      ensures DataFields(f, rs, pixscale, t, q)[1 + ColumnIndex(b, p, kind, |rs|)]
        == f.fmt(4, if kind == 0 then t[b][p][q].0 else t[b][p][q].1)
    {
      var c := ColumnIndex(b, p, kind, |rs|);
      ColumnRoundTrip(b, p, kind, |rs|);
      assert DataFields(f, rs, pixscale, t, q)[1 + c] == DataField(f, rs, t, q, c);
    }
  }

  lemma HeaderNoComma(f: Formatter, rs: seq<real>, pixscale: real)
    requires f.Valid() && |rs| > 0
    ensures forall k :: 0 <= k < |HeaderFields(f, rs, pixscale)| ==> Comma !in HeaderFields(f, rs, pixscale)[k]
  {
    var h := HeaderFields(f, rs, pixscale);
    assert Comma !in "R";
    forall k | 1 <= k < |h|
      ensures Comma !in h[k]
    {
      var key := ColumnKey(k - 1, |rs|);
      var b := if key.0 < |Branches| then Branches[key.0] else Branch(1, 1);
      assert h[k] == HeaderField(f, rs, pixscale, k - 1);
      LabelNoComma(f, key.2, SignedArcsec(b.rd, rs[key.1], pixscale), b.ang);
    }
  }

  lemma DataNoComma(f: Formatter, rs: seq<real>, pixscale: real, t: seq<seq<seq<(real, real)>>>, q: nat)
    requires f.Valid() && q < |rs| && TableShape(t, |rs|)
    ensures forall k :: 0 <= k < |DataFields(f, rs, pixscale, t, q)| ==> Comma !in DataFields(f, rs, pixscale, t, q)[k]
  {
    var d := DataFields(f, rs, pixscale, t, q);
    f.NoComma(4, rs[q] * pixscale);
    forall k | 1 <= k < |d|
      ensures Comma !in d[k]
    {
      var key := ColumnKey(k - 1, |rs|);
      assert d[k] == DataField(f, rs, t, q, k - 1);
      if key.0 < |Branches| {
        var cell := t[key.0][key.1][q];
        f.NoComma(4, if key.2 == 0 then cell.0 else cell.1);
      }
    }
  }

  /** The data row for bin `q` splits back into its fields. */
  lemma DataRowSplits(f: Formatter, rs: seq<real>, pixscale: real, t: seq<seq<seq<(real, real)>>>, q: nat)
    requires f.Valid() && q < |rs| && TableShape(t, |rs|)
    ensures Split(Join(DataFields(f, rs, pixscale, t, q), Comma), Comma) == DataFields(f, rs, pixscale, t, q)
  {
    DataNoComma(f, rs, pixscale, t, q);
    SplitJoin(DataFields(f, rs, pixscale, t, q), Comma);
  }

  /** Reading the file back: the header, the units row and every data row
      split at commas into exactly the fields written, `1 + 8*len(R)` each. */
  lemma RowsLayout(f: Formatter, rs: seq<real>, pixscale: real, t: seq<seq<seq<(real, real)>>>)
    requires f.Valid() && |rs| > 0 && TableShape(t, |rs|)
    ensures var lines := Rows(f, rs, pixscale, t);
      && Split(lines[0], Comma) == HeaderFields(f, rs, pixscale)
      && Split(lines[1], Comma) == UnitsFields(|rs|)
      && forall q :: 0 <= q < |rs| ==> Split(lines[2 + q], Comma) == DataFields(f, rs, pixscale, t, q)
    ensures var lines := Rows(f, rs, pixscale, t);
      forall l :: 0 <= l < |lines| ==> |Split(lines[l], Comma)| == 1 + FieldsPerRadius * |rs|
  {
    var lines := Rows(f, rs, pixscale, t);
    HeaderNoComma(f, rs, pixscale);
    SplitJoin(HeaderFields(f, rs, pixscale), Comma);
    assert Comma !in "arcsec" && Comma !in "mag*arcsec^-2";
    SplitJoin(UnitsFields(|rs|), Comma);
    forall q | 0 <= q < |rs|
      ensures Split(lines[2 + q], Comma) == DataFields(f, rs, pixscale, t, q)
    {
      DataRowSplits(f, rs, pixscale, t, q);
    }
    forall l | 0 <= l < |lines|
      ensures |Split(lines[l], Comma)| == 1 + FieldsPerRadius * |rs|
    {
      if l >= 2 {
        assert lines[l] == lines[2 + (l - 2)];
      }
    }
  }

  /** The result of `Axial_Profiles`: the grid, the tables and the file rows. */
  datatype Axial = Axial(radii: seq<real>, tables: seq<seq<seq<(real, real)>>>, rows: seq<string>)

  /** What `Axial_Profiles` reads besides the image data: the outermost
      radius of the photometry profile in arcsec when there is one, the
      `ap_axialprof_pa` turn in degrees when set, the initial position angle,
      the centre, and the image sides. */
  datatype AxialInputs = AxialInputs(profileEdge: Option<real>, turnDeg: Option<real>, initPa: real,
                                     cx: real, cy: real, height: nat, width: nat)

  /** `Axial_Profiles`: the grid up to the profile limit, the four families'
      tables over it about the (possibly turned) major axis, and the file
      rows. The grid is the one `IsGrid` describes for the limit
      `ProfileLimit` gives, entry `[b][p][q]` of the tables is the bin at
      radius `q` of the family-`b` line through radius `p` for the axis angle
      `AxisPa` gives, and the file is the header, the units row and one row
      per radius written from those tables. */
  function AxialProfile(o: Sampling, psf: real, inp: AxialInputs, cos: real -> real, sin: real -> real,
                        line: LineSampler, avg: Averager, f: Formatter, pixscale: real): (a: Axial)
    requires inp.profileEdge.Some? ==> pixscale != 0.0
    requires line.Valid() && SqrtLike(avg.sqrt)
    ensures IsGrid(o, psf, ProfileLimit(inp.profileEdge, pixscale, inp.height, inp.width), a.radii)
    ensures |a.tables| == 4 && TableShape(a.tables, |a.radii|)
    ensures var g := Geometry(inp.cx, inp.cy, AxisPa(inp.initPa, inp.turnDeg), cos, sin);
      forall b, p, q :: 0 <= b < 4 && 0 <= p < |a.radii| && 0 <= q < |a.radii| ==>
        a.tables[b][p][q] == Bin(g, line, avg, a.radii, Branches[b], p, q)
    ensures |a.radii| > 0 && a.rows == Rows(f, a.radii, pixscale, a.tables)
    ensures |a.rows| == 2 + |a.radii|
  {
    var lim := ProfileLimit(inp.profileEdge, pixscale, inp.height, inp.width);
    var g := Geometry(inp.cx, inp.cy, AxisPa(inp.initPa, inp.turnDeg), cos, sin);
    var rs := Grid(o, psf, lim);
    GridShape(o, psf, lim);
    var t := Tables(g, line, avg, rs);
    Axial(rs, t, Rows(f, rs, pixscale, t))
  }
}
