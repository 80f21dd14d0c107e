/** Shared vocabulary of the model: failure-carrying results, the floating-point
    constants the program uses, Python's float modulo, and the values that the
    flux sampler and the loss functions produce. */
module Common {

  datatype Option<+T> = None | Some(value: T)

  datatype Result<+T, +E> = Success(value: T) | Failure(error: E)

  /** An option's value, or the default when it is absent. */
  function OrElse(o: Option<real>, default: real): (x: real)
    ensures o.Some? ==> x == o.value
    ensures o.None? ==> x == default
  {
    match o
    case Some(x) => x
    case None => default
  }

  /** The binary64 value of numpy's pi, written out exactly. */
  const Pi: real := 3.141592653589793115997963468544185161590576171875

  /** The binary64 value of numpy's log(10), written out exactly. */
  const Ln10: real := 2.30258509299404590109361379290930926799774169921875

  /** Python's `x % m` on floats for a positive modulus: the floor remainder,
      which lies in [0, m) and leaves values already in [0, m) alone. */
  function FMod(x: real, m: real): (r: real)
    requires 0.0 < m
    ensures 0.0 <= r < m
    ensures 0.0 <= x < m ==> r == x
  {
    FloorRemainder(x, m);
    x - m * ((x / m).Floor as real)
  }

  /** One negative lap below zero: the remainder adds a whole modulus. */
  lemma FModShift(x: real, m: real)
    requires 0.0 < m && -m <= x < 0.0
    ensures FMod(x, m) == x + m
  {
    var q := x / m;
    assert x == q * m;
    assert (q + 1.0) * m == x + m;
    assert q < -1.0 ==> (q + 1.0) * m < 0.0;
    assert q >= 0.0 ==> q * m >= 0.0;
    assert -1.0 <= q;
    assert q < 0.0;
    assert q.Floor == -1;
  }

  lemma FloorRemainder(x: real, m: real)
    requires 0.0 < m
    ensures 0.0 <= x - m * ((x / m).Floor as real) < m
    ensures 0.0 <= x < m ==> (x / m).Floor == 0
  {
    var q := x / m;
    var f := q.Floor;
    var a := q - f as real;
    assert x == q * m;
    MulBelow(a, m);
    assert x - m * (f as real) == a * m;
    assert 0.0 <= x - m * (f as real) < m;
    if 0.0 <= x < m {
      DivBelowOne(x, m);
    }
  }

  lemma MulBelow(a: real, m: real)
    requires 0.0 <= a < 1.0 && 0.0 < m
    ensures 0.0 <= a * m < m
  {
  }

  lemma DivBelowOne(x: real, m: real)
    requires 0.0 <= x < m
    ensures 0.0 <= x / m < 1.0
  {
  }

  /** One flux sample on a contour: a number, or a NaN/inf the sampler let through. */
  datatype Flux = Finite(v: real) | NonFinite

  predicate AllFinite(xs: seq<Flux>)
  {
    forall k :: 0 <= k < |xs| ==> xs[k].Finite?
  }

  function Values(xs: seq<Flux>): (vs: seq<real>)
    requires AllFinite(xs)
    ensures |vs| == |xs|
    ensures forall k :: 0 <= k < |xs| ==> vs[k] == xs[k].v
  {
    seq(|xs|, k requires 0 <= k < |xs| => xs[k].v)
  }

  /** A loss as numpy computes it: a number, positive infinity, or NaN. */
  datatype LossVal = Num(v: real) | PosInf | NaN

  /** The order in which np.argmin ranks losses: a NaN comes first, then the
      numbers in their usual order, then infinity. */
  predicate LossLe(a: LossVal, b: LossVal)
  {
    match a
    case NaN => true
    case Num(x) => (b.Num? && x <= b.v) || b.PosInf?
    case PosInf => b.PosInf?
  }

  predicate LossLt(a: LossVal, b: LossVal)
  {
    LossLe(a, b) && !LossLe(b, a)
  }

  /** `LossLe` is a total preorder, which is what makes a first-index argmin well defined. */
  lemma LossLeTotalPreorder(a: LossVal, b: LossVal, c: LossVal)
    ensures LossLe(a, a)
    ensures LossLe(a, b) || LossLe(b, a)
    ensures LossLe(a, b) && LossLe(b, c) ==> LossLe(a, c)
  {
  }

  /** A square-root routine: non-negative on non-negative inputs, zero only at zero. */
  ghost predicate SqrtLike(sqrt: real -> real)
  {
    && sqrt(0.0) == 0.0
    && forall x: real :: 0.0 <= x ==> 0.0 <= sqrt(x) && (0.0 < x ==> 0.0 < sqrt(x))
  }

  lemma MulMono(x: nat, y: nat, n: nat)
    ensures x <= y ==> x * n <= y * n
  {
    if x <= y {
      assert y * n == x * n + (y - x) * n;
    }
  }

  lemma MulAtLeast(k: int, n: nat)
    ensures k >= 1 ==> k * n >= n
    ensures k <= -1 ==> k * n <= -(n as int)
  {
    if k >= 1 {
      assert k * n == n + (k - 1) * n;
    } else if k <= -1 {
      assert k * n == -(n as int) + (k + 1) * n;
      assert (k + 1) * n == -((-(k + 1)) * n);
    }
  }

  /** Integer division by a positive divisor has a unique quotient and remainder. */
  lemma DivModUnique(a: nat, n: nat, q: nat, r: nat)
    requires r < n && a == q * n + r
    ensures a / n == q && a % n == r
  {
    var q1 := a / n;
    var r1 := a % n;
    assert a == q1 * n + r1;
    assert (q - q1) * n == r1 - r;
    MulAtLeast(q - q1, n);
  }
}
