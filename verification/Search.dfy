/** The stochastic local search that fits an ellipticity and a position angle to
    every radius. Each pass visits the radii in a freshly shuffled order; at a
    radius it compares the current profile with five random perturbations of
    that radius alone and keeps the best one. The search stops after 300
    passes or once three passes' worth of radius visits in a row changed
    nothing. */
module Search {
  import opened Common
  import opened Loss

  /** Spread of the random step applied to the transformed ellipticity. */
  const EllipStep: real := 0.03
  /** Spread of the random step applied to the position angle. */
  const PaStep: real := 0.06
  /** Number of random perturbations tried at each radius visit. */
  const NumPerturb: nat := 5
  /** Most passes the search makes. */
  const MaxPasses: nat := 300
  /** The search stops once this many passes' worth of visits changed nothing. */
  const StallPasses: nat := 3

  /** The ellipticity and position angle at every radius. */
  datatype Profile = Profile(ellip: seq<real>, pa: seq<real>)
  {
    predicate Shaped(n: nat)
    {
      |ellip| == n && |pa| == n
    }
  }

  /** The search state: the current profile and the number of radius visits
      since the last change. */
  datatype State = State(prof: Profile, nochange: nat)

  /** The random numbers the search consumes: the shuffle of the visiting order
      on each pass, and the standard normal draws for the ellipticity and angle
      steps of perturbation `k` at radius `i` on pass `count`. */
  datatype Draws = Draws(
    shuffle: (nat, seq<nat>) -> seq<nat>,
    ellipZ: (nat, nat, nat) -> real,
    paZ: (nat, nat, nat) -> real)
  {
    /** A shuffle only reorders. */
    ghost predicate Valid()
    {
      forall count: nat, order: seq<nat> :: multiset(shuffle(count, order)) == multiset(order)
    }

    lemma ShuffleKeeps(count: nat, order: seq<nat>, n: nat)
      requires Valid()
      requires forall k :: 0 <= k < |order| ==> order[k] < n
      ensures |shuffle(count, order)| == |order|
      ensures forall k :: 0 <= k < |shuffle(count, order)| ==> shuffle(count, order)[k] < n
    {
      var o := shuffle(count, order);
      assert multiset(o) == multiset(order);
      assert |o| == |multiset(o)| == |multiset(order)| == |order|;
      forall k | 0 <= k < |o|
        ensures o[k] < n
      {
        assert o[k] in multiset(o);
        assert o[k] in multiset(order);
        assert o[k] in order;
      }
    }
  }

  /** Pass `count` steps the ellipticity when `count % 3` is 0 or 1. */
  predicate PerturbsEllip(count: nat)
  {
    count % 3 == 0 || count % 3 == 1
  }

  /** Pass `count` steps the position angle when `count % 3` is 1 or 2. */
  predicate PerturbsPa(count: nat)
  {
    count % 3 == 1 || count % 3 == 2
  }

  /** Every pass perturbs at least one parameter, and both exactly on every
      third pass starting with the first. */
  lemma PerturbModes(count: nat)
    ensures PerturbsEllip(count) || PerturbsPa(count)
    ensures PerturbsEllip(count) && PerturbsPa(count) <==> count % 3 == 1
  {
  }

  /** Every position angle is either the one the profile started with or a
      value the search produced, which lies in [0, pi). */
  predicate PaOk(pa: seq<real>, pa0: seq<real>)
  {
    |pa| == |pa0| && forall k :: 0 <= k < |pa| ==> pa[k] == pa0[k] || 0.0 <= pa[k] < Pi
  }

  /** A profile the search may hold: right length, ellipticities in [0, 1), and
      angles as `PaOk` allows. */
  predicate Admissible(p: Profile, pa0: seq<real>)
  {
    p.Shaped(|pa0|) && EllipOk(p.ellip) && PaOk(p.pa, pa0)
  }

  /** `q` differs from `p` at most at radius `i`, keeps its ellipticities in
      [0, 1), and any new angle at `i` lies in [0, pi). */
  predicate PerturbedAt(p: Profile, q: Profile, i: nat)
  {
    && i < |p.ellip| && q.Shaped(|p.ellip|) && |p.pa| == |p.ellip| && EllipOk(q.ellip)
    && q.ellip == p.ellip[i := q.ellip[i]] && q.pa == p.pa[i := q.pa[i]]
    && (q.pa[i] == p.pa[i] || 0.0 <= q.pa[i] < Pi)
  }

  /** One perturbation of radius `i`: a normal step in the transformed
      ellipticity and a normal step in the angle, taken modulo pi, each only
      on the passes that perturb that parameter. */
  function Perturb(env: FitEnv, p: Profile, i: nat, count: nat, ze: real, zp: real): (q: Profile)
    requires i < |p.ellip| && p.Shaped(|p.ellip|)
    requires env.Valid() && EllipOk(p.ellip)
    ensures PerturbedAt(p, q, i)
    ensures !PerturbsEllip(count) ==> q.ellip == p.ellip
    ensures !PerturbsPa(count) ==> q.pa == p.pa
    ensures PerturbsPa(count) ==> 0.0 <= q.pa[i] < Pi
  {
    var e := if PerturbsEllip(count) then p.ellip[i := env.toEps(env.fromEps(p.ellip[i]) + EllipStep * ze)] else p.ellip;
    var a := if PerturbsPa(count) then p.pa[i := FMod(p.pa[i] + PaStep * zp, Pi)] else p.pa;
    Profile(e, a)
  }

  /** The six profiles compared at a radius visit: the current one first, then
      the five perturbations. */
  function Candidates(env: FitEnv, draws: Draws, p: Profile, i: nat, count: nat): (cs: seq<Profile>)
    requires i < |p.ellip| && p.Shaped(|p.ellip|)
    requires env.Valid() && EllipOk(p.ellip)
    ensures |cs| == NumPerturb + 1 && cs[0] == p
    ensures forall k :: 0 <= k < |cs| ==> PerturbedAt(p, cs[k], i)
  {
    var ps := seq(NumPerturb, k requires 0 <= k < NumPerturb =>
      Perturb(env, p, i, count, draws.ellipZ(count, i, k), draws.paZ(count, i, k)));
    assert PerturbedAt(p, p, i) by {
      assert p.ellip == p.ellip[i := p.ellip[i]] && p.pa == p.pa[i := p.pa[i]];
    }
    var cs := [p] + ps;
    forall k | 1 <= k < |cs|
      ensures PerturbedAt(p, cs[k], i)
    {
      assert cs[k] == ps[k - 1] == Perturb(env, p, i, count, draws.ellipZ(count, i, k - 1), draws.paZ(count, i, k - 1));
    }
    cs
  }

  /** The loss of each candidate at radius `i`. */
  function Losses(env: FitEnv, v: Variant, r: seq<real>, cs: seq<Profile>, i: nat, weight: real): (ls: seq<LossVal>)
    requires env.Valid() && i < |r| && 0.0 <= weight
    requires forall k :: 0 <= k < |cs| ==> |cs[k].ellip| == |r| && |cs[k].pa| == |r| && EllipOk(cs[k].ellip)
    ensures |ls| == |cs|
    ensures forall k :: 0 <= k < |cs| ==> ls[k] == FitLoss(env, v, r, cs[k].ellip, cs[k].pa, i, weight)
  {
    seq(|cs|, k requires 0 <= k < |cs| => FitLoss(env, v, r, cs[k].ellip, cs[k].pa, i, weight))
  }

  /** `ArgMin` scanned from `k` on, with `best` the first minimum of `ls[..k]`. */
  function ArgMinFrom(ls: seq<LossVal>, best: nat, k: nat): (b: nat)
    requires best < k <= |ls|
    requires forall j :: 0 <= j < k ==> LossLe(ls[best], ls[j])
    requires forall j :: 0 <= j < best ==> LossLt(ls[best], ls[j])
    ensures b < |ls|
    ensures forall j :: 0 <= j < |ls| ==> LossLe(ls[b], ls[j])
    ensures forall j :: 0 <= j < b ==> LossLt(ls[b], ls[j])
    decreases |ls| - k
  {
    if k == |ls| then best
    else if LossLt(ls[k], ls[best]) then
      NewMinimum(ls, best, k);
      ArgMinFrom(ls, k, k + 1)
    else
      ArgMinFrom(ls, best, k + 1)
  }

  /** An entry strictly below the running minimum is strictly below everything before it. */
  lemma NewMinimum(ls: seq<LossVal>, best: nat, k: nat)
    requires best < k < |ls| && LossLt(ls[k], ls[best])
    requires forall j :: 0 <= j < k ==> LossLe(ls[best], ls[j])
    ensures forall j :: 0 <= j < k ==> LossLt(ls[k], ls[j])
  {
    forall j | 0 <= j < k
      ensures LossLt(ls[k], ls[j])
    {
      LossLeTotalPreorder(ls[k], ls[best], ls[j]);
      LossLeTotalPreorder(ls[j], ls[k], ls[best]);
    }
  }

  /** `np.argmin`: the first index holding a least loss, a NaN counting as least. */
  function ArgMin(ls: seq<LossVal>): (b: nat)
    requires |ls| >= 1
    ensures b < |ls|
    ensures forall j :: 0 <= j < |ls| ==> LossLe(ls[b], ls[j])
    ensures forall j :: 0 <= j < b ==> LossLt(ls[b], ls[j])
  {
    ArgMinFrom(ls, 0, 1)
  }

  /** The first-minimum characterisation pins `ArgMin` down: no other index
      has it. */
  lemma ArgMinUnique(ls: seq<LossVal>, b: nat)
    requires b < |ls|
    requires forall j :: 0 <= j < |ls| ==> LossLe(ls[b], ls[j])
    requires forall j :: 0 <= j < b ==> LossLt(ls[b], ls[j])
    ensures ArgMin(ls) == b
  {
    var a := ArgMin(ls);
    assert LossLe(ls[a], ls[b]) && LossLe(ls[b], ls[a]);
  }

  /** The current profile (index 0) loses the selection exactly when some
      perturbation is strictly better; ties go to the current profile. */
  lemma ArgMinMoves(ls: seq<LossVal>)
    requires |ls| >= 1
    ensures ArgMin(ls) > 0 <==> exists k :: 1 <= k < |ls| && LossLt(ls[k], ls[0])
  {
    var b := ArgMin(ls);
    if b > 0 {
      assert LossLt(ls[b], ls[0]);
    } else {
      forall k | 1 <= k < |ls|
        ensures !LossLt(ls[k], ls[0])
      {
        assert LossLe(ls[0], ls[k]);
      }
    }
  }

  /** One radius visit: build the candidates, and if one of the perturbations
      beats the current profile strictly, commit the first best one and reset
      the stall counter; otherwise keep the profile and count one more visit
      without change. */
  function Step(env: FitEnv, v: Variant, draws: Draws, r: seq<real>, s: State, i: nat, count: nat, weight: real): (s': State)
    requires env.Valid() && i < |r| && 0.0 <= weight
    requires s.prof.Shaped(|r|) && EllipOk(s.prof.ellip)
    ensures s'.prof.Shaped(|r|) && EllipOk(s'.prof.ellip)
    ensures var cs := Candidates(env, draws, s.prof, i, count);
      var ls := Losses(env, v, r, cs, i, weight);
      if exists k :: 1 <= k < |ls| && LossLt(ls[k], ls[0]) then
        && s'.nochange == 0
        && s'.prof == cs[ArgMin(ls)]
        && (forall k :: 0 <= k < |ls| ==> LossLe(ls[ArgMin(ls)], ls[k]))
      else
        s' == State(s.prof, s.nochange + 1)
    ensures s'.prof.ellip == s.prof.ellip[i := s'.prof.ellip[i]]
    ensures s'.prof.pa == s.prof.pa[i := s'.prof.pa[i]]
    ensures s'.prof.pa[i] == s.prof.pa[i] || 0.0 <= s'.prof.pa[i] < Pi
  {
    var cs := Candidates(env, draws, s.prof, i, count);
    var ls := Losses(env, v, r, cs, i, weight);
    var best := ArgMin(ls);
    ArgMinMoves(ls);
    if best > 0 then State(cs[best], 0) else State(s.prof, s.nochange + 1)
  }

  /** Every radius index in the visiting order is a valid index. */
  predicate OrderOk(order: seq<nat>, n: nat)
  {
    forall k :: 0 <= k < |order| ==> order[k] < n
  }

  /** One pass: a visit to each radius in `order`. Either the pass changed
      nothing and the stall counter grew by the length of the pass, or the
      counter is below the length of the pass (it was reset on the way). */
  function RunPass(env: FitEnv, v: Variant, draws: Draws, r: seq<real>, s: State, order: seq<nat>, count: nat, weight: real, pa0: seq<real>): (s': State)
    requires env.Valid() && 0.0 <= weight && OrderOk(order, |r|)
    requires Admissible(s.prof, pa0) && |pa0| == |r|
    ensures Admissible(s'.prof, pa0)
    ensures (s'.nochange == s.nochange + |order| && s'.prof == s.prof) || s'.nochange < |order|
    decreases |order|
  {
    if |order| == 0 then s
    else
      var t := Step(env, v, draws, r, s, order[0], count, weight);
      RunPass(env, v, draws, r, t, order[1..], count, weight, pa0)
  }

  /** The fitting loop from pass `count` on: while fewer than 300 passes are
      done and the stall counter is below three times the number of radii,
      shuffle the order and make one more pass. Gives the final state and pass
      count. */
  function Run(env: FitEnv, v: Variant, draws: Draws, r: seq<real>, s: State, order: seq<nat>, count: nat, weight: real, pa0: seq<real>): (res: (State, nat))
    requires env.Valid() && draws.Valid() && 0.0 <= weight && OrderOk(order, |r|)
    requires Admissible(s.prof, pa0) && |pa0| == |r| && count <= MaxPasses
    ensures Admissible(res.0.prof, pa0)
    ensures count <= res.1 <= MaxPasses
    ensures res.1 == MaxPasses || res.0.nochange >= StallPasses * |r|
    decreases MaxPasses - count
  {
    if count < MaxPasses && s.nochange < StallPasses * |r| then
      var c := count + 1;
      var o := draws.shuffle(c, order);
      draws.ShuffleKeeps(c, order, |r|);
      Run(env, v, draws, r, RunPass(env, v, draws, r, s, o, c, RegWeight(c, weight), pa0), o, c, weight, pa0)
    else
      (s, count)
  }

  lemma RunUnfold(env: FitEnv, v: Variant, draws: Draws, r: seq<real>, s: State, order: seq<nat>, count: nat, weight: real, pa0: seq<real>)
    requires env.Valid() && draws.Valid() && 0.0 <= weight && OrderOk(order, |r|)
    requires Admissible(s.prof, pa0) && |pa0| == |r| && count < MaxPasses
    requires s.nochange < StallPasses * |r|
    ensures var o := draws.shuffle(count + 1, order);
      && OrderOk(o, |r|)
      && Run(env, v, draws, r, s, order, count, weight, pa0)
         == Run(env, v, draws, r, RunPass(env, v, draws, r, s, o, count + 1, RegWeight(count + 1, weight), pa0), o, count + 1, weight, pa0)
  {
    draws.ShuffleKeeps(count + 1, order, |r|);
  }

  /** The visiting order before the first shuffle: 0, 1, ..., n-1. */
  function Identity(n: nat): (order: seq<nat>)
    ensures |order| == n && OrderOk(order, n)
    ensures forall k :: 0 <= k < n ==> order[k] == k
  {
    seq(n, k => k)
  }

  /** The state of the fitting loop before pass `count + 1`: the loop has not
      run past its bound, the order is a valid visiting order, the profile is
      admissible, nothing has been counted before the first pass, and running
      the rest of the loop from here still ends in `goal`. */
  ghost predicate Tracks(env: FitEnv, v: Variant, draws: Draws, r: seq<real>, s: State, order: seq<nat>, count: nat,
                         weight: real, pa0: seq<real>, goal: (State, nat))
  {
    && env.Valid() && draws.Valid() && 0.0 <= weight && |pa0| == |r|
    && count <= MaxPasses && OrderOk(order, |r|) && Admissible(s.prof, pa0)
    && (count == 0 ==> s.nochange == 0)
    && Run(env, v, draws, r, s, order, count, weight, pa0) == goal
  }

  /** The loop starts on track towards the run from pass 0. */
  lemma TracksInit(env: FitEnv, v: Variant, draws: Draws, r: seq<real>, init: Profile, weight: real)
    requires env.Valid() && draws.Valid() && 0.0 <= weight
    requires init.Shaped(|r|) && EllipOk(init.ellip)
    ensures Admissible(init, init.pa) && OrderOk(Identity(|r|), |r|)
    ensures Tracks(env, v, draws, r, State(init, 0), Identity(|r|), 0, weight, init.pa,
                   Run(env, v, draws, r, State(init, 0), Identity(|r|), 0, weight, init.pa))
  {
  }

  /** One more pass, with the shuffled order, keeps the loop on track. */
  lemma TracksStep(env: FitEnv, v: Variant, draws: Draws, r: seq<real>, s: State, order: seq<nat>, count: nat,
                   weight: real, pa0: seq<real>, goal: (State, nat))
    requires Tracks(env, v, draws, r, s, order, count, weight, pa0, goal)
    requires count < MaxPasses && s.nochange < StallPasses * |r|
    ensures var o := draws.shuffle(count + 1, order);
      && OrderOk(o, |r|)
      && Tracks(env, v, draws, r, RunPass(env, v, draws, r, s, o, count + 1, RegWeight(count + 1, weight), pa0), o, count + 1, weight, pa0, goal)
  {
    RunUnfold(env, v, draws, r, s, order, count, weight, pa0);
  }

  /** One iteration of the fitting loop as written: shuffle, count the pass,
      and visit every radius. */
  method Advance(env: FitEnv, v: Variant, draws: Draws, r: seq<real>, s: State, order: seq<nat>, count: nat,
                 weight: real, pa0: seq<real>, ghost goal: (State, nat))
    returns (s': State, order': seq<nat>, count': nat)
    requires Tracks(env, v, draws, r, s, order, count, weight, pa0, goal)
    requires count < MaxPasses && s.nochange < StallPasses * |r|
    ensures count' == count + 1
    ensures Tracks(env, v, draws, r, s', order', count', weight, pa0, goal)
  {
    TracksStep(env, v, draws, r, s, order, count, weight, pa0, goal);
    order' := draws.shuffle(count + 1, order);
    count' := count + 1;
    s' := Pass(env, v, draws, r, s, order', count', RegWeight(count', weight), pa0);
  }

  /** When the loop condition fails, the loop has reached its goal. */
  lemma TracksDone(env: FitEnv, v: Variant, draws: Draws, r: seq<real>, s: State, order: seq<nat>, count: nat,
                   weight: real, pa0: seq<real>, goal: (State, nat))
    requires Tracks(env, v, draws, r, s, order, count, weight, pa0, goal)
    requires !(count < MaxPasses && s.nochange < StallPasses * |r|)
    ensures goal == (s, count)
  {
  }

  /** The fitting loop as written: it computes `Run` from pass 0 with the
      identity order and a zero stall counter. */
  method Fit(env: FitEnv, v: Variant, draws: Draws, r: seq<real>, init: Profile, weight: real) returns (p: Profile, count: nat)
    requires env.Valid() && draws.Valid() && 0.0 <= weight
    requires init.Shaped(|r|) && EllipOk(init.ellip)
    ensures var res := Run(env, v, draws, r, State(init, 0), Identity(|r|), 0, weight, init.pa);
      p == res.0.prof && count == res.1
    ensures Admissible(p, init.pa) && count <= MaxPasses
    ensures 0 < |r| ==> 0 < count
  {
    var s := State(init, 0);
    var order := Identity(|r|);
    count := 0;
    ghost var goal := Run(env, v, draws, r, s, order, count, weight, init.pa);
    TracksInit(env, v, draws, r, init, weight);
    while count < MaxPasses && s.nochange < StallPasses * |r|
      invariant Tracks(env, v, draws, r, s, order, count, weight, init.pa, goal)
      decreases MaxPasses - count
    {
      s, order, count := Advance(env, v, draws, r, s, order, count, weight, init.pa, goal);
    }
    TracksDone(env, v, draws, r, s, order, count, weight, init.pa, goal);
    p := s.prof;
  }

  /** One pass as written: a loop over the visiting order. It computes `RunPass`. */
  method Pass(env: FitEnv, v: Variant, draws: Draws, r: seq<real>, s0: State, order: seq<nat>, count: nat, weight: real, pa0: seq<real>) returns (s: State)
    requires env.Valid() && 0.0 <= weight && OrderOk(order, |r|)
    requires Admissible(s0.prof, pa0) && |pa0| == |r|
    ensures s == RunPass(env, v, draws, r, s0, order, count, weight, pa0)
  {
    s := s0;
    var k := 0;
    while k < |order|
      invariant k <= |order| && Admissible(s.prof, pa0)
      invariant RunPass(env, v, draws, r, s, order[k..], count, weight, pa0) == RunPass(env, v, draws, r, s0, order, count, weight, pa0)
    {
      assert order[k..][1..] == order[k + 1..];
      s := Step(env, v, draws, r, s, order[k], count, weight);
      k := k + 1;
    }
  }
}
