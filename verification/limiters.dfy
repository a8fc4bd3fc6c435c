/** The slope-limiter family: `_limit_vertices_by_all_neighbours`,
    `_limit_edges_by_all_neighbours`, `_limit_edges_by_neighbour`,
    `_limit_gradient_by_neighbour`, and the min/max envelope that `limit_old`
    precomputes for its legacy limiter.

    Every limiter follows one template. For each of a triangle's three
    deviations `dq` (vertex or edge value minus the centroid value `qc`) a
    ratio `r` is formed: `(qmax - qc)/dq` for a positive deviation,
    `(qmin - qc)/dq` for a negative one, and 1 for a zero one. The multiplier
    `phi` starts at 1 and is lowered to `min(r*beta, 1)` by every deviation;
    the values are then rewritten as `qc + phi*dq`. */
module Limiters {
  import opened Mesh
  import opened Interpolation

  /** An admissible interval [lo, hi] of values. */
  datatype Bounds = Bounds(lo: real, hi: real) {
    predicate Contains(q: real) {
      lo <= q <= hi
    }
  }

  predicate Within(t: Three<real>, env: Bounds) {
    env.Contains(t.0) && env.Contains(t.1) && env.Contains(t.2)
  }

  /** The centroid value across a neighbour-table entry; `None` at a boundary edge. */
  function NeighbourValue(c: seq<real>, n: int): (q: Option<real>)
    requires n < |c|
    ensures q.Some? <==> n >= 0
    ensures q.Some? ==> q.value == c[n]
  {
    if n >= 0 then Some(c[n]) else None
  }

  function NeighbourValues(c: seq<real>, nb: Three<int>): Three<Option<real>>
    requires ValidNeighbours(nb, |c|)
  {
    Three(NeighbourValue(c, nb.0), NeighbourValue(c, nb.1), NeighbourValue(c, nb.2))
  }

  function Widen(env: Bounds, q: Option<real>): Bounds {
    match q
    case None => env
    case Some(v) => Bounds(Min(env.lo, v), Max(env.hi, v))
  }

  /** The global envelope of triangle `k`: the smallest interval holding its own
      centroid value and those of all neighbours with a non-negative index. */
  function Envelope(qc: real, nb: Three<int>, c: seq<real>): (env: Bounds)
    requires ValidNeighbours(nb, |c|)
    ensures env.Contains(qc)
    ensures nb.0 >= 0 ==> env.Contains(c[nb.0])
    ensures nb.1 >= 0 ==> env.Contains(c[nb.1])
    ensures nb.2 >= 0 ==> env.Contains(c[nb.2])
    ensures env.lo == qc || (nb.0 >= 0 && env.lo == c[nb.0]) || (nb.1 >= 0 && env.lo == c[nb.1])
                         || (nb.2 >= 0 && env.lo == c[nb.2])
    ensures env.hi == qc || (nb.0 >= 0 && env.hi == c[nb.0]) || (nb.1 >= 0 && env.hi == c[nb.1])
                         || (nb.2 >= 0 && env.hi == c[nb.2])
  {
    Widen(Widen(Widen(Bounds(qc, qc), NeighbourValue(c, nb.0)), NeighbourValue(c, nb.1)), NeighbourValue(c, nb.2))
  }

  /** The per-edge envelope of `_limit_edges_by_neighbour`: own and neighbour's value only. */
  function LocalBounds(qc: real, qn: real): (env: Bounds)
    ensures env.Contains(qc) && env.Contains(qn)
    ensures env.lo == qc || env.lo == qn
    ensures env.hi == qc || env.hi == qn
  {
    Bounds(Min(qc, qn), Max(qc, qn))
  }

  // ---------------------------------------------------------------------
  // The limiter multiplier phi

  /** The ratio `r` of one deviation: the fraction of `dq` that reaches the
      envelope end on its side. A zero deviation is never divided by. */
  function Ratio(qc: real, env: Bounds, dq: real): (r: real)
    ensures dq == 0.0 ==> r == 1.0
    ensures env.Contains(qc) ==> 0.0 <= r
  {
    if dq > 0.0 then
      ScaleOrder(0.0, (env.hi - qc) / dq, dq);
      (env.hi - qc) / dq
    else if dq < 0.0 then
      ScaleOrder(0.0, (env.lo - qc) / dq, dq);
      (env.lo - qc) / dq
    else 1.0
  }

  /** Moving from `qc` by the ratio times a nonzero deviation lands exactly on
      the envelope end on the deviation's side. */
  lemma RatioReachesBound(qc: real, env: Bounds, dq: real)
    ensures dq > 0.0 ==> qc + Ratio(qc, env, dq) * dq == env.hi
    ensures dq < 0.0 ==> qc + Ratio(qc, env, dq) * dq == env.lo
  {
  }

  /** One step of the accumulation `phi = min(min(r*beta, 1), phi)`: it never
      raises phi and never leaves it above 1. */
  function Tighten(phi: real, beta: real, qc: real, env: Bounds, dq: real): (t: real)
    ensures t <= phi && t <= 1.0
  {
    Min(Min(Ratio(qc, env, dq) * beta, 1.0), phi)
  }

  /** `p` respects the beta-scaled envelope for deviation `dq`, in terms that
      do not divide. A zero deviation admits exactly the multipliers up to
      `beta`: its ratio stays at 1, so it still caps phi when beta < 1. */
  predicate Admissible(beta: real, qc: real, env: Bounds, dq: real, p: real) {
    if dq > 0.0 then p * dq <= beta * (env.hi - qc)
    else if dq < 0.0 then p * dq >= beta * (env.lo - qc)
    else p <= beta
  }

  lemma ScaleOrder(x: real, y: real, d: real)
    requires d != 0.0
    ensures d > 0.0 ==> (x <= y <==> x * d <= y * d)
    ensures d < 0.0 ==> (x <= y <==> x * d >= y * d)
  {
    if d > 0.0 {
      if x <= y { assert y * d - x * d == (y - x) * d; }
      else { assert x * d - y * d == (x - y) * d; }
    } else {
      if x <= y { assert x * d - y * d == (y - x) * (-d); }
      else { assert y * d - x * d == (x - y) * (-d); }
    }
  }

  /** `Tighten` lowers phi exactly to the largest admissible multiplier: `p`
      survives the step iff it is below the old phi, at most 1, and admissible. */
  lemma TightenIsLargest(phi: real, beta: real, qc: real, env: Bounds, dq: real, p: real)
    ensures p <= Tighten(phi, beta, qc, env, dq) <==> p <= phi && p <= 1.0 && Admissible(beta, qc, env, dq, p)
  {
    RatioBoundIsAdmissible(beta, qc, env, dq, p);
  }

  /** The ratio times beta is the division-free admissibility bound. */
  lemma RatioBoundIsAdmissible(beta: real, qc: real, env: Bounds, dq: real, p: real)
    ensures p <= Ratio(qc, env, dq) * beta <==> Admissible(beta, qc, env, dq, p)
  {
    if dq > 0.0 {
      var r := (env.hi - qc) / dq;
      assert r * dq == env.hi - qc;
      assert (r * beta) * dq == beta * (env.hi - qc);
      ScaleOrder(p, r * beta, dq);
    } else if dq < 0.0 {
      var r := (env.lo - qc) / dq;
      assert r * dq == env.lo - qc;
      assert (r * beta) * dq == beta * (env.lo - qc);
      ScaleOrder(p, r * beta, dq);
    }
  }

  lemma TightenNonNegative(phi: real, beta: real, qc: real, env: Bounds, dq: real)
    requires beta >= 0.0 && phi >= 0.0 && env.Contains(qc)
    ensures 0.0 <= Tighten(phi, beta, qc, env, dq) <= 1.0
  {
    ProductNonNegative(Ratio(qc, env, dq), beta);
  }

  /** The value reached by moving from `qc` by `p` times the deviation `dq` lies in `env`. */
  predicate StepInside(qc: real, env: Bounds, dq: real, p: real) {
    env.Contains(Step(qc, p, dq))
  }

  /** With 0 <= beta <= 1, an admissible non-negative multiplier keeps the
      limited value inside the envelope. */
  lemma AdmissibleStaysInside(beta: real, qc: real, env: Bounds, dq: real, p: real)
    requires 0.0 <= beta <= 1.0 && 0.0 <= p && env.Contains(qc)
    requires Admissible(beta, qc, env, dq, p)
    ensures StepInside(qc, env, dq, p)
  {
    if dq > 0.0 {
      var h := env.hi - qc;
      ProductNonNegative(1.0 - beta, h);
      assert (1.0 - beta) * h == h - beta * h;
      ProductNonNegative(p, dq);
    } else if dq < 0.0 {
      var l := qc - env.lo;
      ProductNonNegative(1.0 - beta, l);
      assert (1.0 - beta) * l == l - beta * l;
      assert beta * (env.lo - qc) == -(beta * l);
      ProductNonNegative(p, -dq);
      assert p * (-dq) == -(p * dq);
    } else {
      assert p * dq == 0.0;
    }
  }

  // ---------------------------------------------------------------------
  // All-neighbours template

  predicate AdmissibleAll(beta: real, qc: real, env: Bounds, d: Three<real>, p: real) {
    Admissible(beta, qc, env, d.0, p) && Admissible(beta, qc, env, d.1, p) && Admissible(beta, qc, env, d.2, p)
  }

  /** phi for one triangle against one envelope, accumulated over the three deviations in order. */
  function PhiAll(beta: real, qc: real, env: Bounds, d: Three<real>): (phi: real)
    ensures phi <= 1.0
    ensures beta >= 0.0 && env.Contains(qc) ==> 0.0 <= phi
  {
    var t0 := Tighten(1.0, beta, qc, env, d.0);
    var t1 := Tighten(t0, beta, qc, env, d.1);
    var t2 := Tighten(t1, beta, qc, env, d.2);
    if beta >= 0.0 && env.Contains(qc) then
      TightenNonNegative(1.0, beta, qc, env, d.0);
      TightenNonNegative(t0, beta, qc, env, d.1);
      TightenNonNegative(t1, beta, qc, env, d.2);
      t2
    else
      t2
  }

  /** phi is the largest multiplier that is at most 1 and admissible for all
      three deviations: no more limiting than the envelope demands. */
  lemma PhiAllIsLargest(beta: real, qc: real, env: Bounds, d: Three<real>, p: real)
    ensures p <= PhiAll(beta, qc, env, d) <==> p <= 1.0 && AdmissibleAll(beta, qc, env, d, p)
  {
    var t0 := Tighten(1.0, beta, qc, env, d.0);
    var t1 := Tighten(t0, beta, qc, env, d.1);
    TightenIsLargest(1.0, beta, qc, env, d.0, p);
    TightenIsLargest(t0, beta, qc, env, d.1, p);
    TightenIsLargest(t1, beta, qc, env, d.2, p);
  }

  function Deviations(qc: real, t: Three<real>): Three<real> {
    Three(t.0 - qc, t.1 - qc, t.2 - qc)
  }

  /** The value a multiplier `p` puts at deviation `dq` from `qc`. */
  function Step(qc: real, p: real, dq: real): real {
    qc + p * dq
  }

  function Rescale(qc: real, phi: real, d: Three<real>): Three<real> {
    Three(Step(qc, phi, d.0), Step(qc, phi, d.1), Step(qc, phi, d.2))
  }

  /** `lim` is `t` pulled toward `qc` by one common factor in [0, 1]: every
      deviation keeps its sign and none grows. */
  ghost predicate ShrinksToward(qc: real, t: Three<real>, lim: Three<real>) {
    exists phi :: 0.0 <= phi <= 1.0 && lim == Rescale(qc, phi, Deviations(qc, t))
  }

  /** A triangle's three values limited against one envelope. */
  function LimitAgainst(beta: real, qc: real, env: Bounds, t: Three<real>): (lim: Three<real>)
    requires env.Contains(qc)
    ensures beta >= 0.0 ==> ShrinksToward(qc, t, lim)
    ensures 0.0 <= beta <= 1.0 ==> Within(lim, env)
    ensures beta == 0.0 ==> lim == Three(qc, qc, qc)
    ensures beta >= 1.0 && Within(t, env) ==> lim == t
  {
    LimitAgainstFacts(beta, qc, env, t);
    Rescale(qc, PhiAll(beta, qc, env, Deviations(qc, t)), Deviations(qc, t))
  }

  lemma LimitAgainstFacts(beta: real, qc: real, env: Bounds, t: Three<real>)
    requires env.Contains(qc)
    ensures var lim := Rescale(qc, PhiAll(beta, qc, env, Deviations(qc, t)), Deviations(qc, t));
      && (beta >= 0.0 ==> ShrinksToward(qc, t, lim))
      && (0.0 <= beta <= 1.0 ==> Within(lim, env))
      && (beta == 0.0 ==> lim == Three(qc, qc, qc))
      && (beta >= 1.0 && Within(t, env) ==> lim == t)
  {
    var d := Deviations(qc, t);
    if beta >= 0.0 {
      var phi := PhiAll(beta, qc, env, d);
      assert 0.0 <= phi <= 1.0;
      assert ShrinksToward(qc, t, Rescale(qc, phi, d));
    }
    if 0.0 <= beta <= 1.0 {
      LimitedIsWithin(beta, qc, env, d);
    }
    if beta == 0.0 {
      ZeroBetaCollapses(qc, env, t);
    }
    if beta >= 1.0 && Within(t, env) {
      InsideIsFixed(beta, qc, env, t);
    }
  }

  /** With 0 <= beta <= 1 the limited values stay inside the envelope. */
  lemma LimitedIsWithin(beta: real, qc: real, env: Bounds, d: Three<real>)
    requires 0.0 <= beta <= 1.0 && env.Contains(qc)
    ensures Within(Rescale(qc, PhiAll(beta, qc, env, d), d), env)
  {
    PhiAllValueInside(beta, qc, env, d, 0);
    PhiAllValueInside(beta, qc, env, d, 1);
    PhiAllValueInside(beta, qc, env, d, 2);
    WithinOfSteps(qc, env, d, PhiAll(beta, qc, env, d));
  }

  /** phi is admissible for deviation i. */
  lemma PhiAllAdmitsValue(beta: real, qc: real, env: Bounds, d: Three<real>, i: nat)
    requires i < 3
    ensures Admissible(beta, qc, env, d.At(i), PhiAll(beta, qc, env, d))
  {
    PhiAllIsLargest(beta, qc, env, d, PhiAll(beta, qc, env, d));
  }

  lemma PhiAllValueInside(beta: real, qc: real, env: Bounds, d: Three<real>, i: nat)
    requires 0.0 <= beta <= 1.0 && env.Contains(qc) && i < 3
    ensures StepInside(qc, env, d.At(i), PhiAll(beta, qc, env, d))
  {
    PhiAllAdmitsValue(beta, qc, env, d, i);
    AdmissibleStaysInside(beta, qc, env, d.At(i), PhiAll(beta, qc, env, d));
  }

  lemma WithinOfSteps(qc: real, env: Bounds, d: Three<real>, p: real)
    requires StepInside(qc, env, d.0, p) && StepInside(qc, env, d.1, p) && StepInside(qc, env, d.2, p)
    ensures Within(Rescale(qc, p, d), env)
  {
  }

  /** beta = 0 drives every ratio's contribution to 0, whatever the deviations. */
  lemma ZeroBetaCollapses(qc: real, env: Bounds, t: Three<real>)
    requires env.Contains(qc)
    ensures Rescale(qc, PhiAll(0.0, qc, env, Deviations(qc, t)), Deviations(qc, t)) == Three(qc, qc, qc)
  {
    var d := Deviations(qc, t);
    assert Tighten(1.0, 0.0, qc, env, d.0) <= 0.0;
    assert PhiAll(0.0, qc, env, d) == 0.0;
  }

  /** Values already inside the envelope are admissible at phi = 1 when beta >= 1. */
  lemma InsideIsAdmissible(beta: real, qc: real, env: Bounds, dq: real)
    requires beta >= 1.0 && env.Contains(qc + dq)
    ensures Admissible(beta, qc, env, dq, 1.0)
  {
    if dq > 0.0 {
      ProductNonNegative(beta - 1.0, env.hi - qc);
    } else if dq < 0.0 {
      ProductNonNegative(beta - 1.0, qc - env.lo);
    }
  }

  lemma InsideIsFixed(beta: real, qc: real, env: Bounds, t: Three<real>)
    requires beta >= 1.0 && Within(t, env)
    ensures Rescale(qc, PhiAll(beta, qc, env, Deviations(qc, t)), Deviations(qc, t)) == t
  {
    var d := Deviations(qc, t);
    InsideIsAdmissible(beta, qc, env, d.0);
    InsideIsAdmissible(beta, qc, env, d.1);
    InsideIsAdmissible(beta, qc, env, d.2);
    PhiAllIsLargest(beta, qc, env, d, 1.0);
    assert PhiAll(beta, qc, env, d) == 1.0;
  }

  /** With beta = 1, limiting a second time changes nothing. */
  lemma LimitIsIdempotent(qc: real, env: Bounds, t: Three<real>)
    requires env.Contains(qc)
    ensures LimitAgainst(1.0, qc, env, LimitAgainst(1.0, qc, env, t)) == LimitAgainst(1.0, qc, env, t)
  {
  }

  /** Averaging two values of an interval stays in the interval, so the edges
      re-derived from limited vertices respect the same envelope. */
  lemma EdgesOfWithinAreWithin(v: Three<real>, env: Bounds)
    requires Within(v, env)
    ensures Within(VerticesToEdges(v), env)
  {
  }

  /** The edge limiters bound only the edges: vertices rebuilt from limited
      edges by the inverse map can leave the envelope. Vertices (2, -1, -1)
      around qc = 0 have edges (-1, 0.5, 0.5), already inside [-1, 1], so
      beta = 1 keeps them, and vertex 0 is rebuilt as 2. */
  lemma EdgeLimiterVertexLeavesEnvelope()
    ensures var env := Bounds(-1.0, 1.0);
            var e := LimitAgainst(1.0, 0.0, env, VerticesToEdges(Three(2.0, -1.0, -1.0)));
            Within(e, env) && EdgesToVertices(e).0 == 2.0 && !env.Contains(EdgesToVertices(e).0)
  {
    assert VerticesToEdges(Three(2.0, -1.0, -1.0)) == Three(-1.0, 0.5, 0.5);
    assert Within(Three(-1.0, 0.5, 0.5), Bounds(-1.0, 1.0));
  }

  // ---------------------------------------------------------------------
  // Per-edge template

  /** One step of the per-edge accumulation: only an edge with a neighbour
      lowers phi, and then never above 1. */
  function TightenEdge(phi: real, beta: real, qc: real, qn: Option<real>, dq: real): (t: real)
    ensures t <= phi
    ensures qn.None? ==> t == phi
    ensures qn.Some? ==> t <= 1.0
  {
    match qn
    case None => phi
    case Some(v) => Tighten(phi, beta, qc, LocalBounds(qc, v), dq)
  }

  /** phi for `_limit_edges_by_neighbour`: each edge constrains only through
      its own neighbour, and an edge without one does not constrain. */
  function PhiByNeighbour(beta: real, qc: real, qn: Three<Option<real>>, d: Three<real>): (phi: real)
    ensures phi <= 1.0
    ensures beta >= 0.0 ==> 0.0 <= phi
  {
    var t0 := TightenEdge(1.0, beta, qc, qn.0, d.0);
    var t1 := TightenEdge(t0, beta, qc, qn.1, d.1);
    var t2 := TightenEdge(t1, beta, qc, qn.2, d.2);
    if beta >= 0.0 then
      TightenEdgeNonNegative(1.0, beta, qc, qn.0, d.0);
      TightenEdgeNonNegative(t0, beta, qc, qn.1, d.1);
      TightenEdgeNonNegative(t1, beta, qc, qn.2, d.2);
      t2
    else
      t2
  }

  lemma TightenEdgeNonNegative(phi: real, beta: real, qc: real, qn: Option<real>, dq: real)
    requires beta >= 0.0 && 0.0 <= phi <= 1.0
    ensures 0.0 <= TightenEdge(phi, beta, qc, qn, dq) <= 1.0
  {
    if qn.Some? {
      TightenNonNegative(phi, beta, qc, LocalBounds(qc, qn.value), dq);
    }
  }

  /** An edge without a neighbour admits every multiplier. */
  predicate EdgeAdmissible(beta: real, qc: real, qn: Option<real>, dq: real, p: real) {
    qn.Some? ==> Admissible(beta, qc, LocalBounds(qc, qn.value), dq, p)
  }

  predicate AdmissibleByNeighbour(beta: real, qc: real, qn: Three<Option<real>>, d: Three<real>, p: real) {
    EdgeAdmissible(beta, qc, qn.0, d.0, p) && EdgeAdmissible(beta, qc, qn.1, d.1, p) && EdgeAdmissible(beta, qc, qn.2, d.2, p)
  }

  lemma TightenEdgeIsLargest(phi: real, beta: real, qc: real, qn: Option<real>, dq: real, p: real)
    ensures p <= TightenEdge(phi, beta, qc, qn, dq) <==>
      p <= phi && (qn.Some? ==> p <= 1.0) && EdgeAdmissible(beta, qc, qn, dq, p)
  {
    if qn.Some? {
      TightenIsLargest(phi, beta, qc, LocalBounds(qc, qn.value), dq, p);
    }
  }

  /** phi is the largest multiplier, at most 1, admissible for every edge that
      has a neighbour; edges without a neighbour impose nothing. */
  lemma PhiByNeighbourIsLargest(beta: real, qc: real, qn: Three<Option<real>>, d: Three<real>, p: real)
    ensures p <= PhiByNeighbour(beta, qc, qn, d) <==> p <= 1.0 && AdmissibleByNeighbour(beta, qc, qn, d, p)
  {
    var t0 := TightenEdge(1.0, beta, qc, qn.0, d.0);
    var t1 := TightenEdge(t0, beta, qc, qn.1, d.1);
    TightenEdgeIsLargest(1.0, beta, qc, qn.0, d.0, p);
    TightenEdgeIsLargest(t0, beta, qc, qn.1, d.1, p);
    TightenEdgeIsLargest(t1, beta, qc, qn.2, d.2, p);
  }

  /** A triangle's edge values limited edge by edge against its neighbours. */
  function LimitByNeighbour(beta: real, qc: real, qn: Three<Option<real>>, e: Three<real>): (lim: Three<real>)
    ensures beta >= 0.0 ==> ShrinksToward(qc, e, lim)
    ensures 0.0 <= beta <= 1.0 ==> WithinLocal(qc, qn, lim)
    ensures qn == Three(None, None, None) ==> lim == e
  {
    LimitByNeighbourFacts(beta, qc, qn, e);
    Rescale(qc, PhiByNeighbour(beta, qc, qn, Deviations(qc, e)), Deviations(qc, e))
  }

  lemma LimitByNeighbourFacts(beta: real, qc: real, qn: Three<Option<real>>, e: Three<real>)
    ensures var lim := Rescale(qc, PhiByNeighbour(beta, qc, qn, Deviations(qc, e)), Deviations(qc, e));
      && (beta >= 0.0 ==> ShrinksToward(qc, e, lim))
      && (0.0 <= beta <= 1.0 ==> WithinLocal(qc, qn, lim))
      && (qn == Three(None, None, None) ==> lim == e)
  {
    var d := Deviations(qc, e);
    var phi := PhiByNeighbour(beta, qc, qn, d);
    var lim := Rescale(qc, phi, d);
    if beta >= 0.0 {
      assert 0.0 <= phi <= 1.0;
      assert ShrinksToward(qc, e, lim);
    }
    if 0.0 <= beta <= 1.0 {
      LimitedIsWithinLocal(beta, qc, qn, d);
    }
    if qn == Three(None, None, None) {
      assert phi == 1.0;
      assert lim.0 == e.0 && lim.1 == e.1 && lim.2 == e.2;
    }
  }

  /** Every edge that has a neighbour lies between its own and the neighbour's centroid value. */
  predicate WithinLocal(qc: real, qn: Three<Option<real>>, e: Three<real>) {
    EdgeWithinLocal(qc, qn.0, e.0) && EdgeWithinLocal(qc, qn.1, e.1) && EdgeWithinLocal(qc, qn.2, e.2)
  }

  /** An edge value lies between its own and its neighbour's centroid value, if it has one. */
  predicate EdgeWithinLocal(qc: real, qn: Option<real>, x: real) {
    qn.Some? ==> LocalBounds(qc, qn.value).Contains(x)
  }

  /** With 0 <= beta <= 1 every edge that has a neighbour stays between the two centroid values. */
  lemma LimitedIsWithinLocal(beta: real, qc: real, qn: Three<Option<real>>, d: Three<real>)
    requires 0.0 <= beta <= 1.0
    ensures WithinLocal(qc, qn, Rescale(qc, PhiByNeighbour(beta, qc, qn, d), d))
  {
    PhiByNeighbourEdgeInside(beta, qc, qn, d, 0);
    PhiByNeighbourEdgeInside(beta, qc, qn, d, 1);
    PhiByNeighbourEdgeInside(beta, qc, qn, d, 2);
    WithinLocalOfSteps(qc, qn, d, PhiByNeighbour(beta, qc, qn, d));
  }

  /** phi is admissible for edge i. */
  lemma PhiByNeighbourAdmitsEdge(beta: real, qc: real, qn: Three<Option<real>>, d: Three<real>, i: nat)
    requires i < 3
    ensures EdgeAdmissible(beta, qc, qn.At(i), d.At(i), PhiByNeighbour(beta, qc, qn, d))
  {
    PhiByNeighbourIsLargest(beta, qc, qn, d, PhiByNeighbour(beta, qc, qn, d));
  }

  /** The step along an edge with a neighbour stays between the two centroid values. */
  predicate EdgeStepInside(qc: real, qn: Option<real>, dq: real, p: real) {
    qn.Some? ==> StepInside(qc, LocalBounds(qc, qn.value), dq, p)
  }

  lemma PhiByNeighbourEdgeInside(beta: real, qc: real, qn: Three<Option<real>>, d: Three<real>, i: nat)
    requires 0.0 <= beta <= 1.0 && i < 3
    ensures EdgeStepInside(qc, qn.At(i), d.At(i), PhiByNeighbour(beta, qc, qn, d))
  {
    PhiByNeighbourAdmitsEdge(beta, qc, qn, d, i);
    if qn.At(i).Some? {
      AdmissibleStaysInside(beta, qc, LocalBounds(qc, qn.At(i).value), d.At(i), PhiByNeighbour(beta, qc, qn, d));
    }
  }

  lemma WithinLocalOfSteps(qc: real, qn: Three<Option<real>>, d: Three<real>, p: real)
    requires EdgeStepInside(qc, qn.0, d.0, p) && EdgeStepInside(qc, qn.1, d.1, p) && EdgeStepInside(qc, qn.2, d.2, p)
    ensures WithinLocal(qc, qn, Rescale(qc, p, d))
  {
  }

  // ---------------------------------------------------------------------
  // The sweeps

  predicate ValidNeighbourTable(neighbours: seq<Three<int>>, n: nat) {
    forall k :: 0 <= k < |neighbours| ==> ValidNeighbours(neighbours[k], n)
  }

  /** `_limit_vertices_by_all_neighbours`: limits vertex deviations against the
      global envelope, then re-derives the edges from the limited vertices. */
  method LimitVerticesByAllNeighbours(beta: real, centroidValues: seq<real>, vertexValues: seq<Three<real>>,
                                      neighbours: seq<Three<int>>)
    returns (vertexOut: seq<Three<real>>, edgeOut: seq<Three<real>>)
    requires |vertexValues| == |neighbours| == |centroidValues|
    requires ValidNeighbourTable(neighbours, |centroidValues|)
    ensures |vertexOut| == |edgeOut| == |centroidValues|
    ensures forall k :: 0 <= k < |centroidValues| ==>
      vertexOut[k] == LimitAgainst(beta, centroidValues[k], Envelope(centroidValues[k], neighbours[k], centroidValues), vertexValues[k])
    ensures forall k :: 0 <= k < |centroidValues| ==> edgeOut[k] == VerticesToEdges(vertexOut[k])
    ensures 0.0 <= beta <= 1.0 ==> forall k :: 0 <= k < |centroidValues| ==>
      Within(vertexOut[k], Envelope(centroidValues[k], neighbours[k], centroidValues)) &&
      Within(edgeOut[k], Envelope(centroidValues[k], neighbours[k], centroidValues))
  {
    vertexOut, edgeOut := vertexValues, vertexValues;
    var k := 0;
    while k < |centroidValues|
      invariant 0 <= k <= |centroidValues|
      invariant |vertexOut| == |edgeOut| == |centroidValues|
      invariant forall j :: 0 <= j < k ==>
        vertexOut[j] == LimitAgainst(beta, centroidValues[j], Envelope(centroidValues[j], neighbours[j], centroidValues), vertexValues[j])
      invariant forall j :: 0 <= j < k ==> edgeOut[j] == VerticesToEdges(vertexOut[j])
      invariant 0.0 <= beta <= 1.0 ==> forall j :: 0 <= j < k ==>
        Within(edgeOut[j], Envelope(centroidValues[j], neighbours[j], centroidValues))
    {
      var qc := centroidValues[k];
      var env := Envelope(qc, neighbours[k], centroidValues);
      var v := LimitAgainst(beta, qc, env, vertexValues[k]);
      if 0.0 <= beta <= 1.0 {
        EdgesOfWithinAreWithin(v, env);
      }
      vertexOut := vertexOut[k := v];
      edgeOut := edgeOut[k := VerticesToEdges(v)];
      k := k + 1;
    }
  }

  /** `_limit_edges_by_all_neighbours`: limits edge deviations against the
      global envelope, then re-derives the vertices from the limited edges. */
  method LimitEdgesByAllNeighbours(beta: real, centroidValues: seq<real>, edgeValues: seq<Three<real>>,
                                   neighbours: seq<Three<int>>)
    returns (vertexOut: seq<Three<real>>, edgeOut: seq<Three<real>>)
    requires |edgeValues| == |neighbours| == |centroidValues|
    requires ValidNeighbourTable(neighbours, |centroidValues|)
    ensures |vertexOut| == |edgeOut| == |centroidValues|
    ensures forall k :: 0 <= k < |centroidValues| ==>
      edgeOut[k] == LimitAgainst(beta, centroidValues[k], Envelope(centroidValues[k], neighbours[k], centroidValues), edgeValues[k])
    ensures forall k :: 0 <= k < |centroidValues| ==> VerticesToEdges(vertexOut[k]) == edgeOut[k]
    ensures 0.0 <= beta <= 1.0 ==> forall k :: 0 <= k < |centroidValues| ==>
      Within(edgeOut[k], Envelope(centroidValues[k], neighbours[k], centroidValues))
  {
    vertexOut, edgeOut := edgeValues, edgeValues;
    var k := 0;
    while k < |centroidValues|
      invariant 0 <= k <= |centroidValues|
      invariant |vertexOut| == |edgeOut| == |centroidValues|
      invariant forall j :: 0 <= j < k ==>
        edgeOut[j] == LimitAgainst(beta, centroidValues[j], Envelope(centroidValues[j], neighbours[j], centroidValues), edgeValues[j])
      invariant forall j :: 0 <= j < k ==> vertexOut[j] == EdgesToVertices(edgeOut[j])
    {
      var qc := centroidValues[k];
      var env := Envelope(qc, neighbours[k], centroidValues);
      var e := LimitAgainst(beta, qc, env, edgeValues[k]);
      edgeOut := edgeOut[k := e];
      vertexOut := vertexOut[k := EdgesToVertices(e)];
      k := k + 1;
    }
  }

  /** `_limit_edges_by_neighbour`: each edge is limited against the envelope of
      its own and its neighbour's centroid value; the vertices are re-derived. */
  method LimitEdgesByNeighbour(beta: real, centroidValues: seq<real>, edgeValues: seq<Three<real>>,
                               neighbours: seq<Three<int>>)
    returns (vertexOut: seq<Three<real>>, edgeOut: seq<Three<real>>)
    requires |edgeValues| == |neighbours| == |centroidValues|
    requires ValidNeighbourTable(neighbours, |centroidValues|)
    ensures |vertexOut| == |edgeOut| == |centroidValues|
    ensures forall k :: 0 <= k < |centroidValues| ==>
      edgeOut[k] == LimitByNeighbour(beta, centroidValues[k], NeighbourValues(centroidValues, neighbours[k]), edgeValues[k])
    ensures forall k :: 0 <= k < |centroidValues| ==> VerticesToEdges(vertexOut[k]) == edgeOut[k]
    ensures 0.0 <= beta <= 1.0 ==> forall k, i :: 0 <= k < |centroidValues| && 0 <= i < 3 && neighbours[k].At(i) >= 0 ==>
      LocalBounds(centroidValues[k], centroidValues[neighbours[k].At(i)]).Contains(edgeOut[k].At(i))
  {
    vertexOut, edgeOut := edgeValues, edgeValues;
    var k := 0;
    while k < |centroidValues|
      invariant 0 <= k <= |centroidValues|
      invariant |vertexOut| == |edgeOut| == |centroidValues|
      invariant forall j :: 0 <= j < k ==>
        edgeOut[j] == LimitByNeighbour(beta, centroidValues[j], NeighbourValues(centroidValues, neighbours[j]), edgeValues[j])
      invariant forall j :: 0 <= j < k ==> vertexOut[j] == EdgesToVertices(edgeOut[j])
    {
      var qn := NeighbourValues(centroidValues, neighbours[k]);
      var e := LimitByNeighbour(beta, centroidValues[k], qn, edgeValues[k]);
      edgeOut := edgeOut[k := e];
      vertexOut := vertexOut[k := EdgesToVertices(e)];
      k := k + 1;
    }
    if 0.0 <= beta <= 1.0 {
      forall k, i | 0 <= k < |centroidValues| && 0 <= i < 3 && neighbours[k].At(i) >= 0
        ensures LocalBounds(centroidValues[k], centroidValues[neighbours[k].At(i)]).Contains(edgeOut[k].At(i))
      {
        var qn := NeighbourValues(centroidValues, neighbours[k]);
        assert WithinLocal(centroidValues[k], qn, edgeOut[k]);
      }
    }
  }

  /** `_limit_gradient_by_neighbour`: the same arithmetic as
      `_limit_edges_by_neighbour`; the gradient arrays are accepted but neither
      read nor written, so the result is that of `LimitEdgesByNeighbour`. */
  method LimitGradientByNeighbour(beta: real, centroidValues: seq<real>, edgeValues: seq<Three<real>>,
                                  xGradient: seq<real>, yGradient: seq<real>, neighbours: seq<Three<int>>)
    returns (vertexOut: seq<Three<real>>, edgeOut: seq<Three<real>>)
    requires |edgeValues| == |neighbours| == |centroidValues|
    requires ValidNeighbourTable(neighbours, |centroidValues|)
    ensures |vertexOut| == |edgeOut| == |centroidValues|
    ensures forall k :: 0 <= k < |centroidValues| ==>
      edgeOut[k] == LimitByNeighbour(beta, centroidValues[k], NeighbourValues(centroidValues, neighbours[k]), edgeValues[k])
    ensures forall k :: 0 <= k < |centroidValues| ==> VerticesToEdges(vertexOut[k]) == edgeOut[k]
  {
    vertexOut, edgeOut := LimitEdgesByNeighbour(beta, centroidValues, edgeValues, neighbours);
  }

  /** The qmin/qmax precompute of `limit_old`: per triangle, the global envelope
      of its own and its neighbours' centroid values. */
  method NeighbourEnvelopes(centroidValues: seq<real>, neighbours: seq<Three<int>>)
    returns (qmin: seq<real>, qmax: seq<real>)
    requires |neighbours| == |centroidValues|
    requires ValidNeighbourTable(neighbours, |centroidValues|)
    ensures |qmin| == |qmax| == |centroidValues|
    ensures forall k :: 0 <= k < |centroidValues| ==>
      Bounds(qmin[k], qmax[k]) == Envelope(centroidValues[k], neighbours[k], centroidValues)
    ensures forall k :: 0 <= k < |centroidValues| ==> qmin[k] <= centroidValues[k] <= qmax[k]
    ensures forall k, i :: 0 <= k < |centroidValues| && 0 <= i < 3 && neighbours[k].At(i) >= 0 ==>
      qmin[k] <= centroidValues[neighbours[k].At(i)] <= qmax[k]
  {
    qmin, qmax := [], [];
    var k := 0;
    while k < |centroidValues|
      invariant 0 <= k <= |centroidValues|
      invariant |qmin| == |qmax| == k
      invariant forall j :: 0 <= j < k ==> Bounds(qmin[j], qmax[j]) == Envelope(centroidValues[j], neighbours[j], centroidValues)
    {
      var env := Envelope(centroidValues[k], neighbours[k], centroidValues);
      qmin, qmax := qmin + [env.lo], qmax + [env.hi];
      k := k + 1;
    }
    forall k, i | 0 <= k < |centroidValues| && 0 <= i < 3 && neighbours[k].At(i) >= 0
      ensures qmin[k] <= centroidValues[neighbours[k].At(i)] <= qmax[k]
    {
      EnvelopeHoldsNeighbour(centroidValues[k], neighbours[k], centroidValues, i);
    }
  }

  /** The envelope holds the value across every edge that has a neighbour. */
  lemma EnvelopeHoldsNeighbour(qc: real, nb: Three<int>, c: seq<real>, i: nat)
    requires ValidNeighbours(nb, |c|) && i < 3
    ensures nb.At(i) >= 0 ==> Envelope(qc, nb, c).Contains(c[nb.At(i)])
  {
  }
}
