/** `_compute_gradients`: chooses, per triangle, which surrogate neighbours
    feed a planar fit, and aborts the whole sweep with -1 on the first triangle
    whose surrogate table is degenerate.

    The two fitting formulas (`_gradient` for three points, `_gradient2` for
    two) live in a header that is not part of this model; they are parameters
    here, so every statement below holds whatever they compute. */
module Gradients {
  import opened Mesh

  /** Three-point fit: centroids and centroid values of k0, k1, k2, in that order. */
  type ThreePointFit = (Point, Point, Point, real, real, real) -> Gradient

  /** Two-point fit: the neighbour's centroid and value first, then the triangle's own. */
  type TwoPointFit = (Point, Point, real, real) -> Gradient

  /** Which surrogate neighbours, if any, a triangle's gradient is fitted through. */
  datatype Stencil =
    | ThreePoint(k0: int, k1: int, k2: int)
    | TwoPoint(k0: int)
    | FirstOrder
    | Degenerate

  /** The scan for the one true neighbour: the first surrogate slot at or after
      `i` that differs from `k`, or `k` itself when every such slot is `k`. */
  function FirstOther(k: int, sn: Three<int>, i: nat): (r: int)
    requires i <= 3
    decreases 3 - i
    ensures r == k <==> forall j :: i <= j < 3 ==> sn.At(j) == k
    ensures r != k ==> exists j :: i <= j < 3 && sn.At(j) == r && forall l :: i <= l < j ==> sn.At(l) == k
  {
    if i == 3 then k
    else if sn.At(i) != k then sn.At(i)
    else FirstOther(k, sn, i + 1)
  }

  /** The stencil of triangle `k` with `nb` boundary edges. */
  function SelectStencil(k: int, nb: int, sn: Three<int>): (st: Stencil)
    ensures st.Degenerate? <==>
      (nb < 2 && (sn.0 == sn.1 || sn.1 == sn.2)) || (nb == 2 && sn.0 == k && sn.1 == k && sn.2 == k)
    ensures st.FirstOrder? <==> nb > 2
    ensures st.ThreePoint? ==> nb < 2 && st == ThreePoint(sn.0, sn.1, sn.2)
    ensures st.TwoPoint? ==> nb == 2 && st.k0 != k && (st.k0 == sn.0 || st.k0 == sn.1 || st.k0 == sn.2)
    ensures st.TwoPoint? ==>
      exists j :: 0 <= j < 3 && sn.At(j) == st.k0 && forall l :: 0 <= l < j ==> sn.At(l) == k
  {
    if nb < 2 then
      if sn.0 == sn.1 || sn.1 == sn.2 then Degenerate else ThreePoint(sn.0, sn.1, sn.2)
    else if nb == 2 then
      var k0 := FirstOther(k, sn, 0);
      if k0 == k then Degenerate else TwoPoint(k0)
    else
      FirstOrder
  }

  /** Stencils that produce a fit (neither first order nor degenerate). */
  predicate Fits(st: Stencil) {
    st.ThreePoint? || st.TwoPoint?
  }

  /** The gradient the fit produces for triangle `k` through the stencil its
      boundary count and surrogate slots select: with fewer than 2 boundary
      edges, the three-point fit through the three surrogate slots in order;
      with exactly 2, the two-point fit through the first slot that is another
      triangle, paired with the triangle's own centroid and value. */
  function FitGradient(k: nat, nb: int, sn: Three<int>, centroids: seq<Point>, values: seq<real>,
                       fit3: ThreePointFit, fit2: TwoPointFit): (g: Gradient)
    requires |centroids| == |values| && k < |values|
    requires ValidSurrogates(sn, |values|)
    requires Fits(SelectStencil(k, nb, sn))
    ensures nb < 2 ==>
      g == fit3(centroids[sn.0], centroids[sn.1], centroids[sn.2], values[sn.0], values[sn.1], values[sn.2])
    ensures nb == 2 ==>
      exists j :: 0 <= j < 3 && sn.At(j) != k && (forall l :: 0 <= l < j ==> sn.At(l) == k) &&
        g == fit2(centroids[sn.At(j)], centroids[k], values[sn.At(j)], values[k])
  {
    match SelectStencil(k, nb, sn)
    case ThreePoint(k0, k1, k2) =>
      fit3(centroids[k0], centroids[k1], centroids[k2], values[k0], values[k1], values[k2])
    case TwoPoint(k0) =>
      fit2(centroids[k0], centroids[k], values[k0], values[k])
  }

  /** The first triangle at or after `from` whose stencil is degenerate, or the
      triangle count when there is none. */
  function FirstDegenerate(boundaries: seq<int>, surrogates: seq<Three<int>>, from: nat): (r: nat)
    requires |boundaries| == |surrogates| && from <= |boundaries|
    decreases |boundaries| - from
    ensures from <= r <= |boundaries|
    ensures forall j :: from <= j < r ==> !SelectStencil(j, boundaries[j], surrogates[j]).Degenerate?
    ensures r < |boundaries| ==> SelectStencil(r, boundaries[r], surrogates[r]).Degenerate?
  {
    if from == |boundaries| then from
    else if SelectStencil(from, boundaries[from], surrogates[from]).Degenerate? then from
    else FirstDegenerate(boundaries, surrogates, from + 1)
  }

  /** Status 0 or -1 (the source's return codes) and the gradient arrays as
      they stand when the sweep stops. */
  datatype GradientOutcome = GradientOutcome(status: int, a: seq<real>, b: seq<real>)

  method ComputeGradients(centroids: seq<Point>, centroidValues: seq<real>,
                          numberOfBoundaries: seq<int>, surrogateNeighbours: seq<Three<int>>,
                          a: seq<real>, b: seq<real>, fit3: ThreePointFit, fit2: TwoPointFit)
    returns (r: GradientOutcome)
    requires |centroids| == |centroidValues| == |numberOfBoundaries| == |surrogateNeighbours| == |a| == |b|
    requires forall k :: 0 <= k < |surrogateNeighbours| ==> ValidSurrogates(surrogateNeighbours[k], |centroidValues|)
    ensures |r.a| == |a| && |r.b| == |b|
    // -1 exactly when some triangle's surrogate table is degenerate
    ensures r.status == (if FirstDegenerate(numberOfBoundaries, surrogateNeighbours, 0) < |a| then -1 else 0)
    // a triangle is fitted through its stencil exactly when it has one and the
    // sweep reaches it; every other triangle keeps its old gradient
    ensures forall k :: 0 <= k < |a| ==>
      Gradient(r.a[k], r.b[k]) ==
        if k < FirstDegenerate(numberOfBoundaries, surrogateNeighbours, 0) &&
           Fits(SelectStencil(k, numberOfBoundaries[k], surrogateNeighbours[k]))
        then FitGradient(k, numberOfBoundaries[k], surrogateNeighbours[k], centroids, centroidValues, fit3, fit2)
        else Gradient(a[k], b[k])
    // in particular a triangle with three or more boundary edges keeps its gradient
    ensures forall k :: 0 <= k < |a| && numberOfBoundaries[k] > 2 ==> r.a[k] == a[k] && r.b[k] == b[k]
  {
    var ga, gb := a, b;
    var k := 0;
    while k < |centroidValues|
      invariant 0 <= k <= |centroidValues|
      invariant |ga| == |a| && |gb| == |b|
      invariant FirstDegenerate(numberOfBoundaries, surrogateNeighbours, 0) ==
                FirstDegenerate(numberOfBoundaries, surrogateNeighbours, k)
      invariant forall j :: 0 <= j < k ==>
        Gradient(ga[j], gb[j]) ==
          if Fits(SelectStencil(j, numberOfBoundaries[j], surrogateNeighbours[j]))
          then FitGradient(j, numberOfBoundaries[j], surrogateNeighbours[j], centroids, centroidValues, fit3, fit2)
          else Gradient(a[j], b[j])
      invariant forall j :: k <= j < |a| ==> ga[j] == a[j] && gb[j] == b[j]
    {
      var st := SelectStencil(k, numberOfBoundaries[k], surrogateNeighbours[k]);
      if st.Degenerate? {
        return GradientOutcome(-1, ga, gb);
      }
      if !st.FirstOrder? {
        var g := FitGradient(k, numberOfBoundaries[k], surrogateNeighbours[k], centroids, centroidValues, fit3, fit2);
        ga, gb := ga[k := g.a], gb[k := g.b];
      }
      k := k + 1;
    }
    return GradientOutcome(0, ga, gb);
  }
}
