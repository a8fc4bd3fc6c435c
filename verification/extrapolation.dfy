/** `_extrapolate_from_gradient`: evaluates each triangle's planar
    reconstruction at its three vertices, then takes each edge-midpoint value
    as the mean of the two vertices the edge joins. */
module Extrapolation {
  import opened Mesh
  import opened Interpolation

  /** The plane through (centre, qc) with slope g, evaluated at p: it takes
      the centroid value at the centroid. */
  function Plane(qc: real, g: Gradient, centre: Point, p: Point): (z: real)
    ensures p == centre ==> z == qc
  {
    qc + g.a * (p.x - centre.x) + g.b * (p.y - centre.y)
  }

  function Midpoint(p: Point, q: Point): Point {
    Point(0.5 * (p.x + q.x), 0.5 * (p.y + q.y))
  }

  /** A plane's value at a midpoint is the mean of its values at the two ends. */
  lemma PlaneAtMidpoint(qc: real, g: Gradient, centre: Point, p: Point, q: Point)
    ensures Plane(qc, g, centre, Midpoint(p, q)) == 0.5 * (Plane(qc, g, centre, p) + Plane(qc, g, centre, q))
  {
    var m := Midpoint(p, q);
    assert g.a * (m.x - centre.x) == 0.5 * (g.a * (p.x - centre.x) + g.a * (q.x - centre.x));
    assert g.b * (m.y - centre.y) == 0.5 * (g.b * (p.y - centre.y) + g.b * (q.y - centre.y));
  }

  /** A zero gradient gives the constant plane. */
  lemma FlatPlane(qc: real, g: Gradient, centre: Point, p: Point)
    ensures g.a == 0.0 && g.b == 0.0 ==> Plane(qc, g, centre, p) == qc
  {
    if g.a == 0.0 && g.b == 0.0 {
      assert g.a * (p.x - centre.x) == 0.0;
      assert g.b * (p.y - centre.y) == 0.0;
    }
  }

  datatype Reconstruction = Reconstruction(vertex: Three<real>, edge: Three<real>)

  /** One triangle's share of the sweep. The edge values, although computed by
      averaging vertices, are exactly the plane's values at the edge midpoints,
      and the vertex values are recovered from them by the inverse map. */
  function ExtrapolateTriangle(qc: real, g: Gradient, centre: Point, corners: Three<Point>): (r: Reconstruction)
    ensures r.edge.0 == Plane(qc, g, centre, Midpoint(corners.1, corners.2))
    ensures r.edge.1 == Plane(qc, g, centre, Midpoint(corners.2, corners.0))
    ensures r.edge.2 == Plane(qc, g, centre, Midpoint(corners.0, corners.1))
    ensures forall i :: 0 <= i < 3 ==> r.vertex.At(i) == Plane(qc, g, centre, corners.At(i))
    ensures EdgesToVertices(r.edge) == r.vertex
    ensures g.a == 0.0 && g.b == 0.0 ==> r.vertex == Three(qc, qc, qc) && r.edge == Three(qc, qc, qc)
  {
    var v := Three(Plane(qc, g, centre, corners.0), Plane(qc, g, centre, corners.1), Plane(qc, g, centre, corners.2));
    FlatPlane(qc, g, centre, corners.0);
    FlatPlane(qc, g, centre, corners.1);
    FlatPlane(qc, g, centre, corners.2);
    PlaneAtMidpoint(qc, g, centre, corners.1, corners.2);
    PlaneAtMidpoint(qc, g, centre, corners.2, corners.0);
    PlaneAtMidpoint(qc, g, centre, corners.0, corners.1);
    VerticesEdgesVertices(v);
    Reconstruction(v, VerticesToEdges(v))
  }

  /** The sweep over all triangles. Every vertex and edge value is overwritten,
      so the old contents of those fields are not inputs. */
  method ExtrapolateFromGradient(centroids: seq<Point>, centroidValues: seq<real>,
                                 vertexCoordinates: seq<Three<Point>>, a: seq<real>, b: seq<real>)
    returns (vertexValues: seq<Three<real>>, edgeValues: seq<Three<real>>)
    requires |centroids| == |centroidValues| == |vertexCoordinates| == |a| == |b|
    ensures |vertexValues| == |edgeValues| == |centroidValues|
    ensures forall k, i :: 0 <= k < |centroidValues| && 0 <= i < 3 ==>
      vertexValues[k].At(i) == Plane(centroidValues[k], Gradient(a[k], b[k]), centroids[k], vertexCoordinates[k].At(i))
    ensures forall k :: 0 <= k < |centroidValues| ==> edgeValues[k] == VerticesToEdges(vertexValues[k])
    ensures forall k :: 0 <= k < |centroidValues| && a[k] == 0.0 && b[k] == 0.0 ==>
      vertexValues[k] == Three(centroidValues[k], centroidValues[k], centroidValues[k]) &&
      edgeValues[k] == Three(centroidValues[k], centroidValues[k], centroidValues[k])
  {
    vertexValues, edgeValues := [], [];
    var k := 0;
    while k < |centroidValues|
      invariant 0 <= k <= |centroidValues|
      invariant |vertexValues| == |edgeValues| == k
      invariant forall j :: 0 <= j < k ==>
        Reconstruction(vertexValues[j], edgeValues[j])
          == ExtrapolateTriangle(centroidValues[j], Gradient(a[j], b[j]), centroids[j], vertexCoordinates[j])
    {
      var r := ExtrapolateTriangle(centroidValues[k], Gradient(a[k], b[k]), centroids[k], vertexCoordinates[k]);
      vertexValues := vertexValues + [r.vertex];
      edgeValues := edgeValues + [r.edge];
      k := k + 1;
    }
  }
}
