/** The two linear maps between a triangle's vertex values and its edge-midpoint
    values (`_interpolate_from_vertices_to_edges`,
    `_interpolate_from_edges_to_vertices`). Edge `i` is the edge opposite
    vertex `i`, so its midpoint lies halfway between the other two vertices. */
module Interpolation {
  import opened Mesh

  /** Edge-midpoint values of the linear function with the given vertex values:
      each edge lies between the two vertices it joins, and the three edges
      sum to what the three vertices sum to. */
  function VerticesToEdges(v: Three<real>): (e: Three<real>)
    ensures Min(v.1, v.2) <= e.0 <= Max(v.1, v.2)
    ensures Min(v.2, v.0) <= e.1 <= Max(v.2, v.0)
    ensures Min(v.0, v.1) <= e.2 <= Max(v.0, v.1)
    ensures e.0 + e.1 + e.2 == v.0 + v.1 + v.2
  {
    Three(0.5 * (v.1 + v.2), 0.5 * (v.0 + v.2), 0.5 * (v.0 + v.1))
  }

  /** Vertex values recovered from edge-midpoint values: each vertex is the sum
      of its two adjacent edges minus the opposite edge. */
  function EdgesToVertices(e: Three<real>): (v: Three<real>)
    ensures VerticesToEdges(v) == e
  {
    Three(e.1 + e.2 - e.0, e.2 + e.0 - e.1, e.0 + e.1 - e.2)
  }

  /** The two maps are mutual inverses (exact over the reals). */
  lemma VerticesEdgesVertices(v: Three<real>)
    ensures EdgesToVertices(VerticesToEdges(v)) == v
  {
  }

  /** Sweep of `_interpolate_from_vertices_to_edges`: writes only the edge field. */
  method InterpolateVerticesToEdges(v: seq<Three<real>>) returns (e: seq<Three<real>>)
    ensures |e| == |v|
    ensures forall k :: 0 <= k < |v| ==> e[k] == VerticesToEdges(v[k])
    ensures forall k :: 0 <= k < |v| ==> EdgesToVertices(e[k]) == v[k]
    ensures e == MapVerticesToEdges(v)
  {
    e := [];
    var k := 0;
    while k < |v|
      invariant 0 <= k <= |v|
      invariant |e| == k
      invariant forall j :: 0 <= j < k ==> e[j] == VerticesToEdges(v[j])
    {
      var q0, q1, q2 := v[k].0, v[k].1, v[k].2;
      e := e + [Three(0.5 * (q1 + q2), 0.5 * (q0 + q2), 0.5 * (q0 + q1))];
      k := k + 1;
    }
    forall k | 0 <= k < |v|
      ensures EdgesToVertices(e[k]) == v[k]
    {
      VerticesEdgesVertices(v[k]);
    }
  }

  /** Sweep of `_interpolate_from_edges_to_vertices`: writes only the vertex field. */
  method InterpolateEdgesToVertices(e: seq<Three<real>>) returns (v: seq<Three<real>>)
    ensures |v| == |e|
    ensures forall k :: 0 <= k < |e| ==> v[k] == EdgesToVertices(e[k])
    ensures forall k :: 0 <= k < |e| ==> VerticesToEdges(v[k]) == e[k]
    ensures v == MapEdgesToVertices(e)
  {
    v := [];
    var k := 0;
    while k < |e|
      invariant 0 <= k <= |e|
      invariant |v| == k
      invariant forall j :: 0 <= j < k ==> v[j] == EdgesToVertices(e[j])
    {
      var e0, e1, e2 := e[k].0, e[k].1, e[k].2;
      v := v + [Three(e1 + e2 - e0, e2 + e0 - e1, e0 + e1 - e2)];
      k := k + 1;
    }
  }

  /** Whole-field round trips: edges to vertices to edges, and vertices to edges
      to vertices, both reproduce their input. */
  function MapVerticesToEdges(v: seq<Three<real>>): (e: seq<Three<real>>)
    ensures |e| == |v|
  {
    seq(|v|, k requires 0 <= k < |v| => VerticesToEdges(v[k]))
  }

  function MapEdgesToVertices(e: seq<Three<real>>): (v: seq<Three<real>>)
    ensures |v| == |e|
  {
    seq(|e|, k requires 0 <= k < |e| => EdgesToVertices(e[k]))
  }

  lemma FieldRoundTrips(v: seq<Three<real>>, e: seq<Three<real>>)
    ensures MapEdgesToVertices(MapVerticesToEdges(v)) == v
    ensures MapVerticesToEdges(MapEdgesToVertices(e)) == e
  {
    var v' := MapEdgesToVertices(MapVerticesToEdges(v));
    forall k | 0 <= k < |v|
      ensures v'[k] == v[k]
    {
      VerticesEdgesVertices(v[k]);
    }
  }
}
