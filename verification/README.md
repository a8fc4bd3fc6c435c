# Triangle-mesh quantity kernel of ANUGA, in Dafny

ANUGA solves the shallow-water equations with a finite-volume scheme on an
unstructured triangular mesh. Every conserved quantity (stage, momentum, …)
stores one value per triangle centroid, three per triangle vertex and three
per triangle edge midpoint. The C kernel `quantity_ext.c` holds the numerical
steps the solver applies to such a quantity:

- **gradient fitting** (`_compute_gradients`): a planar gradient per triangle
  through its surrogate neighbours' centroids, chosen by the triangle's
  boundary count, with `-1` on corrupted topology;
- **reconstruction** (`_extrapolate_from_gradient`): the plane evaluated at
  the vertices, and edge values as vertex means;
- **interpolation** between vertex and edge-midpoint values, both directions;
- **slope limiting**: four limiters that scale each triangle's deviations
  from its centroid value by one multiplier `phi` against an envelope of
  neighbouring centroid values (one global envelope per triangle, or one
  local envelope per edge). For beta in [0, 1] the limited values stay inside
  the envelope: vertices and edges for the vertex limiter, only the edges
  for the three edge limiters. There is also the min/max envelope that
  `limit_old` precomputes;
- **time stepping**: the backup/blend pair used between Runge–Kutta stages,
  and `_update`, which advances centroid values with an implicit treatment of
  the semi-implicit source term;
- **node averaging** (`_average_vertex_values`): one value per mesh node, the
  mean of all vertex values meeting at it.

The model keeps the C data layout in a structured form. A flat array slot
`3*k + i` becomes `s[k].At(i)` of a `seq<Three<real>>`; centroids and vertex
coordinates become `Point` and `Three<Point>`. Each in-place C routine becomes
a method that returns the arrays it writes; routines that can fail return
their C status code (0 or -1) together with the arrays as they stand when the
C code returns. The arithmetic is over exact reals.

Modules: `Mesh` (shared vocabulary), `Interpolation`, `Extrapolation`,
`Gradients`, `Limiters`, `Snapshot`, `TimeUpdate`, `NodeAveraging`.

Three edge cases of the code that the model keeps:

- A zero deviation leaves the limiter's ratio at 1 (`quantity_ext.c`
  lines 171 and 180), so it still caps `phi` at `beta` when `beta < 1`.
  `Limiters.Admissible` states this rule.
- `_average_vertex_values` tolerates a node whose triangle count is 0 or
  negative: the running count starts at 1 for that node and never equals
  it (line 530), so that node and every later node keep their old value.
  `NodeAveraging.FirstStuck` names the first such node.
- The three edge limiters rebuild the vertices from the limited edges as
  `e_j + e_k - e_i` (lines 246-248, 301-303 and 358-360). Those vertices
  need not lie in the envelope, even when the edges came from a planar
  reconstruction. `Limiters.EdgeLimiterVertexLeavesEnvelope` gives such a
  triangle.

## Model

All source paths are in `source/anuga/abstract_2d_finite_volumes/quantity_ext.c`.

| member | source | states |
|---|---|---|
| Gradients.FirstOther | source/anuga/abstract_2d_finite_volumes/quantity_ext.c:66-71 | The scan returns the triangle itself iff every remaining surrogate slot is the triangle itself; otherwise it returns the first slot's value that differs, and every slot before it is the triangle itself. |
| Gradients.SelectStencil | source/anuga/abstract_2d_finite_volumes/quantity_ext.c:36-85 | A triangle is degenerate iff it has fewer than 2 boundary edges and surrogate slots 0,1 or 1,2 coincide, or it has exactly 2 boundary edges and all three slots are itself. It is first order iff it has more than 2 boundary edges. A three-point fit uses the three slots in order. A two-point fit uses the first slot that is a different triangle. |
| Gradients.FitGradient | source/anuga/abstract_2d_finite_volumes/quantity_ext.c:37-83 | With fewer than 2 boundary edges the gradient is the three-point fit through the three surrogate slots in order. With exactly 2 it is the two-point fit through the first slot that is another triangle, paired with the triangle's own centroid and value. |
| Gradients.FirstDegenerate | source/anuga/abstract_2d_finite_volumes/quantity_ext.c:33-90 | The first degenerate triangle: every earlier triangle is non-degenerate, and the one returned, if inside the mesh, is degenerate. |
| Gradients.ComputeGradients | source/anuga/abstract_2d_finite_volumes/quantity_ext.c:22-91 | Returns -1 iff some triangle is degenerate, else 0. A triangle's gradient is replaced exactly when its stencil produces a fit and it comes before the first degenerate triangle, and then it is the fit through that stencil. Every other triangle keeps its old gradient; in particular so does every triangle with more than 2 boundary edges. |
| Extrapolation.Plane | source/anuga/abstract_2d_finite_volumes/quantity_ext.c:125-127 | The reconstruction plane takes the centroid value at the centroid. |
| Extrapolation.PlaneAtMidpoint | source/anuga/abstract_2d_finite_volumes/quantity_ext.c:129-132 | A plane's value at an edge midpoint is the mean of its values at the edge's ends. This is why averaging vertex values gives the exact midpoint value. |
| Extrapolation.ExtrapolateTriangle | source/anuga/abstract_2d_finite_volumes/quantity_ext.c:107-132 | Vertex values are the plane through the centroid value at the corners. Edge values are the plane at the edge midpoints. The vertices are recovered from the edges by the inverse map. A zero gradient gives the centroid value everywhere. |
| Extrapolation.ExtrapolateFromGradient | source/anuga/abstract_2d_finite_volumes/quantity_ext.c:95-136 | Every triangle's vertex values lie on its plane, and its edge values are the interpolation of those vertex values. A triangle with zero gradient gets its centroid value everywhere. |
| Interpolation.VerticesToEdges | source/anuga/abstract_2d_finite_volumes/quantity_ext.c:384-386 | Each edge value lies between the two vertex values the edge joins, and the three edge values sum to the three vertex values' sum. |
| Interpolation.EdgesToVertices | source/anuga/abstract_2d_finite_volumes/quantity_ext.c:407-409 | Interpolating the recovered vertex values back to the edges gives the original edge values. |
| Interpolation.VerticesEdgesVertices | source/anuga/abstract_2d_finite_volumes/quantity_ext.c:384-386 | Recovering vertex values from interpolated edge values gives the original vertex values. |
| Interpolation.InterpolateVerticesToEdges | source/anuga/abstract_2d_finite_volumes/quantity_ext.c:369-389 | Each triangle's edge value is the mean of the two vertices the edge joins, and the edges-to-vertices map inverts the result. The output is the whole-field map, so the field round trip applies to it. |
| Interpolation.InterpolateEdgesToVertices | source/anuga/abstract_2d_finite_volumes/quantity_ext.c:392-412 | Each vertex is its two adjacent edges minus the opposite edge, and interpolating back gives the input edges. The output is the whole-field map, so the field round trip applies to it. |
| Interpolation.FieldRoundTrips | source/anuga/abstract_2d_finite_volumes/quantity_ext.c:369-412 | Over a whole field, the two interpolations are mutual inverses in both orders. |
| Limiters.Envelope | source/anuga/abstract_2d_finite_volumes/quantity_ext.c:155-167 | The envelope contains the triangle's own value and every real neighbour's value, and each end is one of those values, so it is the smallest such interval. |
| Limiters.LocalBounds | source/anuga/abstract_2d_finite_volumes/quantity_ext.c:283-284 | The local envelope contains both centroid values and each end is one of them. |
| Limiters.Ratio | source/anuga/abstract_2d_finite_volumes/quantity_ext.c:171-177 | A zero deviation gets ratio 1 and is never divided by. When the centroid value lies in the envelope the ratio is never negative. |
| Limiters.RatioReachesBound | source/anuga/abstract_2d_finite_volumes/quantity_ext.c:176-177 | Moving from the centroid value by the ratio times a nonzero deviation lands exactly on the envelope end on that deviation's side. |
| Limiters.Tighten | source/anuga/abstract_2d_finite_volumes/quantity_ext.c:180 | One step `phi = min(min(r*beta, 1), phi)` never raises `phi` and never leaves it above 1. |
| Limiters.TightenIsLargest | source/anuga/abstract_2d_finite_volumes/quantity_ext.c:171-180 | One accumulation step lowers `phi` exactly to the largest admissible multiplier: `p` is below the new `phi` iff it is below the old one, at most 1, and keeps `qc + p*dq` within the beta-scaled envelope. |
| Limiters.RatioBoundIsAdmissible | source/anuga/abstract_2d_finite_volumes/quantity_ext.c:176-177 | `p <= r*beta` iff `p` is admissible, in a form that does not divide. This holds for both signs of the deviation and for the zero deviation. |
| Limiters.PhiAllIsLargest | source/anuga/abstract_2d_finite_volumes/quantity_ext.c:169-181 | `phi` is the largest multiplier that is at most 1 and admissible for all three deviations. |
| Limiters.PhiAll | source/anuga/abstract_2d_finite_volumes/quantity_ext.c:169-181 | `phi` never exceeds 1, and is non-negative when beta is non-negative and the centroid value lies in the envelope. |
| Limiters.AdmissibleStaysInside | source/anuga/abstract_2d_finite_volumes/quantity_ext.c:176-186 | With beta in [0, 1], an admissible non-negative multiplier puts the limited value inside the envelope. |
| Limiters.LimitAgainst | source/anuga/abstract_2d_finite_volumes/quantity_ext.c:169-186 | For beta >= 0 the limited values are the input pulled toward the centroid value by one factor in [0, 1]. For beta in [0, 1] they lie inside the envelope. beta = 0 collapses them to the centroid value. For beta >= 1, values already inside the envelope are unchanged. |
| Limiters.LimitIsIdempotent | source/anuga/abstract_2d_finite_volumes/quantity_ext.c:169-186 | With beta = 1, limiting twice gives the same values as limiting once. |
| Limiters.EdgesOfWithinAreWithin | source/anuga/abstract_2d_finite_volumes/quantity_ext.c:188-190 | Edge values re-derived from vertex values inside an envelope are inside it too. |
| Limiters.LimitVerticesByAllNeighbours | source/anuga/abstract_2d_finite_volumes/quantity_ext.c:139-195 | Each triangle's vertex values are limited against its global envelope, and its edge values are their interpolation. For beta in [0, 1], both lie inside the envelope. |
| Limiters.LimitEdgesByAllNeighbours | source/anuga/abstract_2d_finite_volumes/quantity_ext.c:197-253 | Each triangle's edge values are limited against its global envelope (inside it for beta in [0, 1]). Its vertex values are the ones whose interpolation gives those edges. |
| Limiters.EdgeLimiterVertexLeavesEnvelope | source/anuga/abstract_2d_finite_volumes/quantity_ext.c:246-248 | A triangle whose edges are already inside the envelope keeps them at beta = 1, yet the vertex rebuilt as `e_j + e_k - e_i` lies outside it. |
| Limiters.TightenEdge | source/anuga/abstract_2d_finite_volumes/quantity_ext.c:279-292 | One per-edge step never raises `phi`. An edge without a neighbour leaves it unchanged, and an edge with one leaves it at most 1. |
| Limiters.TightenEdgeIsLargest | source/anuga/abstract_2d_finite_volumes/quantity_ext.c:279-292 | One edge step lowers `phi` exactly to the largest multiplier admissible for that edge's local envelope. An edge without a neighbour leaves `phi` as it was. |
| Limiters.PhiByNeighbourIsLargest | source/anuga/abstract_2d_finite_volumes/quantity_ext.c:273-293 | `phi` is the largest multiplier, at most 1, that is admissible for every edge that has a neighbour. Edges without one impose nothing. |
| Limiters.PhiByNeighbour | source/anuga/abstract_2d_finite_volumes/quantity_ext.c:273-293 | `phi` lies in [0, 1] when beta is non-negative. |
| Limiters.LimitByNeighbour | source/anuga/abstract_2d_finite_volumes/quantity_ext.c:272-299 | For beta >= 0 the edges are pulled toward the centroid value by one factor in [0, 1]. For beta in [0, 1] each edge that has a neighbour lies between the two centroid values. A triangle with no neighbours is left unchanged. |
| Limiters.LimitEdgesByNeighbour | source/anuga/abstract_2d_finite_volumes/quantity_ext.c:256-308 | Each triangle's edges are limited edge by edge against its neighbours, and the vertices are the inverse interpolation. For beta in [0, 1] every edge with a neighbour ends up between its own and that neighbour's centroid value. |
| Limiters.LimitGradientByNeighbour | source/anuga/abstract_2d_finite_volumes/quantity_ext.c:311-365 | Gives the same edge and vertex values as the per-edge limiter. The gradient arrays have no effect. |
| Limiters.NeighbourEnvelopes | source/anuga/abstract_2d_finite_volumes/quantity_ext.c:1173-1190 | `qmin[k]` and `qmax[k]` are the ends of triangle k's global envelope. They bracket its own centroid value and every real neighbour's value. |
| Snapshot.BackupCentroidValues | source/anuga/abstract_2d_finite_volumes/quantity_ext.c:414-428 | The backup becomes an exact copy of the centroid values. |
| Snapshot.Blend | source/anuga/abstract_2d_finite_volumes/quantity_ext.c:443 | With non-negative weights that sum to one, every blended value lies between the cell's current and backed-up value. |
| Snapshot.BlendUnitWeights | source/anuga/abstract_2d_finite_volumes/quantity_ext.c:443 | Weights (1, 0) keep the current values and weights (0, 1) restore the backup. |
| Snapshot.BlendOfEqualFields | source/anuga/abstract_2d_finite_volumes/quantity_ext.c:443 | Weights that sum to one leave a field equal to its backup unchanged. |
| Snapshot.SaxpyCentroidValues | source/anuga/abstract_2d_finite_volumes/quantity_ext.c:431-448 | Every centroid value becomes `a*current + b*backup`. Unit weights keep the values or restore the backup, and affine weights fix a field equal to its backup. |
| TimeUpdate.Rate | source/anuga/abstract_2d_finite_volumes/quantity_ext.c:466-471 | The relative rate times the cell's value gives the semi-implicit term back. A zero-mass cell has rate 0. |
| TimeUpdate.ImplicitValue | source/anuga/abstract_2d_finite_volumes/quantity_ext.c:477-482 | After the division by the implicit denominator a zero-mass cell is still 0, and a cell without a rate keeps its value. |
| TimeUpdate.ImplicitSolvesStep | source/anuga/abstract_2d_finite_volumes/quantity_ext.c:477-482 | The divided value `q` solves the implicit equation `q = c + dt*rate*q`. |
| TimeUpdate.Advanced | source/anuga/abstract_2d_finite_volumes/quantity_ext.c:482-489 | A successfully stepped zero-mass cell holds exactly the explicit increment `dt*e`. |
| TimeUpdate.FirstSingular | source/anuga/abstract_2d_finite_volumes/quantity_ext.c:476-479 | The first cell whose implicit denominator is zero: every earlier cell has a nonzero denominator, and the one returned, if inside the field, has a zero one. |
| TimeUpdate.AdvancedSolvesStep | source/anuga/abstract_2d_finite_volumes/quantity_ext.c:465-490 | The implicit part `q` of an advanced value solves `q = c + dt*rate*q`. Without a rate the step is explicit Euler. For a cell with mass the value is `c*c/(c - dt*s) + dt*e`. |
| TimeUpdate.NormalisePass | source/anuga/abstract_2d_finite_volumes/quantity_ext.c:465-472 | The semi-implicit term becomes the rate relative to the centroid value, and zero for a zero-mass cell. |
| TimeUpdate.ImplicitPass | source/anuga/abstract_2d_finite_volumes/quantity_ext.c:476-484 | Fails iff some denominator is zero. Cells before the first zero denominator are divided by their denominator, and the rest are untouched. |
| TimeUpdate.ExplicitPass | source/anuga/abstract_2d_finite_volumes/quantity_ext.c:488-490 | After a successful implicit pass, every cell reaches its advanced value. |
| TimeUpdate.ResetPass | source/anuga/abstract_2d_finite_volumes/quantity_ext.c:494-496 | The semi-implicit term is zero everywhere. |
| TimeUpdate.Update | source/anuga/abstract_2d_finite_volumes/quantity_ext.c:451-499 | Returns -1 iff some implicit denominator is zero. On failure the semi-implicit term is left normalised, only the cells before the failing one are divided, and no explicit term is added. On success every cell is advanced and the semi-implicit term is consumed. A zero-mass cell never fails. With no semi-implicit term the step is explicit Euler. |
| TimeUpdate.ExplicitEuler | source/anuga/abstract_2d_finite_volumes/quantity_ext.c:476-490 | With no semi-implicit term no denominator vanishes, and each cell takes `c + dt*e`. |
| NodeAveraging.FirstStuck | source/anuga/abstract_2d_finite_volumes/quantity_ext.c:522-530 | The first node whose triangle count is below 1: every earlier node has a count of at least 1, and the one returned, if it exists, has a count below 1. |
| NodeAveraging.RunStartMonotone | source/anuga/abstract_2d_finite_volumes/quantity_ext.c:514-538 | Across nodes with positive counts, each node's run of the index list starts at least one position after the previous node's. |
| NodeAveraging.NodeMean | source/anuga/abstract_2d_finite_volumes/quantity_ext.c:527-531 | The node's count copies of its value add up to the total of the vertex values its run references, and the run lies inside the index list. |
| NodeAveraging.RunTotalBounds | source/anuga/abstract_2d_finite_volumes/quantity_ext.c:527 | A run whose vertex values all lie in [low, high] has a total between its length times low and its length times high. |
| NodeAveraging.NodeMeanWithinBounds | source/anuga/abstract_2d_finite_volumes/quantity_ext.c:527-531 | A node's value lies within any bounds that hold for every vertex value meeting at it. |
| NodeAveraging.AverageVertexValues | source/anuga/abstract_2d_finite_volumes/quantity_ext.c:502-541 | Every node whose run ends within the index list, and which is not preceded by a node with a count below 1, gets the mean of the vertex values its run references. Every other node keeps its old value. |
| NodeAveraging.ThreeTrianglesExample | source/anuga/abstract_2d_finite_volumes/quantity_ext.c:521-531 | Three triangles meeting at one node, with vertex values 1, 2 and 3 there, give that node 2. |
| NodeAveraging.AgreeingValuesAverageToThemselves | source/anuga/abstract_2d_finite_volumes/quantity_ext.c:527-531 | A node at which every shared vertex value equals x receives x. |

## Left out

- The Python gateways, argument parsing and module table (`quantity_ext.c` lines 546 onwards) are glue, so they are not modelled. The commented-out gateway code is left out too.
- `util_ext.h` is not part of this model. The two gradient formulas `_gradient` and `_gradient2` become function parameters of `Gradients.ComputeGradients`, so its contract holds whatever they compute. The real-valued `min`/`max` are modelled as `Mesh.Min`/`Mesh.Max`.
- `_limit_old` (in `util_ext.h`) is not modelled. Only the qmin/qmax envelope that `limit_old` computes before calling it is modelled, as `Limiters.NeighbourEnvelopes`.
- IEEE-754 doubles are modelled as exact reals. Rounding, overflow, NaN and infinities are not modelled. Likewise, integers are unbounded: triangle counts and array indices (`3*k`, `6*k`, the `int index` of `_average_vertex_values`) are assumed to fit a C `int`. As one consequence, the vertex/edge round trip `Interpolation.FieldRoundTrips` is exact only over the reals.
- Routines that always return 0 are modelled without a status code. Only `_compute_gradients` and `_update`, which can return -1, carry one.
- Arrays are updated in place in C. The model returns fresh sequences instead, and a field that is written in full is not an input.
- The C code does not check array bounds. The model requires that surrogate-neighbour entries are triangle ids, that neighbour entries are below the triangle count (negative means boundary), and that every `vertex_value_indices` entry lies in [0, 3N) for N triangles (`NodeAveraging.ValidIndices`, which `NodeAveraging.AverageVertexValues` requires).
- NodeAveraging.AverageVertexValues: requires that the index list does not extend past the last node's run when every count is positive. In that case the C loop would read the per-node count array out of bounds.
