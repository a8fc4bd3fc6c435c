/** Shared vocabulary of the triangle kernel: per-triangle triples, points,
    planar gradients and the real-valued min/max used by every sweep.

    The C kernel stores every per-triangle quantity in a flat array, slot
    `3*k + i` for local vertex or edge `i` of triangle `k` (and `2*k`, `2*k+1`
    for centroid coordinates, `6*k + 2*i`, `6*k + 2*i + 1` for vertex
    coordinates). Here the same data is a sequence indexed by triangle whose
    elements are `Three<T>` or `Point` values: flat slot `3*k + i` is
    `s[k].At(i)`. */
module Mesh {

  /** Three values attached to one triangle, one per local vertex or edge. */
  datatype Three<T> = Three(0: T, 1: T, 2: T) {
    function At(i: nat): T
      requires i < 3
    {
      if i == 0 then this.0 else if i == 1 then this.1 else this.2
    }
  }

  datatype Point = Point(x: real, y: real)

  /** Coefficients of the planar reconstruction q(x, y) = qc + a*(x - xc) + b*(y - yc). */
  datatype Gradient = Gradient(a: real, b: real)

  datatype Option<T> = None | Some(value: T)

  function Min(x: real, y: real): (m: real)
    ensures m <= x && m <= y
    ensures m == x || m == y
  {
    if x < y then x else y
  }

  function Max(x: real, y: real): (m: real)
    ensures x <= m && y <= m
    ensures m == x || m == y
  {
    if x < y then y else x
  }

  lemma ProductNonNegative(x: real, y: real)
    requires x >= 0.0 && y >= 0.0
    ensures x * y >= 0.0
  {
  }

  /** A neighbour-table entry is either a boundary marker (negative) or a
      triangle id below `n`. */
  predicate ValidNeighbours(nb: Three<int>, n: nat) {
    nb.0 < n && nb.1 < n && nb.2 < n
  }

  /** Surrogate neighbours are always triangle ids (self-substituted at the boundary). */
  predicate ValidSurrogates(sn: Three<int>, n: nat) {
    0 <= sn.0 < n && 0 <= sn.1 < n && 0 <= sn.2 < n
  }

  /** Flat access into a vertex field: index `3*k + i` denotes vertex `i` of triangle `k`. */
  function FlatAt(v: seq<Three<real>>, index: int): real
    requires 0 <= index < 3 * |v|
  {
    v[index / 3].At(index % 3)
  }
}
