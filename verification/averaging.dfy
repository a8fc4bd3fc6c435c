/** `_average_vertex_values`: one value per mesh node, the mean of the vertex
    values of all triangles that share the node.

    The index list holds flat vertex indices (`3*triangle + local vertex`)
    grouped by node in node order; `counts[m]` is the length of node m's run.
    The C loop accumulates a running sum and count and, whenever the count
    reaches the current node's run length, stores the mean, resets both, and
    moves on to the next node. */
module NodeAveraging {
  import opened Mesh

  /** Sum of a sequence, folded from the back so that a prefix extends by one element. */
  function Total(s: seq<int>): int {
    if |s| == 0 then 0 else Total(s[..|s| - 1]) + s[|s| - 1]
  }

  /** Position in the index list where node m's run starts. */
  function RunStart(counts: seq<int>, m: nat): int
    requires m <= |counts|
  {
    Total(counts[..m])
  }

  /** The first node at or after `from` whose count is below 1, or the node
      count when there is none. The C loop can never complete such a node: its
      running count starts at 1 and only grows. */
  function FirstStuck(counts: seq<int>, from: nat): (r: nat)
    requires from <= |counts|
    decreases |counts| - from
    ensures from <= r <= |counts|
    ensures forall j :: from <= j < r ==> counts[j] >= 1
    ensures r < |counts| ==> counts[r] < 1
  {
    if from == |counts| then from
    else if counts[from] < 1 then from
    else FirstStuck(counts, from + 1)
  }

  predicate ValidIndices(indices: seq<int>, triangles: nat) {
    forall j :: 0 <= j < |indices| ==> 0 <= indices[j] < 3 * triangles
  }

  lemma RunStartStep(counts: seq<int>, m: nat)
    requires m < |counts|
    ensures RunStart(counts, m + 1) == RunStart(counts, m) + counts[m]
  {
    assert counts[..m + 1][..m] == counts[..m];
  }

  /** Across positive counts, later runs start later. */
  lemma {:induction false} RunStartMonotone(counts: seq<int>, a: nat, b: nat)
    requires a <= b <= |counts|
    requires forall j :: a <= j < b ==> counts[j] >= 1
    ensures RunStart(counts, a) + (b - a) <= RunStart(counts, b)
    decreases b - a
  {
    if a < b {
      RunStartStep(counts, b - 1);
      RunStartMonotone(counts, a, b - 1);
    }
  }

  /** Sum of the vertex values referenced by positions [lo, hi) of the index list. */
  function RunTotal(v: seq<Three<real>>, indices: seq<int>, lo: nat, hi: nat): real
    requires lo <= hi <= |indices| && ValidIndices(indices, |v|)
    decreases hi - lo
  {
    if hi == lo then 0.0 else RunTotal(v, indices, lo, hi - 1) + FlatAt(v, indices[hi - 1])
  }

  /** Node m's run ends within the first n positions of the index list. */
  predicate Completed(counts: seq<int>, m: nat, n: int)
    requires m < |counts|
  {
    RunStart(counts, m + 1) <= n
  }

  /** The value node m receives: the mean of the vertex values its run
      references, so that the node's count copies of it add up to the run's total. */
  function NodeMean(v: seq<Three<real>>, indices: seq<int>, counts: seq<int>, m: nat): (mean: real)
    requires ValidIndices(indices, |v|)
    requires m < FirstStuck(counts, 0) && Completed(counts, m, |indices|)
    ensures 0 <= RunStart(counts, m) <= RunStart(counts, m + 1) <= |indices|
    ensures (counts[m] as real) * mean == RunTotal(v, indices, RunStart(counts, m), RunStart(counts, m + 1))
  {
    assert counts[..0] == [];
    RunStartMonotone(counts, 0, m);
    RunStartStep(counts, m);
    RunTotal(v, indices, RunStart(counts, m), RunStart(counts, m + 1)) / (counts[m] as real)
  }

  /** Writes A[m] for every node whose run completes within the index list
      (and is not preceded by a node with a count below 1) and leaves every
      other entry of A as it was. The index list must not run past the last
      node's run, since the C loop would then read the count array out of
      bounds; a node with a count below 1 absorbs all remaining indices, so
      that case needs no such limit. */
  method AverageVertexValues(indices: seq<int>, counts: seq<int>, v: seq<Three<real>>, A: seq<real>)
    returns (out: seq<real>)
    requires ValidIndices(indices, |v|)
    requires FirstStuck(counts, 0) == |counts| ==> |indices| <= Total(counts)
    requires |A| == |counts|
    ensures |out| == |A|
    ensures forall m :: 0 <= m < FirstStuck(counts, 0) && Completed(counts, m, |indices|) ==>
      out[m] == NodeMean(v, indices, counts, m)
    ensures forall m :: 0 <= m < |counts| && !(m < FirstStuck(counts, 0) && Completed(counts, m, |indices|)) ==>
      out[m] == A[m]
  {
    out := A;
    var k := 0;
    var currentNode := 0;
    var total := 0.0;
    ghost var start := 0;
    ghost var stuck := FirstStuck(counts, 0);
    assert counts[..0] == [] && counts[..|counts|] == counts;
    var i := 0;
    while i < |indices|
      invariant 0 <= i <= |indices| && |out| == |A|
      invariant 0 <= currentNode <= stuck
      invariant start == RunStart(counts, currentNode) && 0 <= start <= i && k == i - start
      invariant currentNode < stuck ==> k < counts[currentNode]
      invariant total == RunTotal(v, indices, start, i)
      invariant forall m :: 0 <= m < currentNode ==>
        Completed(counts, m, |indices|) && out[m] == NodeMean(v, indices, counts, m)
      invariant forall m :: currentNode <= m < |counts| ==> out[m] == A[m]
    {
      assert currentNode < |counts|;
      var index := indices[i];
      k := k + 1;
      total := total + FlatAt(v, index);
      if counts[currentNode] == k {
        RunStartStep(counts, currentNode);
        out := out[currentNode := total / (k as real)];
        total := 0.0;
        k := 0;
        currentNode := currentNode + 1;
        start := i + 1;
      }
      i := i + 1;
    }
    forall m | 0 <= m < stuck && Completed(counts, m, |indices|)
      ensures m < currentNode
    {
      if currentNode <= m {
        RunStartStep(counts, currentNode);
        RunStartMonotone(counts, currentNode + 1, m + 1);
      }
    }
  }

  /** Three triangles sharing one node with vertex values 1, 2 and 3 give the node 2. */
  lemma ThreeTrianglesExample()
    ensures NodeMean([Three(1.0, 0.0, 0.0), Three(0.0, 2.0, 0.0), Three(0.0, 0.0, 3.0)], [0, 4, 8], [3], 0) == 2.0
  {
    var v := [Three(1.0, 0.0, 0.0), Three(0.0, 2.0, 0.0), Three(0.0, 0.0, 3.0)];
    var indices := [0, 4, 8];
    var counts := [3];
    assert counts[..0] == [] && counts[..1] == counts;
    assert RunStart(counts, 0) == 0 && RunStart(counts, 1) == 3;
    assert FlatAt(v, 0) == 1.0 && FlatAt(v, 4) == 2.0 && FlatAt(v, 8) == 3.0;
    assert RunTotal(v, indices, 0, 3) == 6.0;
  }

  /** A run of k vertex values that all equal x sums to k*x. */
  lemma {:induction false} RunTotalOfAgreeingValues(v: seq<Three<real>>, indices: seq<int>, lo: nat, hi: nat, x: real)
    requires lo <= hi <= |indices| && ValidIndices(indices, |v|)
    requires forall j :: lo <= j < hi ==> FlatAt(v, indices[j]) == x
    ensures RunTotal(v, indices, lo, hi) == (hi - lo) as real * x
    decreases hi - lo
  {
    if lo < hi {
      RunTotalOfAgreeingValues(v, indices, lo, hi - 1, x);
    }
  }

  /** A run whose vertex values all lie in [low, high] has a total between
      its length times low and its length times high. */
  lemma {:induction false} RunTotalBounds(v: seq<Three<real>>, indices: seq<int>, lo: nat, hi: nat, low: real, high: real)
    requires lo <= hi <= |indices| && ValidIndices(indices, |v|)
    requires forall j :: lo <= j < hi ==> low <= FlatAt(v, indices[j]) <= high
    ensures (hi - lo) as real * low <= RunTotal(v, indices, lo, hi) <= (hi - lo) as real * high
    decreases hi - lo
  {
    if lo < hi {
      RunTotalBounds(v, indices, lo, hi - 1, low, high);
      var k := (hi - 1 - lo) as real;
      assert (hi - lo) as real == k + 1.0;
      assert (k + 1.0) * low == k * low + low && (k + 1.0) * high == k * high + high;
    }
  }

  /** A node's mean lies within any bounds that hold for every vertex value
      meeting at it. */
  lemma NodeMeanWithinBounds(v: seq<Three<real>>, indices: seq<int>, counts: seq<int>, m: nat, low: real, high: real)
    requires ValidIndices(indices, |v|)
    requires m < FirstStuck(counts, 0) && Completed(counts, m, |indices|)
    requires forall j :: 0 <= j < |indices| && RunStart(counts, m) <= j < RunStart(counts, m + 1) ==>
      low <= FlatAt(v, indices[j]) <= high
    ensures low <= NodeMean(v, indices, counts, m) <= high
  {
    var mean := NodeMean(v, indices, counts, m);
    var lo, hi := RunStart(counts, m), RunStart(counts, m + 1);
    RunStartStep(counts, m);
    RunTotalBounds(v, indices, lo, hi, low, high);
    var n := counts[m] as real;
    var total := RunTotal(v, indices, lo, hi);
    assert (hi - lo) as real == n;
    assert n * low <= total <= n * high;
    assert n * mean == total;
    MeanBetween(n, total, mean, low, high);
  }

  /** A mean that `n` copies of make up a total lies within the bounds the
      total has when scaled down by `n`. */
  lemma MeanBetween(n: real, total: real, mean: real, low: real, high: real)
    requires n > 0.0 && n * mean == total && n * low <= total <= n * high
    ensures low <= mean <= high
  {
    assert n * (mean - low) == total - n * low;
    assert n * (high - mean) == n * high - total;
  }

  /** A node whose shared vertex values all agree receives that common value. */
  lemma AgreeingValuesAverageToThemselves(v: seq<Three<real>>, indices: seq<int>, counts: seq<int>, m: nat, x: real)
    requires ValidIndices(indices, |v|)
    requires m < FirstStuck(counts, 0) && Completed(counts, m, |indices|)
    requires forall j :: 0 <= j < |indices| && RunStart(counts, m) <= j < RunStart(counts, m + 1) ==>
      FlatAt(v, indices[j]) == x
    ensures NodeMean(v, indices, counts, m) == x
  {
    assert counts[..0] == [];
    RunStartMonotone(counts, 0, m);
    RunStartStep(counts, m);
    RunTotalOfAgreeingValues(v, indices, RunStart(counts, m), RunStart(counts, m + 1), x);
  }
}
