/** `_backup_centroid_values` and `_saxpy_centroid_values`: the snapshot and
    the linear blend `a*current + b*backup` that multistage time stepping uses
    between stages. */
module Snapshot {
  import opened Mesh

  /** Copies the centroid values into the backup field, which is written in
      full (its old contents are not an input). */
  method BackupCentroidValues(centroidValues: seq<real>) returns (backup: seq<real>)
    ensures backup == centroidValues
  {
    backup := [];
    var k := 0;
    while k < |centroidValues|
      invariant 0 <= k <= |centroidValues| && |backup| == k
      invariant forall j :: 0 <= j < k ==> backup[j] == centroidValues[j]
    {
      backup := backup + [centroidValues[k]];
      k := k + 1;
    }
  }

  /** Non-negative weights that sum to one put `a*x + b*y` between x and y. */
  lemma ConvexCombination(a: real, b: real, x: real, y: real)
    ensures 0.0 <= a && 0.0 <= b && a + b == 1.0 ==> Min(x, y) <= a * x + b * y <= Max(x, y)
  {
    if 0.0 <= a && 0.0 <= b && a + b == 1.0 {
      assert a * x + b * y == y + a * (x - y);
      assert a * x + b * y == x + b * (y - x);
      if x >= y {
        ProductNonNegative(a, x - y);
        ProductNonNegative(b, x - y);
        assert b * (y - x) == -(b * (x - y));
      } else {
        ProductNonNegative(a, y - x);
        ProductNonNegative(b, y - x);
        assert a * (x - y) == -(a * (y - x));
      }
    }
  }

  /** One cell of the blend. */
  function BlendValue(a: real, b: real, x: real, y: real): (z: real)
    ensures 0.0 <= a && 0.0 <= b && a + b == 1.0 ==> Min(x, y) <= z <= Max(x, y)
  {
    ConvexCombination(a, b, x, y);
    a * x + b * y
  }

  /** The blend of current and backed-up values, cell by cell. With
      non-negative weights that sum to one every blended value lies between
      the cell's current and backed-up value. */
  function Blend(a: real, b: real, current: seq<real>, backup: seq<real>): (r: seq<real>)
    requires |backup| == |current|
    ensures |r| == |current|
    ensures 0.0 <= a && 0.0 <= b && a + b == 1.0 ==>
      forall k :: 0 <= k < |current| ==> Min(current[k], backup[k]) <= r[k] <= Max(current[k], backup[k])
  {
    seq(|current|, k requires 0 <= k < |current| => BlendValue(a, b, current[k], backup[k]))
  }

  /** Weights (1, 0) keep the current values; weights (0, 1) restore the backup. */
  lemma BlendUnitWeights(current: seq<real>, backup: seq<real>)
    requires |backup| == |current|
    ensures Blend(1.0, 0.0, current, backup) == current
    ensures Blend(0.0, 1.0, current, backup) == backup
  {
    assert forall k :: 0 <= k < |current| ==> Blend(1.0, 0.0, current, backup)[k] == current[k];
    assert forall k :: 0 <= k < |current| ==> Blend(0.0, 1.0, current, backup)[k] == backup[k];
  }

  /** Weights that sum to one leave a field that equals its backup unchanged. */
  lemma BlendOfEqualFields(a: real, b: real, q: seq<real>)
    requires a + b == 1.0
    ensures Blend(a, b, q, q) == q
  {
    forall k | 0 <= k < |q|
      ensures Blend(a, b, q, q)[k] == q[k]
    {
      assert a * q[k] + b * q[k] == (a + b) * q[k];
    }
  }

  /** Overwrites the centroid values with the blend; the backup is only read. */
  method SaxpyCentroidValues(a: real, b: real, centroidValues: seq<real>, backup: seq<real>)
    returns (centroidOut: seq<real>)
    requires |backup| == |centroidValues|
    ensures centroidOut == Blend(a, b, centroidValues, backup)
    ensures a == 1.0 && b == 0.0 ==> centroidOut == centroidValues
    ensures a == 0.0 && b == 1.0 ==> centroidOut == backup
    ensures a + b == 1.0 && backup == centroidValues ==> centroidOut == centroidValues
  {
    centroidOut := centroidValues;
    var k := 0;
    while k < |centroidValues|
      invariant 0 <= k <= |centroidValues| && |centroidOut| == |centroidValues|
      invariant forall j :: 0 <= j < k ==> centroidOut[j] == a * centroidValues[j] + b * backup[j]
      invariant forall j :: k <= j < |centroidValues| ==> centroidOut[j] == centroidValues[j]
    {
      centroidOut := centroidOut[k := a * centroidOut[k] + b * backup[k]];
      k := k + 1;
    }
    assert forall j :: 0 <= j < |centroidValues| ==> centroidOut[j] == Blend(a, b, centroidValues, backup)[j];
    BlendUnitWeights(centroidValues, backup);
    if a + b == 1.0 && backup == centroidValues {
      BlendOfEqualFields(a, b, centroidValues);
    }
  }
}
