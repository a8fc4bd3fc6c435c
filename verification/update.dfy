/** `_update`: advances centroid values by one step that treats the
    semi-implicit source term implicitly and the explicit one explicitly.

    The C code makes four full passes, in this order: normalise the
    semi-implicit term by the centroid value, divide every centroid value by
    its implicit denominator (returning -1 at the first zero denominator),
    add the explicit term, and reset the semi-implicit term to zero. */
module TimeUpdate {

  /** The semi-implicit term as a rate relative to the conserved quantity: the
      rate times the quantity gives the term back. A cell with zero mass has
      no relative rate. */
  function Rate(c: real, s: real): (h: real)
    ensures c != 0.0 ==> h * c == s
    ensures c == 0.0 ==> h == 0.0
  {
    if c == 0.0 then 0.0 else s / c
  }

  /** The implicit denominator for a given relative rate. */
  function DenominatorOf(timestep: real, rate: real): real {
    1.0 - timestep * rate
  }

  function Denominator(timestep: real, c: real, s: real): real {
    DenominatorOf(timestep, Rate(c, s))
  }

  /** The first cell at or after `from` whose implicit denominator is zero, or
      the cell count when there is none. */
  function FirstSingular(timestep: real, c: seq<real>, s: seq<real>, from: nat): (r: nat)
    requires |c| == |s| && from <= |c|
    decreases |c| - from
    ensures from <= r <= |c|
    ensures forall k :: from <= k < r ==> Denominator(timestep, c[k], s[k]) != 0.0
    ensures r < |c| ==> Denominator(timestep, c[r], s[r]) == 0.0
  {
    if from == |c| then from
    else if Denominator(timestep, c[from], s[from]) == 0.0 then from
    else FirstSingular(timestep, c, s, from + 1)
  }

  /** A cell's value after the implicit pass alone: a zero-mass cell stays at
      zero and a cell without a rate keeps its value. */
  function ImplicitValue(timestep: real, c: real, s: real): (q: real)
    requires Denominator(timestep, c, s) != 0.0
    ensures c == 0.0 ==> q == 0.0
    ensures Rate(c, s) == 0.0 ==> q == c
  {
    c / Denominator(timestep, c, s)
  }

  /** A cell's value after a successful step: its implicit value plus the
      explicit increment. A zero-mass cell receives exactly the increment. */
  function Advanced(timestep: real, c: real, e: real, s: real): (z: real)
    requires Denominator(timestep, c, s) != 0.0
    ensures c == 0.0 ==> z == timestep * e
  {
    ImplicitValue(timestep, c, s) + timestep * e
  }

  /** The implicit part `q` of an advanced value solves the linearised
      equation `q = c + timestep * rate * q`; without a rate the step is
      explicit Euler; for a cell with mass it is `c*c / (c - timestep*s)`. */
  lemma AdvancedSolvesStep(timestep: real, c: real, e: real, s: real)
    requires Denominator(timestep, c, s) != 0.0
    ensures var q := Advanced(timestep, c, e, s);
      q - timestep * e == c + timestep * Rate(c, s) * (q - timestep * e)
    ensures Rate(c, s) == 0.0 ==> Advanced(timestep, c, e, s) == c + timestep * e
    ensures c != 0.0 ==>
      (c - timestep * s != 0.0 && Advanced(timestep, c, e, s) == c * c / (c - timestep * s) + timestep * e)
  {
    ImplicitSolvesStep(timestep, c, s);
    if c != 0.0 {
      ImplicitWithMass(timestep, c, s);
    }
  }

  lemma ImplicitSolvesStep(timestep: real, c: real, s: real)
    requires Denominator(timestep, c, s) != 0.0
    ensures var q := ImplicitValue(timestep, c, s);
      q == c + timestep * Rate(c, s) * q
  {
    var r := Rate(c, s);
    var q := ImplicitValue(timestep, c, s);
    assert q * (1.0 - timestep * r) == c;
    assert q * (1.0 - timestep * r) == q - timestep * r * q;
  }

  lemma ImplicitWithMass(timestep: real, c: real, s: real)
    requires Denominator(timestep, c, s) != 0.0 && c != 0.0
    ensures c - timestep * s != 0.0 && ImplicitValue(timestep, c, s) == c * c / (c - timestep * s)
  {
    var d := Denominator(timestep, c, s);
    var q := ImplicitValue(timestep, c, s);
    assert q * d == c;
    assert d * c == c - timestep * s by {
      assert Rate(c, s) * c == s;
      assert (1.0 - timestep * Rate(c, s)) * c == c - timestep * (Rate(c, s) * c);
    }
    assert q * (d * c) == c * c;
  }

  /** Return code (0 or -1) and the two arrays the call writes, as they stand
      when it returns. */
  datatype UpdateOutcome = UpdateOutcome(status: int, centroidValues: seq<real>, semiImplicitUpdate: seq<real>)

  method Update(timestep: real, centroidValues: seq<real>, explicitUpdate: seq<real>, semiImplicitUpdate: seq<real>)
    returns (r: UpdateOutcome)
    requires |centroidValues| == |explicitUpdate| == |semiImplicitUpdate|
    ensures |r.centroidValues| == |centroidValues| && |r.semiImplicitUpdate| == |centroidValues|
    // failure exactly when some implicit denominator is zero
    ensures r.status == -1 <==> FirstSingular(timestep, centroidValues, semiImplicitUpdate, 0) < |centroidValues|
    ensures r.status == 0 <==> FirstSingular(timestep, centroidValues, semiImplicitUpdate, 0) == |centroidValues|
    // on failure: normalised but not reset, divided only before the failing cell, no explicit term anywhere
    ensures r.status == -1 ==> forall k :: 0 <= k < |centroidValues| ==>
      r.semiImplicitUpdate[k] == Rate(centroidValues[k], semiImplicitUpdate[k])
    ensures r.status == -1 ==> forall k :: 0 <= k < |centroidValues| ==>
      r.centroidValues[k] ==
        (if k < FirstSingular(timestep, centroidValues, semiImplicitUpdate, 0)
         then ImplicitValue(timestep, centroidValues[k], semiImplicitUpdate[k])
         else centroidValues[k])
    // on success: every cell advanced, semi-implicit term consumed
    ensures r.status == 0 ==> forall k :: 0 <= k < |centroidValues| ==>
      r.semiImplicitUpdate[k] == 0.0 &&
      r.centroidValues[k] == Advanced(timestep, centroidValues[k], explicitUpdate[k], semiImplicitUpdate[k])
    // a zero-mass cell never fails and its semi-implicit term is forced to zero
    ensures forall k :: 0 <= k < |centroidValues| && centroidValues[k] == 0.0 ==>
      r.semiImplicitUpdate[k] == 0.0 && k != FirstSingular(timestep, centroidValues, semiImplicitUpdate, 0)
    // with no semi-implicit term the step is explicit Euler
    ensures (forall k :: 0 <= k < |semiImplicitUpdate| ==> semiImplicitUpdate[k] == 0.0) ==>
      r.status == 0 && forall k :: 0 <= k < |centroidValues| ==>
        r.centroidValues[k] == centroidValues[k] + timestep * explicitUpdate[k]
  {
    var n := |centroidValues|;
    var si := NormalisePass(centroidValues, semiImplicitUpdate);
    var failed, cv := ImplicitPass(timestep, centroidValues, semiImplicitUpdate, si);
    if failed {
      return UpdateOutcome(-1, cv, si);
    }
    cv := ExplicitPass(timestep, centroidValues, explicitUpdate, semiImplicitUpdate, cv);
    si := ResetPass(|si|);
    ExplicitEuler(timestep, centroidValues, explicitUpdate, semiImplicitUpdate);
    return UpdateOutcome(0, cv, si);
  }

  /** With no semi-implicit term no denominator vanishes and each cell takes an explicit Euler step. */
  lemma ExplicitEuler(timestep: real, c: seq<real>, e: seq<real>, s: seq<real>)
    requires |c| == |e| == |s|
    ensures (forall k :: 0 <= k < |s| ==> s[k] == 0.0) ==>
      FirstSingular(timestep, c, s, 0) == |c| &&
      forall k :: 0 <= k < |c| ==> Advanced(timestep, c[k], e[k], s[k]) == c[k] + timestep * e[k]
  {
    if forall k :: 0 <= k < |s| ==> s[k] == 0.0 {
      var r := FirstSingular(timestep, c, s, 0);
      forall k | 0 <= k < |c|
        ensures Advanced(timestep, c[k], e[k], s[k]) == c[k] + timestep * e[k]
      {
        AdvancedSolvesStep(timestep, c[k], e[k], s[k]);
      }
    }
  }

  /** First pass: divide the semi-implicit term by the conserved quantity, or zero it for a zero-mass cell. */
  method NormalisePass(c: seq<real>, s: seq<real>) returns (si: seq<real>)
    requires |c| == |s|
    ensures |si| == |s|
    ensures forall k :: 0 <= k < |s| ==> si[k] == Rate(c[k], s[k])
    ensures forall k :: 0 <= k < |s| && c[k] == 0.0 ==> si[k] == 0.0
  {
    si := s;
    var k := 0;
    while k < |s|
      invariant 0 <= k <= |s| && |si| == |s|
      invariant forall j :: 0 <= j < k ==> si[j] == Rate(c[j], s[j])
      invariant forall j :: k <= j < |s| ==> si[j] == s[j]
    {
      var x := c[k];
      if x == 0.0 {
        si := si[k := 0.0];
      } else {
        si := si[k := si[k] / x];
      }
      k := k + 1;
    }
  }

  /** Second pass: divide each centroid value by its implicit denominator,
      stopping at the first zero one. */
  method ImplicitPass(timestep: real, c: seq<real>, s: seq<real>, si: seq<real>) returns (failed: bool, cv: seq<real>)
    requires |c| == |s| == |si|
    requires forall k :: 0 <= k < |s| ==> si[k] == Rate(c[k], s[k])
    ensures |cv| == |c|
    ensures failed <==> FirstSingular(timestep, c, s, 0) < |c|
    ensures forall k :: 0 <= k < |c| ==>
      cv[k] == (if k < FirstSingular(timestep, c, s, 0) then ImplicitValue(timestep, c[k], s[k]) else c[k])
  {
    cv := c;
    var k := 0;
    while k < |c|
      invariant 0 <= k <= |c| && |cv| == |c|
      invariant FirstSingular(timestep, c, s, 0) == FirstSingular(timestep, c, s, k)
      invariant forall j :: 0 <= j < k ==> cv[j] == ImplicitValue(timestep, c[j], s[j])
      invariant forall j :: k <= j < |c| ==> cv[j] == c[j]
    {
      var denominator := DenominatorOf(timestep, si[k]);
      if denominator == 0.0 {
        assert FirstSingular(timestep, c, s, k) == k;
        return true, cv;
      }
      assert FirstSingular(timestep, c, s, k) == FirstSingular(timestep, c, s, k + 1);
      cv := cv[k := c[k] / denominator];
      k := k + 1;
    }
    return false, cv;
  }

  /** Third pass: add the explicit increment to every (already divided) centroid value. */
  method ExplicitPass(timestep: real, c: seq<real>, e: seq<real>, s: seq<real>, cv: seq<real>) returns (out: seq<real>)
    requires |c| == |e| == |s| == |cv|
    requires FirstSingular(timestep, c, s, 0) == |c|
    requires forall k :: 0 <= k < |c| ==> cv[k] == ImplicitValue(timestep, c[k], s[k])
    ensures |out| == |c|
    ensures forall k :: 0 <= k < |c| ==> out[k] == Advanced(timestep, c[k], e[k], s[k])
  {
    out := cv;
    var k := 0;
    while k < |c|
      invariant 0 <= k <= |c| && |out| == |c|
      invariant forall j :: 0 <= j < k ==> out[j] == Advanced(timestep, c[j], e[j], s[j])
      invariant forall j :: k <= j < |c| ==> out[j] == cv[j]
    {
      out := out[k := out[k] + timestep * e[k]];
      k := k + 1;
    }
  }

  /** Fourth pass: the semi-implicit term of all `n` cells is consumed. The
      field is written in full, so its old contents are not an input. */
  method ResetPass(n: nat) returns (out: seq<real>)
    ensures |out| == n
    ensures forall k :: 0 <= k < n ==> out[k] == 0.0
  {
    out := [];
    var k := 0;
    while k < n
      invariant 0 <= k <= n && |out| == k
      invariant forall j :: 0 <= j < k ==> out[j] == 0.0
    {
      out := out + [0.0];
      k := k + 1;
    }
  }
}
