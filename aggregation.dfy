/**
 * Aggregation: the end of the demo script. For every dataset the radius
 * whose contribution is largest within the grid range is looked up, the
 * truncated radius is doubled into a diameter, and the diameters are averaged.
 * The contribution vectors and the radius grid are the analyser's outputs and
 * are inputs here.
 */
module Aggregation {
  import opened Common

  /** `data_range[1]`: the grid range is `[0, RangeEnd)`. */
  const RangeEnd: nat := 200

  /** Python's `int()` on a float: truncation toward zero. */
  function Trunc(x: real): (t: int)
    ensures 0.0 <= x ==> t as real <= x < t as real + 1.0
    ensures x < 0.0 ==> t as real - 1.0 < x <= t as real
  {
    if x >= 0.0 then x.Floor else -((-x).Floor)
  }

  /** The length of the grid range of a vector of `n` contributions. */
  function RangeLength(n: nat): nat
  {
    Min(n, RangeEnd)
  }

  /** The first index among `c[0:n]` holding its largest value. */
  function RangeArgMax(c: seq<real>, n: nat): (k: nat)
    requires 0 < n <= |c|
    ensures k < n
    ensures forall j :: 0 <= j < n ==> c[j] <= c[k]
  {
    if n == 1 then 0
    else
      var k := RangeArgMax(c, n - 1);
      if c[n - 1] > c[k] then n - 1 else k
  }

  /** `max(c[0:200])`: the largest contribution of the grid range, which one of its indices holds. */
  function RangeMax(c: seq<real>): (m: real)
    requires |c| > 0
    ensures forall j :: 0 <= j < RangeLength(|c|) ==> c[j] <= m
    ensures exists k :: 0 <= k < RangeLength(|c|) && c[k] == m
  {
    c[RangeArgMax(c, RangeLength(|c|))]
  }

  /** `np.where(c == m)`: every index holding `m`, in ascending order. */
  function Matches(c: seq<real>, m: real): (idx: seq<nat>)
    ensures forall k :: 0 <= k < |idx| ==> idx[k] < |c| && c[idx[k]] == m
    ensures forall i :: 0 <= i < |c| && c[i] == m ==> i in idx
    ensures forall p, q :: 0 <= p < q < |idx| ==> idx[p] < idx[q]
  {
    if c == [] then []
    else
      var init := Matches(c[..|c| - 1], m);
      init + (if c[|c| - 1] == m then [|c| - 1] else [])
  }

  /** Why one dataset yields no diameter. */
  datatype Reason =
    | EmptyRange     // `max` of an empty slice: ValueError
    | MissingRadius  // an index of the maximum lies beyond the radius grid: IndexError
    | NotUnique      // the maximum occurs more than once: `.item()` raises ValueError
    | MissingDataset // fewer contribution vectors than datasets: IndexError
    | PlotMismatch   // `plt.plot` of the radius and contribution ranges of unequal length: ValueError

  /**
   * `idx` is the only index of the whole vector that holds the largest
   * contribution of the grid range, lies in the grid range and has a radius.
   */
  predicate IsUniquePeak(c: seq<real>, hrs: seq<real>, idx: nat)
  {
    && idx < RangeLength(|c|) && idx < |hrs|
    && (forall j :: 0 <= j < RangeLength(|c|) ==> c[j] <= c[idx])
    && (forall j :: 0 <= j < |c| && j != idx ==> c[j] != c[idx])
  }

  /** Every index in `idx` is below `n`. */
  predicate AllBelow(idx: seq<nat>, n: nat)
  {
    forall k :: 0 <= k < |idx| ==> idx[k] < n
  }

  /** One iteration of the dataset loop: the diameter of one dataset. */
  function DatasetDiameter(c: seq<real>, hrs: seq<real>): (r: Result<int, Reason>)
    ensures r == Failure(EmptyRange) <==> |c| == 0
    ensures r.Success? ==> r.value % 2 == 0
  {
    if |c| == 0 then Failure(EmptyRange)
    else
      var maxima := Matches(c, RangeMax(c));
      if !AllBelow(maxima, |hrs|) then Failure(MissingRadius)
      else if |maxima| != 1 then Failure(NotUnique)
      else Success(2 * Trunc(hrs[maxima[0]]))
  }

  /**
   * A dataset yields a diameter exactly when its range maximum is unique in
   * the whole vector and has a radius, and the diameter is then twice the
   * truncated radius at that index.
   */
  lemma DatasetDiameterSpec(c: seq<real>, hrs: seq<real>)
    ensures DatasetDiameter(c, hrs).Success? <==> exists idx: nat :: IsUniquePeak(c, hrs, idx)
    ensures forall idx: nat :: IsUniquePeak(c, hrs, idx) ==>
      DatasetDiameter(c, hrs) == Success(2 * Trunc(hrs[idx]))
  {
    if DatasetDiameter(c, hrs).Success? {
      PeakOfDiameter(c, hrs);
      var p := Matches(c, RangeMax(c))[0];
      assert IsUniquePeak(c, hrs, p);
    }
    forall idx: nat | IsUniquePeak(c, hrs, idx)
      ensures DatasetDiameter(c, hrs) == Success(2 * Trunc(hrs[idx]))
    {
      DiameterOfPeak(c, hrs, idx);
    }
  }

  /** A diameter comes from the one index holding the range maximum. */
  lemma PeakOfDiameter(c: seq<real>, hrs: seq<real>)
    requires DatasetDiameter(c, hrs).Success?
    ensures |c| > 0
    ensures var p := Matches(c, RangeMax(c))[0];
      IsUniquePeak(c, hrs, p) && DatasetDiameter(c, hrs) == Success(2 * Trunc(hrs[p]))
  {
    var m := RangeMax(c);
    var maxima := Matches(c, m);
    assert |maxima| == 1 && maxima[0] < |hrs|;
    UniqueMatchIsPeak(c, hrs, maxima[0]);
  }

  /** The only index holding the range maximum is the unique peak. */
  lemma UniqueMatchIsPeak(c: seq<real>, hrs: seq<real>, p: nat)
    requires |c| > 0 && p < |hrs|
    requires Matches(c, RangeMax(c)) == [p]
    ensures IsUniquePeak(c, hrs, p)
  {
    var m := RangeMax(c);
    var j :| 0 <= j < RangeLength(|c|) && c[j] == m;
    OnlyMatch(c, m, p, j);
    forall i | 0 <= i < |c| && c[i] == c[p]
      ensures i == p
    {
      OnlyMatch(c, m, p, i);
    }
  }

  /** When `p` is the only match, every index holding the value is `p`. */
  lemma OnlyMatch(c: seq<real>, m: real, p: nat, i: int)
    requires Matches(c, m) == [p] && 0 <= i < |c| && c[i] == m
    ensures i == p && c[p] == m
  {
    assert i in Matches(c, m);
  }

  /** The unique range maximum with a radius yields twice its truncated radius. */
  lemma DiameterOfPeak(c: seq<real>, hrs: seq<real>, idx: nat)
    requires IsUniquePeak(c, hrs, idx)
    ensures DatasetDiameter(c, hrs) == Success(2 * Trunc(hrs[idx]))
  {
    var m := RangeMax(c);
    var maxima := Matches(c, m);
    var j :| 0 <= j < RangeLength(|c|) && c[j] == m;
    assert c[idx] == m;
    assert idx in maxima;
    SingleMatch(maxima, idx);
  }

  /** An ascending index list whose only member is `idx` is `[idx]`. */
  lemma SingleMatch(idx: seq<nat>, i: nat)
    requires forall p, q :: 0 <= p < q < |idx| ==> idx[p] < idx[q]
    requires i in idx && forall k :: 0 <= k < |idx| ==> idx[k] == i
    ensures idx == [i]
  {
    assert idx[0] == idx[|idx| - 1];
  }

  /** Line 58 plots `hrs[0:200]` against `c[0:200]`, which needs slices of equal length. */
  predicate PlotFits(c: seq<real>, hrs: seq<real>)
  {
    RangeLength(|hrs|) == RangeLength(|c|)
  }

  /** Dataset `k` exists, yields a diameter, and its plot succeeds. */
  predicate Yields(contributions: seq<seq<real>>, hrs: seq<real>, k: nat)
  {
    k < |contributions| && DatasetDiameter(contributions[k], hrs).Success? && PlotFits(contributions[k], hrs)
  }

  /** The dataset at which extraction stopped, and why. */
  datatype Failed = Failed(dataset: nat, reason: Reason)

  /**
   * Lines 54-58: one diameter per dataset, in dataset order; the first
   * dataset that yields none, or whose plot raises, stops the script.
   */
  method ExtractDiameters(contributions: seq<seq<real>>, hrs: seq<real>, datasets: nat)
    returns (r: Result<seq<int>, Failed>)
    ensures r.Success? <==> forall k: nat :: k < datasets ==> Yields(contributions, hrs, k)
    ensures r.Success? ==>
      && datasets <= |contributions| && |r.value| == datasets
      && forall k :: 0 <= k < datasets ==> Success(r.value[k]) == DatasetDiameter(contributions[k], hrs)
    ensures r.Failure? ==>
      var k := r.error.dataset;
      && k < datasets
      && (forall j: nat :: j < k ==> Yields(contributions, hrs, j))
      && (if k >= |contributions| then r.error.reason == MissingDataset
          else if DatasetDiameter(contributions[k], hrs).Failure? then
            DatasetDiameter(contributions[k], hrs) == Failure(r.error.reason)
          else r.error.reason == PlotMismatch && !PlotFits(contributions[k], hrs))
  {
    var vals: seq<int> := [];
    for dataSet := 0 to datasets
      invariant |vals| == dataSet
      invariant forall j: nat :: j < dataSet ==> Yields(contributions, hrs, j)
      invariant dataSet <= |contributions|
      invariant forall j :: 0 <= j < dataSet ==> Success(vals[j]) == DatasetDiameter(contributions[j], hrs)
    {
      if dataSet >= |contributions| {
        assert !Yields(contributions, hrs, dataSet);
        return Failure(Failed(dataSet, MissingDataset));
      }
      var dia := DatasetDiameter(contributions[dataSet], hrs);
      if dia.Failure? {
        assert !Yields(contributions, hrs, dataSet);
        return Failure(Failed(dataSet, dia.error));
      }
      vals := vals + [dia.value];
      if !PlotFits(contributions[dataSet], hrs) {
        assert !Yields(contributions, hrs, dataSet);
        return Failure(Failed(dataSet, PlotMismatch));
      }
    }
    return Success(vals);
  }

  /** `np.average` of integers; the average of no values is `nan`, here `None`. */
  function Mean(vals: seq<int>): (r: Option<real>)
    ensures r.Some? <==> |vals| > 0
    ensures r.Some? ==> r.value * |vals| as real == Sum(vals) as real
  {
    if |vals| == 0 then None else Some(Sum(vals) as real / |vals| as real)
  }

  lemma {:induction false} SumBounds(vals: seq<int>, lo: int, hi: int)
    requires forall k :: 0 <= k < |vals| ==> lo <= vals[k] <= hi
    ensures |vals| * lo <= Sum(vals) <= |vals| * hi
  {
    if vals != [] {
      var init := vals[..|vals| - 1];
      SumBounds(init, lo, hi);
      assert Sum(vals) == Sum(init) + vals[|vals| - 1];
      assert |vals| * lo == |init| * lo + lo && |vals| * hi == |init| * hi + hi;
    }
  }

  /** The average diameter lies between the smallest and the largest diameter. */
  lemma MeanWithinBounds(vals: seq<int>, lo: int, hi: int)
    requires |vals| > 0
    requires forall k :: 0 <= k < |vals| ==> lo <= vals[k] <= hi
    ensures lo as real <= Mean(vals).value <= hi as real
  {
    SumBounds(vals, lo, hi);
  }

  /** Lines 54-62: the diameters and their average, or the dataset at which the script stopped. */
  method AverageDiameter(contributions: seq<seq<real>>, hrs: seq<real>, datasets: nat)
    returns (r: Result<(seq<int>, Option<real>), Failed>)
    ensures r.Success? <==> forall k: nat :: k < datasets ==> Yields(contributions, hrs, k)
    ensures r.Success? ==>
      && datasets <= |contributions| && |r.value.0| == datasets
      && (forall k :: 0 <= k < datasets ==> Success(r.value.0[k]) == DatasetDiameter(contributions[k], hrs))
      && r.value.1 == Mean(r.value.0)
    ensures r.Failure? ==> r.error.dataset < datasets
  {
    var vals := ExtractDiameters(contributions, hrs, datasets);
    if vals.Failure? {
      return Failure(vals.error);
    }
    r := Success((vals.value, Mean(vals.value)));
  }
}
