/**
 * Averaging: the `data_format.py` script. The stream is cut into sets of
 * exactly `SetLength` samples, the first `NumSets` sets are averaged sample by
 * sample, and `extract_extrema` brackets the strongest smoothed peak by the
 * nearest candidate minima; the samples from the peak to the right minimum
 * are written with peak-relative times.
 */
module Averaging {
  import opened Common

  const SetLength: nat := 1600
  const NumSets: nat := 4
  /** End of `selected_range`. */
  const SelectedEnd: nat := SetLength * NumSets

  predicate AllSetLength(sets: seq<seq<int>>)
  {
    forall j :: 0 <= j < |sets| ==> |sets[j]| == SetLength
  }

  /** `sets[0][i] + ... + sets[n - 1][i]`. */
  function ColumnSum(sets: seq<seq<int>>, i: nat, n: nat): int
    requires n <= |sets| && AllSetLength(sets) && i < SetLength
  {
    if n == 0 then 0 else ColumnSum(sets, i, n - 1) + sets[n - 1][i]
  }

  /** The element-wise mean of the first `NumSets` sets, as the averaging loop computes it. */
  predicate IsAverage(avg: seq<real>, sets: seq<seq<int>>)
    requires |sets| >= NumSets && AllSetLength(sets)
  {
    |avg| == SetLength &&
    forall i :: 0 <= i < SetLength ==> avg[i] == ColumnSum(sets, i, NumSets) as real / NumSets as real
  }

  /**
   * `avg_data`: the first set's sample is appended, the other sets' samples
   * are added to it, and the total is divided by `NumSets`.
   */
  method AverageSets(sets: seq<seq<int>>) returns (avg: seq<real>)
    requires |sets| >= NumSets && AllSetLength(sets)
    ensures IsAverage(avg, sets)
  {
    avg := [];
    for i := 0 to SetLength
      invariant |avg| == i
      invariant forall k :: 0 <= k < i ==> avg[k] == ColumnSum(sets, k, NumSets) as real / NumSets as real
    {
      for j := 0 to NumSets
        invariant j == 0 ==> |avg| == i
        invariant j > 0 ==> |avg| == i + 1 && avg[i] == ColumnSum(sets, i, j) as real
        invariant forall k :: 0 <= k < i ==> avg[k] == ColumnSum(sets, k, NumSets) as real / NumSets as real
      {
        if j == 0 {
          avg := avg + [sets[j][i] as real];
        } else {
          avg := avg[i := avg[i] + sets[j][i] as real];
        }
      }
      avg := avg[i := avg[i] / NumSets as real];
    }
  }

  lemma {:induction false} ColumnSumOfCopies(sets: seq<seq<int>>, i: nat, n: nat)
    requires n <= |sets| && AllSetLength(sets) && i < SetLength
    requires forall j :: 0 <= j < n ==> sets[j] == sets[0]
    ensures ColumnSum(sets, i, n) == n * (if n == 0 then 0 else sets[0][i])
  {
    if n > 1 {
      ColumnSumOfCopies(sets, i, n - 1);
    }
  }

  /** Averaging identical replicates gives the replicate back. */
  lemma AverageOfIdenticalSets(avg: seq<real>, sets: seq<seq<int>>)
    requires |sets| >= NumSets && AllSetLength(sets) && IsAverage(avg, sets)
    requires forall j :: 0 <= j < NumSets ==> sets[j] == sets[0]
    ensures forall i :: 0 <= i < SetLength ==> avg[i] == sets[0][i] as real
  {
    forall i | 0 <= i < SetLength
      ensures avg[i] == sets[0][i] as real
    {
      ColumnSumOfCopies(sets, i, NumSets);
    }
  }

  lemma {:induction false} ColumnSumBounds(sets: seq<seq<int>>, i: nat, n: nat, lo: int, hi: int)
    requires n <= |sets| && AllSetLength(sets) && i < SetLength
    requires forall j :: 0 <= j < n ==> lo <= sets[j][i] <= hi
    ensures n * lo <= ColumnSum(sets, i, n) <= n * hi
  {
    if n > 0 {
      ColumnSumBounds(sets, i, n - 1, lo, hi);
    }
  }

  /** Each averaged sample lies between the smallest and largest replicate sample at that position. */
  lemma AverageWithinReplicates(avg: seq<real>, sets: seq<seq<int>>, i: nat, lo: int, hi: int)
    requires |sets| >= NumSets && AllSetLength(sets) && IsAverage(avg, sets) && i < SetLength
    requires forall j :: 0 <= j < NumSets ==> lo <= sets[j][i] <= hi
    ensures lo as real <= avg[i] <= hi as real
  {
    ColumnSumBounds(sets, i, NumSets, lo, hi);
  }

  /** What the script computes before `extract_extrema`: the average and the rows of `average_data.csv`. */
  datatype Averaged = Averaged(avg: seq<real>, rows: seq<(int, real)>)

  /**
   * Lines 42-98 of the script: select the first `SelectedEnd` values, chunk
   * them into sets, average the first `NumSets` and write the first
   * `SetLength - 1` (time, average) rows; the script stops with an
   * `IndexError` (here `None`) when there are fewer than `NumSets` sets.
   */
  method AverageStream(times: seq<int>, values: seq<int>) returns (r: Option<Averaged>)
    requires |times| == |values|
    ensures r.Some? <==> |values| >= SelectedEnd
    ensures r.Some? ==>
      var sets := Chunks(values[..SelectedEnd], SetLength);
      && |sets| == NumSets && AllSetLength(sets)
      && IsAverage(r.value.avg, sets)
      && |r.value.rows| == SetLength - 1
      && forall j :: 0 <= j < SetLength - 1 ==> r.value.rows[j] == (times[j], r.value.avg[j])
  {
    var yData := values[..Min(|values|, SelectedEnd)];
    var time := times[..Min(|times|, SetLength)];
    var numSets := ChunkStream(yData, SetLength);
    ChunksShape(yData, SetLength);
    if |numSets| < NumSets {
      return None;
    }
    var avg := AverageSets(numSets);
    var rows: seq<(int, real)> := [];
    for j := 0 to SetLength - 1
      invariant |rows| == j
      invariant forall k :: 0 <= k < j ==> rows[k] == (times[k], avg[k])
    {
      rows := rows + [(time[j], avg[j])];
    }
    r := Some(Averaged(avg, rows));
  }

  // ---------------------------------------------------------------------
  // extract_extrema

  /** `np.argmax`: the first index holding the largest value. */
  function ArgMax(v: seq<real>): (k: nat)
    requires |v| > 0
    ensures k < |v|
    ensures forall j :: 0 <= j < |v| ==> v[j] <= v[k]
    ensures forall j :: 0 <= j < k ==> v[j] < v[k]
  {
    if |v| == 1 then 0
    else
      var k := ArgMax(v[..|v| - 1]);
      if v[|v| - 1] > v[k] then |v| - 1 else k
  }

  predicate IndicesIn(idx: seq<nat>, n: nat)
  {
    forall k :: 0 <= k < |idx| ==> idx[k] < n
  }

  /** `v[idx]` for an index array. */
  function Gather(v: seq<real>, idx: seq<nat>): (g: seq<real>)
    requires IndicesIn(idx, |v|)
    ensures |g| == |idx|
    ensures forall k :: 0 <= k < |idx| ==> g[k] == v[idx[k]]
  {
    seq(|idx|, k requires 0 <= k < |idx| => v[idx[k]])
  }

  /** `xs[xs < bound]`. */
  function Below(xs: seq<nat>, bound: nat): (r: seq<nat>)
    ensures forall m :: m in r <==> m in xs && m < bound
  {
    if xs == [] then []
    else Below(xs[..|xs| - 1], bound) + (if xs[|xs| - 1] < bound then [xs[|xs| - 1]] else [])
  }

  /** The mask keeps ascending minima in their order. */
  lemma {:induction false} BelowAscending(xs: seq<nat>, bound: nat)
    requires StrictlyAscending(xs)
    ensures StrictlyAscending(Below(xs, bound))
    decreases |xs|
  {
    if xs != [] {
      var init := Below(xs[..|xs| - 1], bound);
      BelowAscending(xs[..|xs| - 1], bound);
      var r := Below(xs, bound);
      forall p, q | 0 <= p < q < |r|
        ensures r[p] < r[q]
      {
        if q >= |init| {
          assert init[p] in xs[..|xs| - 1];
          var k :| 0 <= k < |xs| - 1 && xs[k] == init[p];
        }
      }
    }
  }

  /** `xs[xs > bound]`. */
  function Above(xs: seq<nat>, bound: nat): (r: seq<nat>)
    ensures forall m :: m in r <==> m in xs && m > bound
  {
    if xs == [] then []
    else (if xs[0] > bound then [xs[0]] else []) + Above(xs[1..], bound)
  }

  /** The mask keeps ascending minima in their order. */
  lemma {:induction false} AboveAscending(xs: seq<nat>, bound: nat)
    requires StrictlyAscending(xs)
    ensures StrictlyAscending(Above(xs, bound))
    decreases |xs|
  {
    if xs != [] {
      var head := if xs[0] > bound then [xs[0]] else [];
      var tail := Above(xs[1..], bound);
      AboveAscending(xs[1..], bound);
      var r := Above(xs, bound);
      assert r == head + tail;
      forall p, q | 0 <= p < q < |r|
        ensures r[p] < r[q]
      {
        if p < |head| {
          assert tail[q - |head|] in xs[1..];
          var k :| 0 < k < |xs| && xs[k] == tail[q - |head|];
        }
      }
    }
  }

  datatype Bracket = Bracket(left: nat, peak: nat, right: nat)

  /** The two `ValueError`s of `extract_extrema`. */
  datatype ExtremaError = TooFewExtrema | UnbracketedPeak

  /** `maxima_indices[np.argmax(smoothed_y[maxima_indices])]`. */
  function StrongestPeak(maxima: seq<nat>, smoothed: seq<real>): (p: nat)
    requires |maxima| > 0 && IndicesIn(maxima, |smoothed|)
    ensures p in maxima
    ensures forall k :: 0 <= k < |maxima| ==> smoothed[maxima[k]] <= smoothed[p]
    ensures exists k ::
      0 <= k < |maxima| && maxima[k] == p && (forall j :: 0 <= j < k ==> smoothed[maxima[j]] < smoothed[p])
  {
    var g := Gather(smoothed, maxima);
    var k := ArgMax(g);
    assert forall j :: 0 <= j < k ==> g[j] < g[k];
    maxima[k]
  }

  /**
   * `extract_extrema` on the candidate maxima and minima that `find_peaks`
   * reports for the smoothed signal.
   */
  function ExtractExtrema(maxima: seq<nat>, minima: seq<nat>, smoothed: seq<real>): (r: Result<Bracket, ExtremaError>)
    requires IndicesIn(maxima, |smoothed|)
    ensures r == Failure(TooFewExtrema) <==> |maxima| == 0 || |minima| < 2
    ensures r == Failure(UnbracketedPeak) <==>
      |maxima| > 0 && |minima| >= 2 &&
      ((forall m :: m in minima ==> m >= StrongestPeak(maxima, smoothed)) ||
       (forall m :: m in minima ==> m <= StrongestPeak(maxima, smoothed)))
    ensures r.Success? ==>
      && r.value.peak == StrongestPeak(maxima, smoothed)
      && r.value.left in minima && r.value.right in minima
      && r.value.left < r.value.peak < r.value.right
  {
    if |maxima| == 0 || |minima| < 2 then Failure(TooFewExtrema)
    else
      var maxIndex := StrongestPeak(maxima, smoothed);
      var leftMinima := Below(minima, maxIndex);
      var rightMinima := Above(minima, maxIndex);
      if |leftMinima| == 0 || |rightMinima| == 0 then
        assert (forall m :: m in minima ==> m >= maxIndex) || (forall m :: m in minima ==> m <= maxIndex);
        Failure(UnbracketedPeak)
      else
        assert leftMinima[|leftMinima| - 1] in leftMinima && rightMinima[0] in rightMinima;
        Success(Bracket(leftMinima[|leftMinima| - 1], maxIndex, rightMinima[0]))
  }

  predicate StrictlyAscending(xs: seq<nat>)
  {
    forall p, q :: 0 <= p < q < |xs| ==> xs[p] < xs[q]
  }

  /** Ascending minima keep their order below the bound, so the last one is the largest. */
  lemma BelowLastIsLargest(xs: seq<nat>, bound: nat)
    requires StrictlyAscending(xs) && |Below(xs, bound)| > 0
    ensures forall m :: m in xs && m < bound ==> m <= Below(xs, bound)[|Below(xs, bound)| - 1]
  {
    var r := Below(xs, bound);
    BelowAscending(xs, bound);
    forall m | m in xs && m < bound
      ensures m <= r[|r| - 1]
    {
      var k :| 0 <= k < |r| && r[k] == m;
    }
  }

  /** Ascending minima keep their order above the bound, so the first one is the smallest. */
  lemma AboveFirstIsSmallest(xs: seq<nat>, bound: nat)
    requires StrictlyAscending(xs) && |Above(xs, bound)| > 0
    ensures forall m :: m in xs && m > bound ==> Above(xs, bound)[0] <= m
  {
    var r := Above(xs, bound);
    AboveAscending(xs, bound);
    forall m | m in xs && m > bound
      ensures r[0] <= m
    {
      var k :| 0 <= k < |r| && r[k] == m;
    }
  }

  /** A successful extraction brackets the strongest peak with the last minimum below it and the first above it. */
  lemma ExtractedBracket(maxima: seq<nat>, minima: seq<nat>, smoothed: seq<real>)
    requires IndicesIn(maxima, |smoothed|)
    requires ExtractExtrema(maxima, minima, smoothed).Success?
    ensures |maxima| > 0
    ensures var p := StrongestPeak(maxima, smoothed);
      var below, above := Below(minima, p), Above(minima, p);
      && |below| > 0 && |above| > 0
      && ExtractExtrema(maxima, minima, smoothed).value == Bracket(below[|below| - 1], p, above[0])
  {
    assert |maxima| > 0 && |minima| >= 2;
    var p := StrongestPeak(maxima, smoothed);
    var below, above := Below(minima, p), Above(minima, p);
    assert ExtractExtrema(maxima, minima, smoothed) ==
      if |below| == 0 || |above| == 0 then Failure(UnbracketedPeak)
      else Success(Bracket(below[|below| - 1], p, above[0]));
  }

  /**
   * With ascending candidate minima (as `find_peaks` reports them), the left
   * result is the largest minimum below the peak and the right result the
   * smallest above it: no candidate minimum lies strictly between either of
   * them and the peak.
   */
  lemma ExtremaAreNearest(maxima: seq<nat>, minima: seq<nat>, smoothed: seq<real>)
    requires IndicesIn(maxima, |smoothed|) && StrictlyAscending(minima)
    requires ExtractExtrema(maxima, minima, smoothed).Success?
    ensures var b := ExtractExtrema(maxima, minima, smoothed).value;
      forall m :: m in minima ==> m <= b.left || m == b.peak || m >= b.right
  {
    var maxIndex := StrongestPeak(maxima, smoothed);
    var below, above := Below(minima, maxIndex), Above(minima, maxIndex);
    var b := ExtractExtrema(maxima, minima, smoothed).value;
    ExtractedBracket(maxima, minima, smoothed);
    BelowLastIsLargest(minima, maxIndex);
    AboveFirstIsSmallest(minima, maxIndex);
    forall m | m in minima
      ensures m <= b.left || m == b.peak || m >= b.right
    {
      if m < maxIndex {
        assert m <= below[|below| - 1];
      } else if m > maxIndex {
        assert above[0] <= m;
      }
    }
  }

  /**
   * Lines 163-166: the rows of `average_data_peak.csv`, from the peak up to
   * (not including) the right minimum, with times relative to the peak.
   */
  method PeakRows(time: seq<int>, avg: seq<real>, peak: nat, right: nat) returns (rows: seq<(int, real)>)
    requires peak <= right <= |time| && right <= |avg|
    ensures |rows| == right - peak
    ensures forall k :: 0 <= k < |rows| ==> rows[k] == (time[peak + k] - time[peak], avg[peak + k])
    ensures peak < right ==> rows[0].0 == 0
    ensures (forall a, b :: 0 <= a <= b < |time| ==> time[a] <= time[b]) ==>
      forall k :: 0 <= k < |rows| ==> rows[k].0 >= 0
  {
    rows := [];
    for j := peak to right
      invariant |rows| == j - peak
      invariant forall k :: 0 <= k < |rows| ==> rows[k] == (time[peak + k] - time[peak], avg[peak + k])
    {
      rows := rows + [(time[j] - time[peak], avg[j])];
    }
  }
}
