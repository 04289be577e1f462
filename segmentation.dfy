/**
 * Segmentation: `find_local_extrema` and `convert_to_peaks`. The raw stream
 * is cut into chunks of `SetLength - 1` samples; in each chunk the first
 * global maximum is bracketed by the nearest valleys that also pass a short
 * moving-window test, and the run from the peak up to (not including) the
 * right valley becomes that chunk's peak segment. The segments are sorted by
 * length and laid out as columns padded with each column's own minimum.
 */
module Segmentation {
  import opened Common

  const SetLength: nat := 1600
  const NumSets: nat := 7
  /** End of `selected_range`: only the first `SetLength * NumSets` values are read. */
  const SelectedEnd: nat := SetLength * NumSets
  /** The chunking loop closes a chunk at `SetLength - 1` values. */
  const ChunkLength: nat := SetLength - 1
  const DefaultTolerance: int := 4
  /** Window lengths of the left and right moving-window tests. */
  const LeftSpan: nat := 4
  const RightSpan: nat := 3

  // ---------------------------------------------------------------------
  // Python slices

  function Reversed(s: seq<int>): (r: seq<int>)
    ensures |r| == |s|
    ensures forall k :: 0 <= k < |s| ==> r[k] == s[|s| - 1 - k]
  {
    if s == [] then [] else [s[|s| - 1]] + Reversed(s[..|s| - 1])
  }

  /** Python's normalisation of a slice bound for a sequence of length `n` when the step is -1. */
  function DownBound(b: int, n: nat): (r: int)
    ensures -1 <= r < n || (n == 0 && r == -1)
  {
    if b < 0 then (if b + n < 0 then -1 else b + n)
    else if b >= n then n - 1
    else b
  }

  /** Python's normalisation of a slice bound for a sequence of length `n` when the step is 1. */
  function UpBound(b: int, n: nat): (r: nat)
    ensures r <= n
  {
    if b < 0 then (if b + n < 0 then 0 else b + n)
    else if b > n then n
    else b
  }

  /** Python's `y[start:stop:-1]`. */
  function DownSlice(y: seq<int>, start: int, stop: int): seq<int>
  {
    var hi := DownBound(start, |y|);
    var lo := DownBound(stop, |y|);
    if lo < hi then Reversed(y[lo + 1..hi + 1]) else []
  }

  /** Python's `y[start:stop]`. */
  function UpSlice(y: seq<int>, start: int, stop: int): seq<int>
  {
    var lo := UpBound(start, |y|);
    var hi := UpBound(stop, |y|);
    if lo < hi then y[lo..hi] else []
  }

  /** `y[i : i - 4 : -1]`, the window of the left test. */
  function LeftWindow(y: seq<int>, i: int): seq<int>
  {
    DownSlice(y, i, i - LeftSpan)
  }

  /** `y[i : i + 3]`, the window of the right test. */
  function RightWindow(y: seq<int>, i: int): seq<int>
  {
    UpSlice(y, i, i + RightSpan)
  }

  /**
   * Over the indices the left scan visits, the left window holds four
   * samples walking away from the peak from index 4 on; below index 4 it is
   * empty, except in a three-sample list, where the negative stop wraps
   * round to index 0 and the window is the single sample `y[1]`.
   */
  lemma LeftWindowShape(y: seq<int>, i: int)
    requires 1 <= i < |y| - 1
    ensures i >= LeftSpan ==> LeftWindow(y, i) == [y[i], y[i - 1], y[i - 2], y[i - 3]]
    ensures i < LeftSpan && |y| >= LeftSpan ==> LeftWindow(y, i) == []
    ensures |y| == 3 ==> LeftWindow(y, i) == [y[1]]
  {
  }

  /** The right window holds three samples, cut short at the end of the list (two at `i = |y| - 2`). */
  lemma RightWindowShape(y: seq<int>, i: int)
    requires 1 <= i < |y| - 1
    ensures RightWindow(y, i) == y[i..Min(i + RightSpan, |y|)]
    ensures i + RightSpan <= |y| ==> |RightWindow(y, i)| == RightSpan
    ensures i == |y| - 2 ==> RightWindow(y, i) == [y[i], y[i + 1]]
  {
  }

  // ---------------------------------------------------------------------
  // The acceptance tests

  predicate IsValley(y: seq<int>, i: int)
  {
    1 <= i < |y| - 1 && y[i - 1] >= y[i] && y[i] <= y[i + 1]
  }

  /** `abs(sum(window) / span - v) > threshold`, on exact rationals. */
  predicate Deviates(window: seq<int>, span: nat, v: int, threshold: real)
    requires span > 0
  {
    RealAbs(Sum(window) as real / span as real - v as real) > threshold
  }

  /** The left scan accepts `i`: a valley whose four-sample average departs from it by more than `tol / 4`. */
  predicate LeftAccept(y: seq<int>, i: int, tol: int)
  {
    IsValley(y, i) && Deviates(LeftWindow(y, i), LeftSpan, y[i], tol as real / 4.0)
  }

  /** The right scan accepts `i`: a valley whose three-sample average departs from it by more than `tol`. */
  predicate RightAccept(y: seq<int>, i: int, tol: int)
  {
    IsValley(y, i) && Deviates(RightWindow(y, i), RightSpan, y[i], tol as real)
  }

  /** The left test in integers: `|S - 4 y[i]| > tolerance`. */
  lemma LeftTestInIntegers(y: seq<int>, i: int, tol: int)
    ensures LeftAccept(y, i, tol) <==>
      IsValley(y, i) && Abs(Sum(LeftWindow(y, i)) - LeftSpan * y[i]) > tol
  {
  }

  /** The right test in integers: `|S - 3 y[i]| > 3 tolerance`. */
  lemma RightTestInIntegers(y: seq<int>, i: int, tol: int)
    ensures RightAccept(y, i, tol) <==>
      IsValley(y, i) && Abs(Sum(RightWindow(y, i)) - RightSpan * y[i]) > RightSpan * tol
  {
  }

  // ---------------------------------------------------------------------
  // find_local_extrema, as specification

  /** `k` is `y.index(max(y))`: it holds the maximum and nothing before it does. */
  predicate IsFirstMax(y: seq<int>, k: int)
  {
    0 <= k < |y| &&
    (forall j :: 0 <= j < |y| ==> y[j] <= y[k]) &&
    (forall j :: 0 <= j < k ==> y[j] < y[k])
  }

  function FirstMax(y: seq<int>): (k: nat)
    requires |y| > 0
    ensures IsFirstMax(y, k)
  {
    if |y| == 1 then 0
    else
      var k := FirstMax(y[..|y| - 1]);
      if y[|y| - 1] > y[k] then |y| - 1 else k
  }

  /** The left scan from `i` down to 1: the first index it accepts, if any. */
  function NearestLeft(y: seq<int>, i: int, tol: int): (r: Option<nat>)
    requires i < |y| - 1
    ensures r.Some? ==>
      && 1 <= r.value <= i
      && LeftAccept(y, r.value, tol)
      && forall j :: r.value < j <= i ==> !LeftAccept(y, j, tol)
    ensures r.None? ==> forall j :: 1 <= j <= i ==> !LeftAccept(y, j, tol)
    decreases i
  {
    if i < 1 then None
    else if LeftAccept(y, i, tol) then Some(i)
    else NearestLeft(y, i - 1, tol)
  }

  /** The right scan from `i` up to `|y| - 2`: the first index it accepts, if any. */
  function NearestRight(y: seq<int>, i: int, tol: int): (r: Option<nat>)
    requires 1 <= i
    ensures r.Some? ==>
      && i <= r.value <= |y| - 2
      && RightAccept(y, r.value, tol)
      && forall j :: i <= j < r.value ==> !RightAccept(y, j, tol)
    ensures r.None? ==> forall j :: i <= j < |y| - 1 ==> !RightAccept(y, j, tol)
    decreases |y| - i
  {
    if i >= |y| - 1 then None
    else if RightAccept(y, i, tol) then Some(i)
    else NearestRight(y, i + 1, tol)
  }

  datatype Extrema = Extrema(left: nat, peak: nat, right: nat)

  /**
   * What `find_local_extrema` returns: nothing for fewer than three values
   * or when either scan accepts no index; otherwise the first maximum with
   * the nearest accepted valley on each side.
   */
  function LocalExtrema(y: seq<int>, tol: int): (r: Option<Extrema>)
    ensures |y| < 3 ==> r.None?
    ensures r.Some? ==> 1 <= r.value.left < r.value.peak < r.value.right <= |y| - 2
  {
    if |y| < 3 then None
    else
      var peak := FirstMax(y);
      Pair(NearestLeft(y, peak - 1, tol), peak, NearestRight(y, peak + 1, tol))
  }

  /** The peak with its two valleys, or nothing when either scan found none. */
  function Pair(left: Option<nat>, peak: nat, right: Option<nat>): (r: Option<Extrema>)
    ensures r.Some? <==> left.Some? && right.Some?
    ensures r.Some? ==> r.value == Extrema(left.value, peak, right.value)
  {
    if left.None? || right.None? then None
    else Some(Extrema(left.value, peak, right.value))
  }

  /**
   * What `find_local_extrema` promises: the peak is the first maximum, the
   * left and right results are accepted valleys and are the accepted indices
   * nearest the peak; nothing is returned exactly when the list is too short
   * or one side has no accepted index.
   */
  lemma LocalExtremaSpec(y: seq<int>, tol: int)
    ensures var r := LocalExtrema(y, tol);
      r.Some? ==>
        && IsFirstMax(y, r.value.peak)
        && 1 <= r.value.left < r.value.peak < r.value.right <= |y| - 2
        && LeftAccept(y, r.value.left, tol)
        && (forall j :: r.value.left < j < r.value.peak ==> !LeftAccept(y, j, tol))
        && RightAccept(y, r.value.right, tol)
        && (forall j :: r.value.peak < j < r.value.right ==> !RightAccept(y, j, tol))
    ensures LocalExtrema(y, tol).None? <==>
      |y| < 3 ||
      (forall j :: 1 <= j < FirstMax(y) ==> !LeftAccept(y, j, tol)) ||
      (forall j :: FirstMax(y) < j < |y| - 1 ==> !RightAccept(y, j, tol))
  {
    if |y| >= 3 {
      LocalExtremaUnfold(y, tol);
      LocalExtremaFound(y, tol);
      LocalExtremaAbsent(y, tol);
    }
  }

  /** `LocalExtrema` in terms of the two scans from the first maximum. */
  lemma LocalExtremaUnfold(y: seq<int>, tol: int)
    requires |y| >= 3
    ensures var peak := FirstMax(y);
      LocalExtrema(y, tol) == Pair(NearestLeft(y, peak - 1, tol), peak, NearestRight(y, peak + 1, tol))
  {
  }

  lemma LocalExtremaFound(y: seq<int>, tol: int)
    requires |y| >= 3
    requires var peak := FirstMax(y);
      LocalExtrema(y, tol) == Pair(NearestLeft(y, peak - 1, tol), peak, NearestRight(y, peak + 1, tol))
    ensures var r := LocalExtrema(y, tol);
      r.Some? ==>
        && IsFirstMax(y, r.value.peak)
        && LeftAccept(y, r.value.left, tol)
        && (forall j :: r.value.left < j < r.value.peak ==> !LeftAccept(y, j, tol))
        && RightAccept(y, r.value.right, tol)
        && (forall j :: r.value.peak < j < r.value.right ==> !RightAccept(y, j, tol))
  {
  }

  lemma LocalExtremaAbsent(y: seq<int>, tol: int)
    requires |y| >= 3
    requires var peak := FirstMax(y);
      LocalExtrema(y, tol) == Pair(NearestLeft(y, peak - 1, tol), peak, NearestRight(y, peak + 1, tol))
    ensures LocalExtrema(y, tol).None? <==>
      (forall j :: 1 <= j < FirstMax(y) ==> !LeftAccept(y, j, tol)) ||
      (forall j :: FirstMax(y) < j < |y| - 1 ==> !RightAccept(y, j, tol))
  {
  }

  /** The peak index is determined: any first maximum is the one `LocalExtrema` uses. */
  lemma FirstMaxUnique(y: seq<int>, k: int)
    requires IsFirstMax(y, k)
    ensures k == FirstMax(y)
  {
  }

  // ---------------------------------------------------------------------
  // find_local_extrema, as the scans it runs

  method FindLocalExtrema(y: seq<int>, tol: int) returns (r: Option<Extrema>)
    ensures r == LocalExtrema(y, tol)
  {
    if |y| < 3 {
      return None;
    }
    var peak := FirstMax(y);
    var left := ScanLeft(y, peak, tol);
    var right := ScanRight(y, peak, tol);
    if left.None? || right.None? {
      r := None;
    } else {
      r := Some(Extrema(left.value, peak, right.value));
    }
  }

  /** The left test at `i`: `forward_average` over `y[i:i-4:-1]`, then the valley and deviation checks. */
  method LeftTest(y: seq<int>, i: int, tol: int) returns (accept: bool)
    requires 1 <= i < |y| - 1
    ensures accept <==> IsValley(y, i) && Abs(Sum(LeftWindow(y, i)) - LeftSpan * y[i]) > tol
    ensures accept == LeftAccept(y, i, tol)
  {
    var forwardAverage := Sum(DownSlice(y, i, i - LeftSpan)) as real / LeftSpan as real;
    accept := y[i - 1] >= y[i] && y[i] <= y[i + 1] && RealAbs(forwardAverage - y[i] as real) > tol as real / 4.0;
    LeftTestInIntegers(y, i, tol);
  }

  /** The right test at `j`: `forward_average` over `y[j:j+3]`, then the valley and deviation checks. */
  method RightTest(y: seq<int>, j: int, tol: int) returns (accept: bool)
    requires 1 <= j < |y| - 1
    ensures accept <==> IsValley(y, j) && Abs(Sum(RightWindow(y, j)) - RightSpan * y[j]) > RightSpan * tol
    ensures accept == RightAccept(y, j, tol)
  {
    var forwardAverage := Sum(UpSlice(y, j, j + RightSpan)) as real / RightSpan as real;
    accept := y[j - 1] >= y[j] && y[j] <= y[j + 1] && RealAbs(forwardAverage - y[j] as real) > tol as real;
    RightTestInIntegers(y, j, tol);
  }

  /** `for i in range(peak - 1, 0, -1)`, stopping at the first accepted index. */
  method ScanLeft(y: seq<int>, peak: nat, tol: int) returns (left: Option<nat>)
    requires peak < |y|
    ensures left == NearestLeft(y, peak - 1, tol)
  {
    left := None;
    var i := peak - 1;
    while i > 0
      invariant -1 <= i < peak
      invariant NearestLeft(y, peak - 1, tol) == NearestLeft(y, i, tol)
      decreases i
    {
      var accept := LeftTest(y, i, tol);
      if accept {
        left := Some(i);
        break;
      }
      i := i - 1;
    }
  }

  /** `for i in range(peak + 1, len(y) - 1)`, stopping at the first accepted index. */
  method ScanRight(y: seq<int>, peak: nat, tol: int) returns (right: Option<nat>)
    requires peak < |y|
    ensures right == NearestRight(y, peak + 1, tol)
  {
    right := None;
    var j := peak + 1;
    while j < |y| - 1
      invariant peak < j
      invariant NearestRight(y, peak + 1, tol) == NearestRight(y, j, tol)
      decreases |y| - j
    {
      var accept := RightTest(y, j, tol);
      if accept {
        right := Some(j);
        break;
      }
      j := j + 1;
    }
  }

  // ---------------------------------------------------------------------
  // convert_to_peaks

  /** `subset[peak:right_min]`: from the peak up to, not including, the right valley. */
  function PeakSegment(chunk: seq<int>, e: Extrema): seq<int>
    requires e.peak <= e.right <= |chunk|
  {
    chunk[e.peak..e.right]
  }

  /**
   * A peak segment is non-empty, starts with the chunk's maximum, has
   * `right - peak` samples and stops just before the right valley.
   */
  lemma PeakSegmentShape(chunk: seq<int>, tol: int)
    requires LocalExtrema(chunk, tol).Some?
    ensures var e := LocalExtrema(chunk, tol).value;
      var s := PeakSegment(chunk, e);
      && |s| == e.right - e.peak > 0
      && (forall j :: 0 <= j < |chunk| ==> chunk[j] <= s[0])
      && (forall k :: 0 <= k < |s| ==> s[k] == chunk[e.peak + k])
      && e.right < |chunk|
  {
  }

  predicate AllBracketed(chunks: seq<seq<int>>, tol: int)
  {
    forall k :: 0 <= k < |chunks| ==> LocalExtrema(chunks[k], tol).Some?
  }

  /** The peak segments of all chunks, in chunk order. */
  function PeakSegments(chunks: seq<seq<int>>, tol: int): (segs: seq<seq<int>>)
    requires AllBracketed(chunks, tol)
    ensures |segs| == |chunks|
    ensures forall k :: 0 <= k < |chunks| ==>
      segs[k] == PeakSegment(chunks[k], LocalExtrema(chunks[k], tol).value) && |segs[k]| > 0
  {
    if chunks == [] then []
    else
      var n := |chunks| - 1;
      PeakSegments(chunks[..n], tol) + [PeakSegment(chunks[n], LocalExtrema(chunks[n], tol).value)]
  }

  /** Bracketing one more chunk extends the peak segments by that chunk's segment. */
  lemma PeakSegmentsSnoc(chunks: seq<seq<int>>, k: nat, tol: int)
    requires k < |chunks| && AllBracketed(chunks[..k], tol) && LocalExtrema(chunks[k], tol).Some?
    ensures AllBracketed(chunks[..k + 1], tol)
    ensures PeakSegments(chunks[..k + 1], tol) ==
      PeakSegments(chunks[..k], tol) + [PeakSegment(chunks[k], LocalExtrema(chunks[k], tol).value)]
  {
    var next := chunks[..k + 1];
    assert next[..k] == chunks[..k] && next[k] == chunks[k];
    forall j | 0 <= j < k + 1
      ensures LocalExtrema(next[j], tol).Some?
    {
      if j < k {
        assert next[j] == chunks[..k][j];
      }
    }
  }

  /** The length of the longest segment (`max_iterations`), 0 for none. */
  function MaxLength(segs: seq<seq<int>>): (m: nat)
    ensures forall k :: 0 <= k < |segs| ==> |segs[k]| <= m
    ensures segs == [] ==> m == 0
    ensures segs != [] ==> exists k :: 0 <= k < |segs| && |segs[k]| == m
  {
    if segs == [] then 0
    else
      var m := MaxLength(segs[..|segs| - 1]);
      if |segs[|segs| - 1]| > m then |segs[|segs| - 1]| else m
  }

  /** One more segment raises the maximum length exactly when it is longer. */
  lemma MaxLengthSnoc(segs: seq<seq<int>>, v: seq<int>)
    ensures MaxLength(segs + [v]) == if |v| > MaxLength(segs) then |v| else MaxLength(segs)
  {
    assert (segs + [v])[..|segs|] == segs;
  }

  /** Python's `min` of a non-empty list. */
  function SeqMin(s: seq<int>): (m: int)
    requires |s| > 0
    ensures m in s
    ensures forall k :: 0 <= k < |s| ==> m <= s[k]
  {
    if |s| == 1 then s[0]
    else
      var m := SeqMin(s[..|s| - 1]);
      if s[|s| - 1] < m then s[|s| - 1] else m
  }

  // `sorted(sub_maxs, key=len)`: a stable sort by length

  /** Inserts `x` after every element no longer than it. */
  function InsertByLength(sorted: seq<seq<int>>, x: seq<int>): seq<seq<int>>
  {
    if sorted == [] || |sorted[|sorted| - 1]| <= |x| then sorted + [x]
    else InsertByLength(sorted[..|sorted| - 1], x) + [sorted[|sorted| - 1]]
  }

  function SortByLength(segs: seq<seq<int>>): seq<seq<int>>
  {
    if segs == [] then []
    else InsertByLength(SortByLength(segs[..|segs| - 1]), segs[|segs| - 1])
  }

  predicate SortedByLength(segs: seq<seq<int>>)
  {
    forall p, q :: 0 <= p < q < |segs| ==> |segs[p]| <= |segs[q]|
  }

  /** The segments of length `len`, in their order. */
  function OfLength(segs: seq<seq<int>>, len: nat): seq<seq<int>>
  {
    if segs == [] then []
    else OfLength(segs[..|segs| - 1], len) + (if |segs[|segs| - 1]| == len then [segs[|segs| - 1]] else [])
  }

  lemma {:induction false} OfLengthAppend(a: seq<seq<int>>, b: seq<seq<int>>, len: nat)
    ensures OfLength(a + b, len) == OfLength(a, len) + OfLength(b, len)
    decreases |b|
  {
    if b == [] {
      assert a + b == a;
    } else {
      assert (a + b)[..|a + b| - 1] == a + b[..|b| - 1];
      OfLengthAppend(a, b[..|b| - 1], len);
    }
  }

  lemma {:induction false} InsertByLengthMultiset(sorted: seq<seq<int>>, x: seq<int>)
    ensures multiset(InsertByLength(sorted, x)) == multiset(sorted) + multiset{x}
    decreases |sorted|
  {
    if !(sorted == [] || |sorted[|sorted| - 1]| <= |x|) {
      var init, last := sorted[..|sorted| - 1], sorted[|sorted| - 1];
      assert sorted == init + [last];
      InsertByLengthMultiset(init, x);
    }
  }

  lemma {:induction false} InsertByLengthSorted(sorted: seq<seq<int>>, x: seq<int>)
    requires SortedByLength(sorted)
    ensures SortedByLength(InsertByLength(sorted, x))
    decreases |sorted|
  {
    var r := InsertByLength(sorted, x);
    if !(sorted == [] || |sorted[|sorted| - 1]| <= |x|) {
      var init, last := sorted[..|sorted| - 1], sorted[|sorted| - 1];
      assert sorted == init + [last];
      InsertByLengthSorted(init, x);
      InsertByLengthMultiset(init, x);
      var mid := InsertByLength(init, x);
      assert r == mid + [last];
      forall p | 0 <= p < |mid|
        ensures |mid[p]| <= |last|
      {
        assert mid[p] in multiset(init) + multiset{x};
        if mid[p] != x {
          assert mid[p] in init;
        }
      }
    }
  }

  lemma {:induction false} InsertByLengthStable(sorted: seq<seq<int>>, x: seq<int>, len: nat)
    ensures OfLength(InsertByLength(sorted, x), len) ==
      OfLength(sorted, len) + (if |x| == len then [x] else [])
    decreases |sorted|
  {
    var r := InsertByLength(sorted, x);
    if sorted == [] || |sorted[|sorted| - 1]| <= |x| {
      assert r[..|r| - 1] == sorted;
    } else {
      var init, last := sorted[..|sorted| - 1], sorted[|sorted| - 1];
      assert sorted == init + [last];
      InsertByLengthStable(init, x, len);
      var mid := InsertByLength(init, x);
      assert r == mid + [last];
      OfLengthAppend(mid, [last], len);
      OfLengthAppend(init, [last], len);
      assert OfLength([last], len) == (if |last| == len then [last] else []) by {
        assert [last][..0] == [];
      }
    }
  }

  /**
   * `sorted(segs, key=len)`: ascending by length, a permutation of the input,
   * and stable: the segments of each length keep their original order.
   */
  lemma {:induction false} SortByLengthProperties(segs: seq<seq<int>>)
    ensures SortedByLength(SortByLength(segs))
    ensures multiset(SortByLength(segs)) == multiset(segs)
    ensures forall len: nat :: OfLength(SortByLength(segs), len) == OfLength(segs, len)
    decreases |segs|
  {
    if segs != [] {
      var init, last := segs[..|segs| - 1], segs[|segs| - 1];
      SortByLengthProperties(init);
      var sortedInit := SortByLength(init);
      InsertByLengthSorted(sortedInit, last);
      InsertByLengthMultiset(sortedInit, last);
      assert segs == init + [last];
      forall len: nat
        ensures OfLength(SortByLength(segs), len) == OfLength(segs, len)
      {
        InsertByLengthStable(sortedInit, last, len);
      }
    }
  }

  /**
   * The padded table: row `r` holds, for each segment, its `r`-th sample, or
   * the segment's minimum once the segment has run out.
   */
  predicate IsPadded(table: seq<seq<int>>, segs: seq<seq<int>>, height: nat)
    requires forall c :: 0 <= c < |segs| ==> |segs[c]| > 0
  {
    && |table| == height
    && (forall r :: 0 <= r < height ==> |table[r]| == |segs|)
    && (forall r, c :: 0 <= r < height && 0 <= c < |segs| ==>
          table[r][c] == if r < |segs[c]| then segs[c][r] else SeqMin(segs[c]))
  }

  /** Writes the rows of the peak table, padding each exhausted column with its minimum. */
  method PadColumns(segs: seq<seq<int>>, height: nat) returns (table: seq<seq<int>>)
    requires forall c :: 0 <= c < |segs| ==> |segs[c]| > 0
    ensures IsPadded(table, segs, height)
  {
    table := [];
    for index := 0 to height
      invariant |table| == index
      invariant forall r :: 0 <= r < index ==> |table[r]| == |segs|
      invariant forall r, c :: 0 <= r < index && 0 <= c < |segs| ==>
        table[r][c] == if r < |segs[c]| then segs[c][r] else SeqMin(segs[c])
    {
      var data: seq<int> := [];
      for c := 0 to |segs|
        invariant |data| == c
        invariant forall c' :: 0 <= c' < c ==>
          data[c'] == if index < |segs[c']| then segs[c'][index] else SeqMin(segs[c'])
      {
        var sub := segs[c];
        var tail := SeqMin(sub);
        if index < |sub| {
          data := data + [sub[index]];
        } else {
          data := data + [tail];
        }
      }
      table := table + [data];
    }
  }

  /** Padding never invents values: every entry of a column comes from its segment. */
  lemma PaddedEntriesFromSegment(table: seq<seq<int>>, segs: seq<seq<int>>, height: nat, r: nat, c: nat)
    requires forall c :: 0 <= c < |segs| ==> |segs[c]| > 0
    requires IsPadded(table, segs, height) && r < height && c < |segs|
    ensures table[r][c] in segs[c]
    ensures r >= |segs[c]| ==> forall k :: 0 <= k < |segs[c]| ==> table[r][c] <= segs[c][k]
  {
  }

  /** What `convert_to_peaks` produces when it does not raise. */
  datatype Conversion = Conversion(segments: seq<seq<int>>, maxIterations: nat, peaks: seq<seq<int>>)

  /**
   * Why it raises: an empty time column (`time_plot[-1]`), a chunk without
   * two bracketing valleys (`None[1]`), or fewer chunks than the full-table
   * loop indexes.
   */
  datatype ConversionError = EmptyTimeColumn | NoBoundary(chunk: nat) | ZeroTimeStep | TooFewSets

  /** `time_plot[-1]`: the last of the first `SetLength` times. */
  function LastPlotTime(times: seq<int>): int
    requires |times| > 0
  {
    times[Min(|times|, SetLength) - 1]
  }

  /** The chunks `convert_to_peaks` cuts from the values it reads. */
  function SelectedChunks(values: seq<int>): seq<seq<int>>
  {
    Chunks(values[..Min(|values|, SelectedEnd)], ChunkLength)
  }

  method ConvertToPeaks(times: seq<int>, values: seq<int>) returns (r: Result<Conversion, ConversionError>)
    requires |times| == |values|
    ensures |times| == 0 ==> r == Failure(EmptyTimeColumn)
    ensures r.Success? <==>
      && |times| > 0 && AllBracketed(SelectedChunks(values), DefaultTolerance)
      && LastPlotTime(times) != 0 && |SelectedChunks(values)| >= NumSets
    ensures r.Failure? && r.error.NoBoundary? <==>
      |times| > 0 && !AllBracketed(SelectedChunks(values), DefaultTolerance)
    ensures r == Failure(ZeroTimeStep) <==>
      |times| > 0 && AllBracketed(SelectedChunks(values), DefaultTolerance) && LastPlotTime(times) == 0
    ensures r == Failure(TooFewSets) <==>
      && |times| > 0 && AllBracketed(SelectedChunks(values), DefaultTolerance)
      && LastPlotTime(times) != 0 && |SelectedChunks(values)| < NumSets
    ensures r.Failure? && r.error.NoBoundary? ==>
      var k := r.error.chunk;
      && k < |SelectedChunks(values)|
      && LocalExtrema(SelectedChunks(values)[k], DefaultTolerance).None?
      && AllBracketed(SelectedChunks(values)[..k], DefaultTolerance)
    ensures r.Success? ==>
      var segs := PeakSegments(SelectedChunks(values), DefaultTolerance);
      && r.value.segments == SortByLength(segs)
      && r.value.maxIterations == MaxLength(segs)
      && (forall c :: 0 <= c < |r.value.segments| ==> |r.value.segments[c]| > 0)
      && IsPadded(r.value.peaks, r.value.segments, r.value.maxIterations)
  {
    if |times| == 0 {
      return Failure(EmptyTimeColumn);
    }
    var yData := values[..Min(|values|, SelectedEnd)];
    var allSets := ChunkStream(yData, ChunkLength);
    var found, maxIterations := CollectPeakSegments(allSets);
    if found.Failure? {
      return Failure(NoBoundary(found.error));
    }
    r := TabulatePeaks(found.value, maxIterations, LastPlotTime(times), |allSets|);
  }

  /**
   * Lines 135-168, once every chunk has given its peak segment: sort the
   * segments by length, build the time axis with step `last_time / 1600`,
   * write the full table (which needs `NumSets` chunks) and pad the peaks.
   */
  method TabulatePeaks(subMaxs: seq<seq<int>>, maxIterations: nat, lastTime: int, chunkCount: nat)
    returns (r: Result<Conversion, ConversionError>)
    requires forall c :: 0 <= c < |subMaxs| ==> |subMaxs[c]| > 0
    ensures r.Success? <==> lastTime != 0 && chunkCount >= NumSets
    ensures r == Failure(ZeroTimeStep) <==> lastTime == 0
    ensures r == Failure(TooFewSets) <==> lastTime != 0 && chunkCount < NumSets
    ensures r.Success? ==>
      && r.value.segments == SortByLength(subMaxs)
      && r.value.maxIterations == maxIterations
      && (forall c :: 0 <= c < |r.value.segments| ==> |r.value.segments[c]| > 0)
      && IsPadded(r.value.peaks, r.value.segments, r.value.maxIterations)
  {
    var sorted := SortByLength(subMaxs);
    SortByLengthProperties(subMaxs);
    forall c | 0 <= c < |sorted|
      ensures |sorted[c]| > 0
    {
      assert sorted[c] in multiset(subMaxs);
    }
    var averageTime := lastTime as real / SetLength as real;
    if averageTime == 0.0 {
      // `np.arange` with a zero step raises ZeroDivisionError
      return Failure(ZeroTimeStep);
    }
    if chunkCount < NumSets {
      return Failure(TooFewSets);
    }
    var table := PadColumns(sorted, maxIterations);
    r := Success(Conversion(sorted, maxIterations, table));
  }

  /** `find_local_extrema` on one chunk, then `subset[peak:right_min]`; nothing when the chunk has no brackets. */
  method PeakSegmentOf(subset: seq<int>) returns (values: Option<seq<int>>)
    ensures values.None? <==> LocalExtrema(subset, DefaultTolerance).None?
    ensures values.Some? ==> values.value == PeakSegment(subset, LocalExtrema(subset, DefaultTolerance).value)
  {
    var dataSet := FindLocalExtrema(subset, DefaultTolerance);
    if dataSet.None? {
      return None;
    }
    return Some(subset[dataSet.value.peak..dataSet.value.right]);
  }

  /**
   * The loop over `all_sets`: each chunk's peak segment and the running
   * `max_iterations`; a chunk without bracketing valleys raises (its index is
   * returned as the error).
   */
  method CollectPeakSegments(allSets: seq<seq<int>>) returns (r: Result<seq<seq<int>>, nat>, maxIterations: nat)
    ensures r.Success? <==> AllBracketed(allSets, DefaultTolerance)
    ensures r.Failure? ==>
      && r.error < |allSets|
      && LocalExtrema(allSets[r.error], DefaultTolerance).None?
      && AllBracketed(allSets[..r.error], DefaultTolerance)
    ensures r.Success? ==>
      && r.value == PeakSegments(allSets, DefaultTolerance)
      && maxIterations == MaxLength(r.value)
  {
    var subMaxs: seq<seq<int>> := [];
    maxIterations := 0;
    for k := 0 to |allSets|
      invariant AllBracketed(allSets[..k], DefaultTolerance)
      invariant subMaxs == PeakSegments(allSets[..k], DefaultTolerance)
      invariant maxIterations == MaxLength(subMaxs)
    {
      var values := PeakSegmentOf(allSets[k]);
      if values.None? {
        assert !AllBracketed(allSets, DefaultTolerance) by {
          assert LocalExtrema(allSets[k], DefaultTolerance).None?;
        }
        return Failure(k), maxIterations;
      }
      MaxLengthSnoc(subMaxs, values.value);
      if |values.value| > maxIterations {
        maxIterations := |values.value|;
      }
      PeakSegmentsSnoc(allSets, k, DefaultTolerance);
      subMaxs := subMaxs + [values.value];
    }
    assert allSets[..|allSets|] == allSets;
    assert AllBracketed(allSets, DefaultTolerance);
    r := Success(subMaxs);
  }
}
