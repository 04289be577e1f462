/** Value types and sequence helpers shared by every stage of the pipeline. */
module Common {

  datatype Option<+T> = None | Some(value: T)

  /** A stage's value, or the reason the Python code raised instead. */
  datatype Result<+T, +E> = Success(value: T) | Failure(error: E)

  function Min(a: int, b: int): int
  {
    if a <= b then a else b
  }

  function Abs(x: int): nat
  {
    if x < 0 then -x else x
  }

  function RealAbs(x: real): real
  {
    if x < 0.0 then -x else x
  }

  /** Python's `sum` (and numpy's `np.sum`) over integers. */
  function Sum(s: seq<int>): int
  {
    if s == [] then 0 else Sum(s[..|s| - 1]) + s[|s| - 1]
  }

  lemma {:induction false} SumAppend(a: seq<int>, b: seq<int>)
    ensures Sum(a + b) == Sum(a) + Sum(b)
    decreases |b|
  {
    if b == [] {
      assert a + b == a;
    } else {
      var b' := b[..|b| - 1];
      assert (a + b)[..|a + b| - 1] == a + b';
      SumAppend(a, b');
    }
  }

  /** The concatenation of a sequence of sequences. */
  function Flatten<T>(ss: seq<seq<T>>): seq<T>
  {
    if ss == [] then [] else ss[0] + Flatten(ss[1..])
  }

  /**
   * The complete chunks of `n` consecutive elements of `s`, in order; a
   * trailing partial chunk is dropped.
   */
  function Chunks<T>(s: seq<T>, n: nat): seq<seq<T>>
    requires n > 0
    decreases |s|
  {
    if |s| < n then [] else [s[..n]] + Chunks(s[n..], n)
  }

  /**
   * Every chunk has exactly `n` elements, there are `|s| div n` of them, and
   * their concatenation is the prefix of `s` that they cover: only the
   * remainder is dropped.
   */
  lemma ChunksShape<T>(s: seq<T>, n: nat)
    requires n > 0
    ensures forall k :: 0 <= k < |Chunks(s, n)| ==> |Chunks(s, n)[k]| == n
    ensures |Chunks(s, n)| * n <= |s| < (|Chunks(s, n)| + 1) * n
    ensures |Chunks(s, n)| == |s| / n
    ensures Flatten(Chunks(s, n)) == s[..|Chunks(s, n)| * n]
  {
    ChunkSizes(s, n);
    ChunkCount(s, n);
    DivisionByBounds(|s|, n, |Chunks(s, n)|);
    ChunksCover(s, n);
  }

  lemma {:induction false} ChunkSizes<T>(s: seq<T>, n: nat)
    requires n > 0
    ensures forall k :: 0 <= k < |Chunks(s, n)| ==> |Chunks(s, n)[k]| == n
    decreases |s|
  {
    if |s| >= n {
      ChunkSizes(s[n..], n);
      assert Chunks(s, n) == [s[..n]] + Chunks(s[n..], n);
    }
  }

  lemma {:induction false} ChunkCount<T>(s: seq<T>, n: nat)
    requires n > 0
    ensures |Chunks(s, n)| * n <= |s| < (|Chunks(s, n)| + 1) * n
    decreases |s|
  {
    if |s| >= n {
      ChunkCount(s[n..], n);
      var m := |Chunks(s[n..], n)|;
      assert |Chunks(s, n)| == m + 1;
      assert (m + 1) * n == m * n + n && (m + 2) * n == (m + 1) * n + n;
    }
  }

  lemma {:induction false} ChunksCover<T>(s: seq<T>, n: nat)
    requires n > 0
    ensures |Chunks(s, n)| * n <= |s|
    ensures Flatten(Chunks(s, n)) == s[..|Chunks(s, n)| * n]
    decreases |s|
  {
    ChunkCount(s, n);
    if |s| >= n {
      var c, rest := Chunks(s, n), Chunks(s[n..], n);
      ChunksCover(s[n..], n);
      assert c[0] == s[..n] && c[1..] == rest;
      assert |c| * n == |rest| * n + n;
      assert Flatten(c) == s[..n] + Flatten(rest);
      assert s[..n] + s[n..][..|rest| * n] == s[..|c| * n];
    }
  }

  /** `a div n` is the unique `k` with `k * n <= a < (k + 1) * n`. */
  lemma DivisionByBounds(a: int, n: int, k: int)
    requires n > 0 && k * n <= a < (k + 1) * n
    ensures a / n == k
  {
    var q, r := a / n, a % n;
    assert a == q * n + r && 0 <= r < n;
    if q < k {
      MultiplyMonotone(q + 1, k, n);
    } else if q > k {
      MultiplyMonotone(k + 1, q, n);
    }
  }

  lemma MultiplyMonotone(x: int, y: int, n: nat)
    requires x <= y
    ensures x * n <= y * n
  {
    assert y * n - x * n == (y - x) * n;
  }

  /**
   * Appends the stream one value at a time to a current chunk and moves the
   * chunk to the output as soon as it holds `n` values.
   */
  method ChunkStream<T>(s: seq<T>, n: nat) returns (chunks: seq<seq<T>>)
    requires n > 0
    ensures chunks == Chunks(s, n)
  {
    chunks := [];
    var current: seq<T> := [];
    for i := 0 to |s|
      invariant |current| < n && |current| <= i
      invariant current == s[i - |current|..i]
      invariant chunks + Chunks(s[i - |current|..], n) == Chunks(s, n)
    {
      ghost var start := i - |current|;
      current := current + [s[i]];
      if |current| == n {
        assert s[start..][..n] == current && s[start..][n..] == s[i + 1..];
        chunks := chunks + [current];
        current := [];
      }
    }
  }
}
