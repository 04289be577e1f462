/**
 * Acquisition: the per-line body of `GetArdunioData.csv_write`. Each serial
 * line, already split on commas, is accepted only at the exact field count;
 * an accepted batch of intensities is stamped with integer microsecond
 * timestamps and appended as rows of (timestamp, intensity, temperature).
 */
module Acquisition {
  import opened Common

  /** Intensity samples per instrument batch. */
  const SubsetLength: nat := 800

  /** Fields of an accepted line: the intensities, the elapsed time and the temperature. */
  const FrameArity: nat := SubsetLength + 2

  /**
   * One comma-separated field, classified by what Python makes of it:
   * `int()` and `float()` both accept an integer literal, only `float()`
   * accepts a float literal (including integral-valued ones such as `5.0`
   * or `1e3`), neither accepts garbage.
   */
  datatype Field =
    | Integral(n: int)
    | FloatOnly(x: real)
    | Garbage

  /** `float(field)`; the temperature is carried through as an opaque value. */
  function AsFloat(f: Field): Option<real>
  {
    match f
    case Integral(n) => Some(n as real)
    case FloatOnly(x) => Some(x)
    case Garbage => None
  }

  /** A decoded batch: the intensities, the elapsed time in microseconds and the temperature. */
  datatype Frame = Frame(intensities: seq<int>, elapsed: int, temperature: real)

  /** How one line ends: skipped for its field count, raising in a conversion, or decoded. */
  datatype Decoded = WrongArity | Unparsable | Decoded(frame: Frame)

  /**
   * Splits an exactly-sized line into its parts. The first `SubsetLength`
   * fields and the elapsed time must pass `int()`, the temperature `float()`.
   */
  function Decode(fields: seq<Field>): (d: Decoded)
    ensures d.WrongArity? <==> |fields| != FrameArity
    ensures d.Unparsable? <==>
      (|fields| == FrameArity &&
       ((exists k :: 0 <= k <= SubsetLength && !fields[k].Integral?) || fields[FrameArity - 1].Garbage?))
    ensures d.Decoded? ==>
      && |d.frame.intensities| == SubsetLength
      && (forall k :: 0 <= k < SubsetLength ==> fields[k] == Integral(d.frame.intensities[k]))
      && fields[SubsetLength] == Integral(d.frame.elapsed)
      && AsFloat(fields[FrameArity - 1]) == Some(d.frame.temperature)
  {
    if |fields| != FrameArity then WrongArity
    else if exists k :: 0 <= k <= SubsetLength && !fields[k].Integral? then Unparsable
    else
      match AsFloat(fields[FrameArity - 1])
      case None => Unparsable
      case Some(t) =>
        Decoded(Frame(seq(SubsetLength, k requires 0 <= k < SubsetLength => fields[k].n),
                      fields[SubsetLength].n, t))
  }

  /** Python's `int()` applied to the rational `n / d`: truncation toward zero. */
  function TruncDiv(n: int, d: nat): int
    requires d > 0
  {
    if n >= 0 then n / d else -((-n) / d)
  }

  /**
   * `int(i * (elapsed / SubsetLength) + prior)`, computed on exact rationals:
   * sample `i` of a batch spread evenly over `elapsed` microseconds, after
   * earlier batches totalling `prior` microseconds.
   */
  function Timestamp(i: int, elapsed: int, prior: int): int
  {
    TruncDiv(i * elapsed + SubsetLength * prior, SubsetLength)
  }

  /** One written CSV row. */
  datatype Row = Row(time: int, intensity: int, temperature: real)

  predicate IsBatch(f: Frame)
  {
    |f.intensities| == SubsetLength
  }

  /** The rows one batch contributes after earlier batches totalling `prior` microseconds. */
  function BatchRows(f: Frame, prior: int): seq<Row>
    requires IsBatch(f)
  {
    seq(SubsetLength, k requires 0 <= k < SubsetLength =>
      Row(Timestamp(k, f.elapsed, prior), f.intensities[k], f.temperature))
  }

  predicate AllBatches(frames: seq<Frame>)
  {
    forall k :: 0 <= k < |frames| ==> IsBatch(frames[k])
  }

  /** The elapsed times of the accepted batches, in order (`batch_times`). */
  function ElapsedTimes(frames: seq<Frame>): (ts: seq<int>)
    ensures |ts| == |frames|
    ensures forall k :: 0 <= k < |frames| ==> ts[k] == frames[k].elapsed
  {
    if frames == [] then [] else ElapsedTimes(frames[..|frames| - 1]) + [frames[|frames| - 1].elapsed]
  }

  /** All rows written for a sequence of accepted batches. */
  function Assemble(frames: seq<Frame>): seq<Row>
    requires AllBatches(frames)
  {
    if frames == [] then []
    else
      var earlier := frames[..|frames| - 1];
      Assemble(earlier) + BatchRows(frames[|frames| - 1], Sum(ElapsedTimes(earlier)))
  }

  /** What happened to one line. */
  datatype LineOutcome = Skipped | Appended | Raised

  /** The frames accepted from `lines` before the first conversion error, and whether one occurred. */
  datatype Harvest = Harvest(frames: seq<Frame>, halted: bool)

  function Collected(lines: seq<seq<Field>>): (h: Harvest)
    ensures AllBatches(h.frames)
  {
    if lines == [] then Harvest([], false)
    else
      match Decode(lines[0])
      case WrongArity => Collected(lines[1..])
      case Unparsable => Harvest([], true)
      case Decoded(f) =>
        var h := Collected(lines[1..]);
        Harvest([f] + h.frames, h.halted)
  }

  /**
   * The list comprehension for `time_series` zipped with the intensities: the
   * first batch takes `int(i * step)`, later ones add the sum of
   * `batch_times`; both are `Timestamp` with the earlier total.
   */
  method StampBatch(f: Frame, batchTimes: seq<int>, first: bool) returns (batch: seq<Row>)
    requires IsBatch(f)
    requires first ==> batchTimes == []
    ensures batch == BatchRows(f, Sum(batchTimes))
  {
    var prior := Sum(batchTimes);
    batch := [];
    for i := 0 to SubsetLength
      invariant |batch| == i
      invariant forall k :: 0 <= k < i ==>
        batch[k] == Row(Timestamp(k, f.elapsed, prior), f.intensities[k], f.temperature)
    {
      var t;
      if first {
        t := TruncDiv(i * f.elapsed, SubsetLength);
        assert t == Timestamp(i, f.elapsed, prior);
      } else {
        t := Timestamp(i, f.elapsed, prior);
      }
      batch := batch + [Row(t, f.intensities[i], f.temperature)];
    }
  }

  /**
   * The state `csv_write` keeps while it reads: `batch_times`, `batch_num`
   * and the rows written so far. `frames` is the proof's record of the
   * accepted batches.
   */
  class Collector {
    var batchTimes: seq<int>
    var batchNum: int
    var rows: seq<Row>
    ghost var frames: seq<Frame>

    ghost predicate Valid()
      reads this
    {
      && AllBatches(frames)
      && batchTimes == ElapsedTimes(frames)
      && batchNum == |frames| - 1
      && rows == Assemble(frames)
    }

    constructor ()
      ensures Valid() && frames == []
      ensures batchTimes == [] && batchNum == -1 && rows == []
    {
      batchTimes := [];
      batchNum := -1;
      rows := [];
      frames := [];
    }

    /**
     * Handles one line: a wrong field count is skipped, a failed conversion
     * raises before any state changes, and a decoded batch is stamped and
     * appended.
     */
    method ReadLine(fields: seq<Field>) returns (outcome: LineOutcome)
      requires Valid()
      modifies this
      ensures Valid()
      ensures outcome == Skipped <==> Decode(fields).WrongArity?
      ensures outcome == Raised <==> Decode(fields).Unparsable?
      ensures outcome == Appended ==>
        var f := Decode(fields).frame;
        && frames == old(frames) + [f]
        && batchTimes == old(batchTimes) + [f.elapsed]
        && batchNum == old(batchNum) + 1
        && rows == old(rows) + BatchRows(f, Sum(old(batchTimes)))
      ensures outcome != Appended ==>
        frames == old(frames) && batchTimes == old(batchTimes) && batchNum == old(batchNum) && rows == old(rows)
    {
      var d := Decode(fields);
      if d.WrongArity? {
        return Skipped;
      } else if d.Unparsable? {
        return Raised;
      }
      var f := d.frame;
      batchNum := batchNum + 1;
      var batch := StampBatch(f, batchTimes, batchNum == 0);
      rows := rows + batch;
      batchTimes := batchTimes + [f.elapsed];
      frames := frames + [f];
      assert frames[..|frames| - 1] == old(frames);
      outcome := Appended;
    }

    /**
     * Reads `lines` in order until they run out or a conversion raises; the
     * exception ends collection but keeps everything gathered before it.
     */
    method Collect(lines: seq<seq<Field>>) returns (halted: bool)
      requires Valid()
      modifies this
      ensures Valid()
      ensures frames == old(frames) + Collected(lines).frames
      ensures halted == Collected(lines).halted
      ensures |rows| >= |old(rows)| && rows[..|old(rows)|] == old(rows)
    {
      halted := false;
      ghost var taken: seq<Frame> := [];
      var i := 0;
      while i < |lines|
        invariant Valid() && frames == old(frames) + taken
        invariant Pending(lines, i, taken)
        decreases |lines| - i
      {
        var raised;
        raised, taken := Advance(lines, i, old(frames), taken);
        if raised {
          halted := true;
          break;
        }
        i := i + 1;
      }
      if !halted {
        assert i == |lines| && lines[i..] == [];
      }
      assert frames[..|old(frames)|] == old(frames);
      AssemblePrefix(frames, |old(frames)|);
    }

    /**
     * One turn of the reading loop: line `i` is handled, and the frames taken
     * so far advance as the harvest of all lines prescribes.
     */
    method Advance(lines: seq<seq<Field>>, i: nat, ghost start: seq<Frame>, ghost taken: seq<Frame>)
      returns (raised: bool, ghost taken': seq<Frame>)
      requires i < |lines| && Valid() && frames == start + taken
      requires Pending(lines, i, taken)
      modifies this
      ensures Valid() && frames == start + taken'
      ensures raised ==> Collected(lines) == Harvest(taken', true)
      ensures !raised ==> Pending(lines, i + 1, taken')
    {
      HarvestAdvance(lines, i, taken);
      var outcome := ReadLine(lines[i]);
      raised := outcome == Raised;
      if outcome == Appended {
        taken' := taken + [Decode(lines[i]).frame];
      } else {
        taken' := taken;
      }
    }
  }

  /** After the lines before `i`, `taken` is what the harvest of all lines has gathered so far. */
  ghost predicate Pending(lines: seq<seq<Field>>, i: nat, taken: seq<Frame>)
  {
    && i <= |lines|
    && Collected(lines).frames == taken + Collected(lines[i..]).frames
    && Collected(lines).halted == Collected(lines[i..]).halted
  }

  /** Reading line `i` extends the frames taken so far as the harvest of all lines prescribes. */
  lemma HarvestAdvance(lines: seq<seq<Field>>, i: nat, taken: seq<Frame>)
    requires i < |lines| && Pending(lines, i, taken)
    ensures Decode(lines[i]).WrongArity? ==> Pending(lines, i + 1, taken)
    ensures Decode(lines[i]).Unparsable? ==> Collected(lines) == Harvest(taken, true)
    ensures Decode(lines[i]).Decoded? ==> Pending(lines, i + 1, taken + [Decode(lines[i]).frame])
  {
    assert lines[i..][0] == lines[i] && lines[i..][1..] == lines[i + 1..];
    var d := Decode(lines[i]);
    if d.Decoded? {
      var rest := Collected(lines[i + 1..]);
      assert Collected(lines[i..]).frames == [d.frame] + rest.frames;
      assert taken + ([d.frame] + rest.frames) == (taken + [d.frame]) + rest.frames;
    } else if d.Unparsable? {
      assert Collected(lines[i..]) == Harvest([], true);
      assert taken + [] == taken;
    }
  }

  /** Rows already written are never altered by later batches. */
  lemma {:induction false} AssemblePrefix(frames: seq<Frame>, n: nat)
    requires AllBatches(frames) && n <= |frames|
    ensures AllBatches(frames[..n])
    ensures |Assemble(frames[..n])| <= |Assemble(frames)|
    ensures Assemble(frames)[..|Assemble(frames[..n])|] == Assemble(frames[..n])
    decreases |frames|
  {
    if n == |frames| {
      assert frames[..n] == frames;
    } else {
      var init := frames[..|frames| - 1];
      assert init[..n] == frames[..n];
      AssemblePrefix(init, n);
    }
  }

  lemma {:induction false} AssembleLength(frames: seq<Frame>)
    requires AllBatches(frames)
    ensures |Assemble(frames)| == SubsetLength * |frames|
    decreases |frames|
  {
    if frames != [] {
      AssembleLength(frames[..|frames| - 1]);
    }
  }

  /**
   * Row `b * SubsetLength + i` of the output pairs timestamp `i` of batch `b`
   * (after the elapsed times of batches `0..b`) with intensity `i` of that
   * batch and the batch's single temperature.
   */
  lemma {:induction false} AssembledRowAt(frames: seq<Frame>, b: nat, i: nat)
    requires AllBatches(frames) && b < |frames| && i < SubsetLength
    ensures |Assemble(frames)| == SubsetLength * |frames|
    ensures b * SubsetLength + i < |Assemble(frames)|
    ensures Assemble(frames)[b * SubsetLength + i] ==
      Row(Timestamp(i, frames[b].elapsed, Sum(ElapsedTimes(frames[..b]))),
          frames[b].intensities[i], frames[b].temperature)
  {
    var upto := frames[..b + 1];
    AssembleLength(frames);
    AssembleLength(frames[..b]);
    assert frames == upto + frames[b + 1..];
    AssemblePrefix(frames, b + 1);
    AssembleSnoc(frames, b);
    var batch := BatchRows(frames[b], Sum(ElapsedTimes(frames[..b])));
    assert Assemble(frames)[b * SubsetLength + i] == Assemble(upto)[b * SubsetLength + i] == batch[i];
  }

  /** The rows of the first `b + 1` batches are those of the first `b` followed by batch `b`'s. */
  lemma AssembleSnoc(frames: seq<Frame>, b: nat)
    requires AllBatches(frames) && b < |frames|
    ensures AllBatches(frames[..b]) && AllBatches(frames[..b + 1])
    ensures Assemble(frames[..b + 1]) ==
      Assemble(frames[..b]) + BatchRows(frames[b], Sum(ElapsedTimes(frames[..b])))
  {
    assert frames[..b + 1][..b] == frames[..b];
  }

  /** For non-negative inputs a timestamp is `floor(i * elapsed / SubsetLength)` plus the earlier total. */
  lemma TimestampIsFloor(i: int, elapsed: int, prior: int)
    requires 0 <= i && 0 <= elapsed && 0 <= prior
    ensures Timestamp(i, elapsed, prior) == i * elapsed / SubsetLength + prior
  {
    var x := i * elapsed;
    assert x >= 0 by { MultiplyMonotone(0, i, elapsed); }
  }

  /** Within one batch the timestamps never decrease. */
  lemma BatchNondecreasing(elapsed: int, prior: int, i: int, j: int)
    requires 0 <= elapsed && 0 <= prior && 0 <= i <= j
    ensures Timestamp(i, elapsed, prior) <= Timestamp(j, elapsed, prior)
  {
    TimestampIsFloor(i, elapsed, prior);
    TimestampIsFloor(j, elapsed, prior);
    MultiplyMonotone(i, j, elapsed);
  }

  /**
   * Consecutive timestamps of a batch are strictly increasing exactly when
   * the elapsed time is at least one microsecond per sample.
   */
  lemma BatchStrictlyIncreasingIff(elapsed: int, prior: int)
    requires 0 <= elapsed && 0 <= prior
    ensures (forall i :: 0 <= i < SubsetLength - 1 ==>
               Timestamp(i, elapsed, prior) < Timestamp(i + 1, elapsed, prior))
            <==> elapsed >= SubsetLength
  {
    if elapsed >= SubsetLength {
      forall i | 0 <= i < SubsetLength - 1
        ensures Timestamp(i, elapsed, prior) < Timestamp(i + 1, elapsed, prior)
      {
        TimestampIsFloor(i, elapsed, prior);
        TimestampIsFloor(i + 1, elapsed, prior);
        assert (i + 1) * elapsed == i * elapsed + elapsed;
      }
    } else {
      TimestampIsFloor(0, elapsed, prior);
      TimestampIsFloor(1, elapsed, prior);
      assert Timestamp(0, elapsed, prior) == Timestamp(1, elapsed, prior);
    }
  }

  /** With a positive elapsed time, every timestamp of a batch lies in `[prior, prior + elapsed)`. */
  lemma BatchWithinWindow(elapsed: int, prior: int, i: int)
    requires 0 < elapsed && 0 <= prior && 0 <= i < SubsetLength
    ensures prior <= Timestamp(i, elapsed, prior) < prior + elapsed
  {
    TimestampIsFloor(i, elapsed, prior);
    MultiplyMonotone(0, i, elapsed);
    MultiplyMonotone(i, SubsetLength - 1, elapsed);
  }

  /** The last timestamp of a batch is strictly below the first timestamp of the next batch. */
  lemma NextBatchStartsLater(elapsed: int, nextElapsed: int, prior: int)
    requires 0 < elapsed && 0 <= prior
    ensures Timestamp(SubsetLength - 1, elapsed, prior) < Timestamp(0, nextElapsed, prior + elapsed)
  {
    BatchWithinWindow(elapsed, prior, SubsetLength - 1);
  }

  predicate PositiveElapsed(frames: seq<Frame>)
  {
    forall k :: 0 <= k < |frames| ==> frames[k].elapsed > 0
  }

  /**
   * Timestamps never decrease, and rows of different batches (blocks of
   * `SubsetLength` rows) are strictly ordered.
   */
  predicate Ordered(rows: seq<Row>)
  {
    forall p, q :: 0 <= p < q < |rows| ==>
      rows[p].time <= rows[q].time && (p / SubsetLength < q / SubsetLength ==> rows[p].time < rows[q].time)
  }

  predicate TimesWithin(rows: seq<Row>, lo: int, hi: int)
  {
    forall p :: 0 <= p < |rows| ==> lo <= rows[p].time < hi
  }

  /** Appending one batch that starts at or after every earlier timestamp keeps the rows ordered. */
  lemma AppendBatchOrdered(A: seq<Row>, B: seq<Row>, S: int, elapsed: int)
    requires |A| % SubsetLength == 0 && |B| == SubsetLength
    requires Ordered(A) && TimesWithin(A, 0, S) && 0 <= S && 0 < elapsed
    requires TimesWithin(B, S, S + elapsed)
    requires forall k, l :: 0 <= k <= l < |B| ==> B[k].time <= B[l].time
    ensures Ordered(A + B) && TimesWithin(A + B, 0, S + elapsed)
  {
    var all := A + B;
    forall p | 0 <= p < |all|
      ensures 0 <= all[p].time < S + elapsed
    {
      if p >= |A| {
        assert all[p] == B[p - |A|];
      }
    }
    forall p, q | 0 <= p < q < |all|
      ensures all[p].time <= all[q].time
      ensures p / SubsetLength < q / SubsetLength ==> all[p].time < all[q].time
    {
      if q < |A| {
        assert all[p] == A[p] && all[q] == A[q];
      } else if p < |A| {
        assert all[p] == A[p] && all[q] == B[q - |A|];
      } else {
        assert all[p] == B[p - |A|] && all[q] == B[q - |A|];
        assert p / SubsetLength == q / SubsetLength;
      }
    }
  }

  /** A batch's rows are non-decreasing in time and lie in `[prior, prior + elapsed)`. */
  lemma BatchRowsOrdered(f: Frame, prior: int)
    requires IsBatch(f) && 0 < f.elapsed && 0 <= prior
    ensures TimesWithin(BatchRows(f, prior), prior, prior + f.elapsed)
    ensures forall k, l :: 0 <= k <= l < SubsetLength ==>
      BatchRows(f, prior)[k].time <= BatchRows(f, prior)[l].time
  {
    var B := BatchRows(f, prior);
    forall k | 0 <= k < SubsetLength
      ensures prior <= B[k].time < prior + f.elapsed
    {
      BatchWithinWindow(f.elapsed, prior, k);
    }
    forall k, l | 0 <= k <= l < SubsetLength
      ensures B[k].time <= B[l].time
    {
      BatchNondecreasing(f.elapsed, prior, k, l);
    }
  }

  /**
   * Over a whole session with positive elapsed times the rows are ordered
   * and every timestamp lies below the total elapsed time.
   */
  lemma {:induction false} AssembledOrdered(frames: seq<Frame>)
    requires AllBatches(frames) && PositiveElapsed(frames)
    ensures Ordered(Assemble(frames))
    ensures TimesWithin(Assemble(frames), 0, Sum(ElapsedTimes(frames)))
    decreases |frames|
  {
    if frames == [] {
      return;
    }
    var n := |frames| - 1;
    var earlier := frames[..n];
    var f := frames[n];
    var S := Sum(ElapsedTimes(earlier));
    AssembledOrdered(earlier);
    AssembleLength(earlier);
    AssembleSnoc(frames, n);
    assert frames[..n + 1] == frames;
    var A := Assemble(earlier);
    var B := BatchRows(f, S);
    assert ElapsedTimes(frames)[..n] == ElapsedTimes(earlier);
    assert Sum(ElapsedTimes(frames)) == S + f.elapsed;
    assert S >= 0 by {
      if earlier != [] {
        assert 0 <= A[0].time < S;
      }
    }
    BatchRowsOrdered(f, S);
    AppendBatchOrdered(A, B, S, f.elapsed);
  }

  /** Lines of the wrong length are skipped: they contribute no batch and never halt collection. */
  lemma {:induction false} CollectedIgnoresWrongArity(prefix: seq<seq<Field>>, rest: seq<seq<Field>>)
    requires forall k :: 0 <= k < |prefix| ==> |prefix[k]| != FrameArity
    ensures Collected(prefix + rest) == Collected(rest)
    decreases |prefix|
  {
    if prefix != [] {
      assert (prefix + rest)[0] == prefix[0];
      assert (prefix + rest)[1..] == prefix[1..] + rest;
      CollectedIgnoresWrongArity(prefix[1..], rest);
    } else {
      assert prefix + rest == rest;
    }
  }
}
