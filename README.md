# microDLS signal pipeline in Dafny

This project models the data path of microDLS, a dynamic light scattering
instrument, from raw serial lines to the reported average particle diameter:

- **Acquisition** (`acquisition.dfy`) covers the per-line body of
  `GetArdunioData.csv_write`. A line is accepted only when it has exactly 802
  fields (800 intensities, the elapsed time, the temperature). A batch's
  elapsed time is spread over its 800 samples, offset by the sum of the
  earlier batches' elapsed times, and truncated to integer microseconds.
  Each accepted batch appends 800 `(time, intensity, temperature)` rows. A
  line of the wrong length is skipped. A field that `int()`/`float()`
  rejects ends collection. The running state (`batch_times`, `batch_num`
  and the rows written) is a class, `Collector`.
- **Segmentation** (`segmentation.dfy`) covers `find_local_extrema` and
  `convert_to_peaks`. The stream is cut into chunks of 1599 samples. In
  each chunk the first global maximum is bracketed by the nearest valleys
  that pass a moving-window deviation test; Python's slice rules are
  modelled exactly. Each chunk yields the run from the peak up to, but not
  including, the right valley. These runs are stably sorted by length and
  laid out as columns, padded with each column's minimum.
- **Averaging** (`averaging.dfy`) covers the `data_format.py` script: 1600-sample
  sets, the element-wise mean of the first four, `extract_extrema` over
  the candidate extrema of the smoothed signal, and the peak rows.
- **Aggregation** (`aggregation.dfy`) covers the end of `demo_script.py`. Per
  dataset it finds the index of the range maximum, which `.item()`
  requires to be unique. The diameter is twice the truncated radius at
  that index. The run reports the mean of the diameters.
- **Common** (`common.dfy`) holds the chunking loop shared by two of the
  scripts, `Option`/`Result` and `Sum`.

Imperative code stays imperative. The reading state is a class whose
methods update its fields. Loops are methods with invariants, each proved
equal to a specification function. The properties are stated about those
functions.

### Where the code and the repository's design description differ

The model follows the code in each case:

- Only the 802-field form is accepted; the 801-field form (no temperature) is skipped.
- Timestamps are truncated (`int()`), not rounded. They are strictly
  increasing within a batch only when its elapsed time is at least 800
  microseconds (`Acquisition.BatchStrictlyIncreasingIff`). Across batches
  they are non-decreasing, strictly so between batches
  (`Acquisition.AssembledOrdered`). A zero elapsed time is accepted, not rejected.
- A field that fails to convert in a correctly sized line does not just
  skip that line. It raises, and the exception ends the whole collection.
- A peak segment stops before the right minimum instead of including it.
- A chunk without bracketing valleys is not excluded. It makes
  `convert_to_peaks` raise (`NoBoundary`).
- A dataset without a diameter is not excluded from the average. It stops
  the loop (`Aggregation.ExtractDiameters`).

## Model

| member | source | states |
|---|---|---|
| Common.ChunkStream | data_processing/csv_conversion.py:115-120 | the append-and-flush loop yields exactly the complete chunks of the stream, in order |
| Common.ChunkSizes | data_processing/data_format.py:52-56 | every chunk has exactly the set length |
| Common.ChunkCount | data_processing/data_format.py:52-56 | the chunks cover all of the stream except fewer than one set length |
| Common.ChunksCover | data_processing/data_format.py:52-56 | the chunks, joined in order, are the stream's prefix |
| Common.ChunksShape | data_processing/data_format.py:52-56 | every chunk has exactly the set length, there are `len // n` of them, and together they are the stream's prefix: only a trailing partial chunk is lost |
| Acquisition.Decode | connect_arduino.py:50-55 | a line is skipped iff it does not have 802 fields; it raises iff some intensity or the elapsed time is not integral or the temperature is not numeric; otherwise fields map to intensities, elapsed time and temperature |
| Acquisition.ElapsedTimes | connect_arduino.py:70 | `batch_times` holds each accepted batch's elapsed time, in order |
| Acquisition.Collected | connect_arduino.py:48-80 | the batches accepted before the first conversion error all have 800 samples |
| Acquisition.StampBatch | connect_arduino.py:60-69 | both timestamp branches (first batch and later batches) produce the rows of one batch offset by the sum of earlier elapsed times |
| Acquisition.Collector.constructor | connect_arduino.py:26-27 | a session starts with no batch times, batch number -1 and no rows |
| Acquisition.Collector.ReadLine | connect_arduino.py:50-72 | a wrong-length line changes nothing; a failed conversion raises before any change; a decoded batch advances the batch number, appends its elapsed time and appends exactly its 800 stamped rows |
| Acquisition.Collector.Collect | connect_arduino.py:48-80 | reading lines in order accepts exactly the batches `Collected` prescribes, halts exactly when a conversion raises, and never alters rows already written |
| Acquisition.Collector.Advance | connect_arduino.py:48-80 | one pass of the read loop keeps the session valid and either halts with exactly the harvest `Collected` prescribes or leaves the remaining lines to account for the rest |
| Acquisition.HarvestAdvance | connect_arduino.py:50-72 | a skipped line leaves the harvest to the later lines, a failed conversion ends it with the frames taken so far, and a decoded frame is the next frame of the harvest |
| Acquisition.CollectedIgnoresWrongArity | connect_arduino.py:52 | lines of the wrong length contribute nothing and never stop collection |
| Acquisition.AssemblePrefix | connect_arduino.py:68-69 | the row stream is append-only: later batches keep every earlier row |
| Acquisition.AssembleLength | connect_arduino.py:68-69 | a session of `b` batches writes exactly `800 b` rows |
| Acquisition.AssembledRowAt | connect_arduino.py:60-70 | row `800 b + i` is sample `i` of batch `b`, stamped after the elapsed times of batches before `b`, with that batch's temperature |
| Acquisition.TimestampIsFloor | connect_arduino.py:60-66 | for non-negative inputs, the truncated timestamp is `floor(i * elapsed / 800)` plus the earlier total |
| Acquisition.BatchNondecreasing | connect_arduino.py:64-66 | timestamps within a batch never decrease |
| Acquisition.BatchStrictlyIncreasingIff | connect_arduino.py:60-66 | consecutive timestamps of a batch are strictly increasing if and only if the elapsed time is at least 800 |
| Acquisition.BatchWithinWindow | connect_arduino.py:60-66 | with positive elapsed time every timestamp of a batch lies in `[prior, prior + elapsed)` |
| Acquisition.NextBatchStartsLater | connect_arduino.py:66-70 | the last timestamp of a batch is below the first timestamp of the next |
| Acquisition.BatchRowsOrdered | connect_arduino.py:64-69 | one batch's rows are non-decreasing in time and lie within its window |
| Acquisition.AppendBatchOrdered | connect_arduino.py:66-70 | appending a batch that starts at the earlier total keeps the stream ordered and bounded |
| Acquisition.AssembledOrdered | connect_arduino.py:57-70 | with positive elapsed times the whole stream is non-decreasing, strictly increasing across batches, and below the total elapsed time |
| Segmentation.LeftWindowShape | data_processing/csv_conversion.py:64-65 | `y[i:i-4:-1]` holds four samples walking away from the peak for `i >= 4`; it is empty below 4, except in a three-sample list where it is `[y[1]]` |
| Segmentation.RightWindowShape | data_processing/csv_conversion.py:74-75 | `y[i:i+3]` holds three samples, cut short at the end of the list |
| Segmentation.LeftTestInIntegers | data_processing/csv_conversion.py:64-67 | the left acceptance test is a valley with `abs(sum - 4 y[i]) > tolerance` |
| Segmentation.RightTestInIntegers | data_processing/csv_conversion.py:74-77 | the right acceptance test is a valley with `abs(sum - 3 y[i]) > 3 tolerance` |
| Segmentation.FirstMax | data_processing/csv_conversion.py:46-49 | `index(max(y))` holds the maximum and no earlier index does |
| Segmentation.FirstMaxUnique | data_processing/csv_conversion.py:46-49 | the first maximum is unique |
| Segmentation.NearestLeft | data_processing/csv_conversion.py:62-69 | the left scan returns an accepted index with no accepted index between it and the start, or none when no index is accepted |
| Segmentation.NearestRight | data_processing/csv_conversion.py:73-79 | the right scan returns the first accepted index at or after its start, or none when no index up to `len - 2` is accepted |
| Segmentation.LocalExtrema | data_processing/csv_conversion.py:40-41 | fewer than three values give no result; a result satisfies `1 <= left < peak < right <= len - 2` |
| Segmentation.LocalExtremaSpec | data_processing/csv_conversion.py:40-88 | the peak is the first maximum and left/right are the accepted valleys nearest the peak; there is no result iff the list is too short or one side has no accepted valley |
| Segmentation.FindLocalExtrema | data_processing/csv_conversion.py:27-88 | the two loops compute exactly `LocalExtrema` |
| Segmentation.LeftTest | data_processing/csv_conversion.py:64-67 | the left test on exact rationals accepts `i` iff it is a valley and `abs(sum(y[i:i-4:-1]) - 4 y[i]) > tolerance` in integers |
| Segmentation.RightTest | data_processing/csv_conversion.py:74-77 | the right test on exact rationals accepts `j` iff it is a valley and `abs(sum(y[j:j+3]) - 3 y[j]) > 3 tolerance` in integers |
| Segmentation.ScanLeft | data_processing/csv_conversion.py:62-69 | the downward loop with `break` finds exactly `NearestLeft` |
| Segmentation.ScanRight | data_processing/csv_conversion.py:73-79 | the upward loop with `break` finds exactly `NearestRight` |
| Segmentation.PeakSegmentShape | data_processing/csv_conversion.py:129-130 | a peak segment is non-empty, starts with the chunk's maximum, has `right - peak` samples and ends before the right valley |
| Segmentation.PeakSegmentOf | data_processing/csv_conversion.py:129-130 | a chunk yields a peak segment iff it is bracketed, and the segment runs from the peak to just before the right valley |
| Segmentation.PeakSegments | data_processing/csv_conversion.py:128-132 | one non-empty segment per chunk, in chunk order |
| Segmentation.MaxLength | data_processing/csv_conversion.py:126-131 | `max_iterations` is at least every segment's length and equals one of them, or 0 when there are none |
| Segmentation.SeqMin | data_processing/csv_conversion.py:163 | `min(sub)` is a member of the segment and no larger than any of its samples |
| Segmentation.InsertByLengthMultiset | data_processing/csv_conversion.py:135 | inserting a segment adds exactly that segment |
| Segmentation.InsertByLengthSorted | data_processing/csv_conversion.py:135 | inserting into a length-sorted list keeps it sorted |
| Segmentation.InsertByLengthStable | data_processing/csv_conversion.py:135 | the inserted segment goes after every segment of its length |
| Segmentation.SortByLengthProperties | data_processing/csv_conversion.py:135 | `sorted(..., key=len)` is ascending by length, a permutation, and stable (equal-length segments keep their order) |
| Segmentation.PadColumns | data_processing/csv_conversion.py:160-168 | row `r`, column `c` of the table is sample `r` of segment `c`, or that segment's minimum once it has run out |
| Segmentation.PaddedEntriesFromSegment | data_processing/csv_conversion.py:160-168 | every padded entry comes from its own segment, and a padding entry is the segment's minimum |
| Segmentation.CollectPeakSegments | data_processing/csv_conversion.py:125-132 | the loop succeeds iff every chunk is bracketed, returns the peak segments and their maximum length, and otherwise names the first chunk without brackets |
| Segmentation.TabulatePeaks | data_processing/csv_conversion.py:135-168 | a zero time step raises, then fewer than seven chunks raise; otherwise the columns are the length-sorted, non-empty segments padded to `max_iterations` |
| Segmentation.ConvertToPeaks | data_processing/csv_conversion.py:90-168 | an empty time column, the first unbracketed chunk, a last plotted time of 0 (a zero `np.arange` step) and fewer than seven chunks are each characterised exactly as errors, in that order; on success the columns are the length-sorted peak segments, padded to the longest |
| Averaging.AverageSets | data_processing/data_format.py:72-80 | the append-then-add loop followed by the division gives the element-wise mean of the first four sets |
| Averaging.AverageOfIdenticalSets | data_processing/data_format.py:72-80 | averaging identical replicates returns the replicate |
| Averaging.AverageWithinReplicates | data_processing/data_format.py:72-80 | each mean sample lies between the smallest and largest replicate sample at that position |
| Averaging.AverageStream | data_processing/data_format.py:16-98 | the script gets past the set indexing iff at least 6400 values are read; it then averages the four sets and writes 1599 `(time, mean)` rows |
| Averaging.ArgMax | data_processing/data_format.py:125 | `np.argmax` returns the first index of the largest value |
| Averaging.Below | data_processing/data_format.py:128 | the mask `< max_index` keeps exactly the smaller minima |
| Averaging.BelowAscending | data_processing/data_format.py:128 | the mask `< max_index` keeps ascending minima in ascending order |
| Averaging.Above | data_processing/data_format.py:129 | the mask `> max_index` keeps exactly the larger minima |
| Averaging.AboveAscending | data_processing/data_format.py:129 | the mask `> max_index` keeps ascending minima in ascending order |
| Averaging.StrongestPeak | data_processing/data_format.py:125 | the chosen maximum has the largest smoothed value, and no earlier candidate ties it |
| Averaging.ExtractExtrema | data_processing/data_format.py:104-137 | too few candidates raise; a peak with no candidate minimum on one side raises; otherwise `left < peak < right`, both from the candidate minima |
| Averaging.BelowLastIsLargest | data_processing/data_format.py:128-134 | for ascending minima, `left_minima[-1]` is the largest minimum below the peak |
| Averaging.AboveFirstIsSmallest | data_processing/data_format.py:129-135 | for ascending minima, `right_minima[0]` is the smallest minimum above the peak |
| Averaging.ExtremaAreNearest | data_processing/data_format.py:127-135 | no candidate minimum lies strictly between the peak and either chosen minimum |
| Averaging.PeakRows | data_processing/data_format.py:159-166 | `right - peak` rows of peak-relative time and mean, starting at time 0 and non-negative for a sorted time column |
| Aggregation.Trunc | data_processing/demo_script.py:56 | `int()` truncates toward zero |
| Aggregation.RangeArgMax | data_processing/demo_script.py:55 | some index of the first `n` contributions holds a value no smaller than any of them |
| Aggregation.RangeMax | data_processing/demo_script.py:55 | `max(c[0:200])` is at least every contribution of the grid range, the first `min(len, 200)`, and is held by one of them |
| Aggregation.Matches | data_processing/demo_script.py:55 | `np.where(c == m)` lists exactly the indices holding `m`, ascending |
| Aggregation.DatasetDiameter | data_processing/demo_script.py:55-56 | the empty range is the only `max` failure, and every diameter is even |
| Aggregation.PeakOfDiameter | data_processing/demo_script.py:55-56 | a diameter comes from the one index holding the range maximum, and that index is the unique peak |
| Aggregation.DiameterOfPeak | data_processing/demo_script.py:55-56 | a unique range peak with a radius yields twice its truncated radius |
| Aggregation.DatasetDiameterSpec | data_processing/demo_script.py:52-57 | a dataset yields a diameter iff the range maximum occurs once in the whole vector and has a radius; the diameter is then twice the truncated radius there |
| Aggregation.ExtractDiameters | data_processing/demo_script.py:54-58 | one diameter per dataset in order iff every dataset yields one and its plot of `hrs[0:200]` against `c[0:200]` has slices of equal length; otherwise the first failing dataset and its reason, a diameter failure taking precedence over the plot's |
| Aggregation.Mean | data_processing/demo_script.py:62 | the average of no diameters is undefined; otherwise mean times count equals the sum |
| Aggregation.MeanWithinBounds | data_processing/demo_script.py:62 | the average diameter lies between the smallest and largest diameter |
| Aggregation.AverageDiameter | data_processing/demo_script.py:51-62 | the report is the diameters and their mean exactly when every dataset yields a diameter and plots without error |

## Left out

- Serial I/O is left out: the port, `readline`, ISO-8859-1 decoding, `strip` and `split`. Lines arrive already split into fields.
- The lexing rules of `int()` and `float()` (whitespace, signs, underscores, `nan`, `inf`) are abstracted into a three-way field classification.
- The session clock, `duration` and `stop_event` are left out. A time-out or stop is modelled by handing `Collect` fewer lines.
- Opening and writing CSV files is left out, and so are the exceptions that doing so could raise. Written rows are returned as sequences.
- `close_connection` is left out.
- Floating point is modelled on exact rationals. Timestamps, the averages and the deviation tests can differ by float rounding at exact boundaries.
- The temperature is passed through as an opaque real.
- Integers are unbounded, so numpy's 64-bit overflow in `np.sum(batch_times)` is not modelled.
- `find_local_extrema` has separate numpy-array and list branches. Both compute `index(max(y))`, so the model has one.
- Segmentation.ConvertToPeaks: the table height is taken to be `max_iterations`, and the float `np.arange` time axis values are left out. A last plotted time of 0 gives a zero step, which raises and is modelled as `ZeroTimeStep`. Any other step, negative included, gives `max_iterations` entries up to float rounding, which can add a row.
- Segmentation: samples are integers, as the CSV that `csv_write` produces holds. Float-valued input, such as the `CleanedEMDSignal.csv` that `demo_script.py` converts, is outside the model.
- Segmentation.ConvertToPeaks: the contents of the full `converted.csv` table are left out. Only the `IndexError` it raises with fewer than seven chunks is modelled.
- Segmentation.PadColumns: requires non-empty segments, where Python's `min` would raise on an empty one. `ConvertToPeaks` proves every segment it passes is non-empty.
- Averaging.ExtractExtrema: `smooth_signal` (`np.convolve`) and scipy's `find_peaks` are left out. Their outputs, the candidate maxima and minima, are inputs; the maxima must index the smoothed signal, as `find_peaks` guarantees.
- Averaging.ExtremaAreNearest: assumes strictly ascending minima, which is how `find_peaks` reports them.
- Averaging.AverageSets: requires four full sets. `AverageStream` covers the `IndexError` the script raises earlier when there are fewer.
- `TIME_PER_DATA` and `average_time` in the averaging script are unused by the output, and are left out.
- All plotting (`plot_peak`, the matplotlib figures) is left out, except that the per-dataset `plt.plot` in `demo_script.py` raises when its two range slices differ in length. That failure is modelled as `PlotMismatch`.
- The `dlsAnalyzer` calls in the demo script (beta, g1, the regularised inversion) are foreign floating-point code and are left out. Contributions and the radius grid are inputs.
- Aggregation.RangeMax: compares contributions as exact reals. NaN ordering is not modelled.
- The GUI (`DLS_app.py`) and `process_data.py` are not part of this model.
