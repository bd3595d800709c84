# RMSPE metric: a verified model

This project models `rmspe(y_true, y_pred, chunk_size=1000)` from
`scripts/modeling.py`. The function is the evaluation metric of a
sales-forecasting repository: the root mean squared percentage error. It works
in five steps:

1. It asserts that the ground truth and the predictions have the same length.
2. It builds the mask `y_true != 0`.
3. It walks `range(0, len(y_true), chunk_size)`. At each start it slices both
   arrays and the mask with `[i:i+chunk_size]`.
4. For each chunk, it computes `sqrt(mean(((t - p) / t) ** 2))` over the masked
   positions and appends that value to `chunk_rmspes`.
5. It returns `sqrt(mean(chunk_rmspes ** 2))`.

The result is therefore a two-level aggregate. It is not the flat, single-pass
RMSPE.

The project has three modules:

- `numeric.dfy` (module `Numeric`) holds the part of NumPy float semantics the
  metric relies on, over exact reals:
  - `Float = NaN | Num(real)`;
  - `np.mean` of an empty array is NaN;
  - NaN propagates through squaring, averaging and `np.sqrt`;
  - the square root is a parameter `sqrt`, and lemmas that need its behaviour
    require `IsSqrt(sqrt)`: roots are non-negative and square back to their
    argument.
- `chunking.dfy` (module `Chunking`) models Python's `range(start, stop, step)`
  and slicing `s[i:i+size]`, which stops at the end of `s`. It also proves the
  shape of the chunk partition.
- `modeling.dfy` (module `Modeling`) holds:
  - the source's computation, step by step: `NonZeroMask`, boolean indexing
    `Select`, `RelativeErrors`, `SquareAll`;
  - the specification function `Rmspe`;
  - the method `ComputeRmspe`, whose loop builds `chunk_rmspes` as the source
    does;
  - an observation-wise reference (`Observations`, `ErrorSum`, `NonZeroCount`,
    `MeanSquaredPercentageError`, `FlatRmspe`, `TwoLevelMeanSquare`);
  - the properties of the metric.

In `Rmspe`, a chunk's value `ChunkRmspe` is the square root of the mean squared
relative error over the chunk's non-zero-truth positions.
`MaskedChunkRmspe` proves that the source's masked computation gives exactly
that value.

Three consequences of the two-level aggregation:

- **Worked example.** On truth `[100, 200, 300, 400, 500]` and predictions
  `[110, 190, 300, 420, 480]`, the relative errors `(t - p) / t` are
  `[-0.10, 0.05, 0, -0.05, 0.04]` (`ExampleRelativeErrors`), with squares
  `[0.01, 0.0025, 0, 0.0025, 0.0016]` (`ExampleErrorTerms`). With one chunk (the default chunk size) the
  code gives `sqrt(0.00332)` ≈ 0.0576 (`WorkedExampleOneChunk`). In chunks of
  two it gives `sqrt(0.0091 / 3)` (`WorkedExampleChunksOfTwo`).
- **Chunk size.** So `chunk_size` changes the result
  (`WorkedExampleDependsOnChunkSize`). The two-level and the flat RMSPE agree
  when:
  - there is one chunk (`SingleChunkIsFlat`), or
  - every chunk has the same number of non-zero truths, zero included
    (`EqualCountsMatchFlat`).
- **Order.** Permuting the observations leaves the result unchanged for every
  input in two cases:
  - with one chunk (`SingleChunkPermutationInvariant`);
  - with chunks of one observation each, `chunk_size = 1`
    (`UnitChunksPermutationInvariant`).

  With several chunks of two or more observations the result is unchanged when every
  chunk has the same non-zero count before and after
  (`EqualCountsPermutationInvariant`). Otherwise it can depend on which
  observations share a chunk. Swapping the first and last observations of the
  worked example turns `sqrt(0.0091 / 3)` in chunks of two into
  `sqrt(0.0133 / 3)` (`PermutationChangesResult`).

## Model

| member | source | states |
|---|---|---|
| `Modeling.DefaultChunkSize` | scripts/modeling.py:4 | the chunk size used when the caller gives none is 1000 |
| `Chunking.Range` | scripts/modeling.py:23 | Python's `range(start, stop, step)` for a positive step: every element lies in [start, stop) |
| `Chunking.Slice` | scripts/modeling.py:24-26 | Python's `s[i:i+size]`: the elements from i up to i + size, cut off at the end of s |
| `Modeling.NonZeroMask` | scripts/modeling.py:19 | `y_true != 0`: position k of the mask holds exactly when truth k is not zero |
| `Modeling.Select` | scripts/modeling.py:28 | boolean indexing `s[mask]`: the elements where the mask holds, in order |
| `Modeling.RelativeErrors` | scripts/modeling.py:28 | `(t - p) / t` element by element, as many as the inputs, defined only where no truth is zero |
| `Modeling.SquareAll` | scripts/modeling.py:29 | `chunk_errors ** 2` element by element, as many as the inputs |
| `Modeling.ChunkRmspe` | scripts/modeling.py:28-29 | a chunk's value: the square root of the mean squared relative error over its non-zero truths, NaN when there are none |
| `Numeric.Sqrt` | scripts/modeling.py:29-33 | `np.sqrt` on a scalar: NaN for NaN and for a negative argument, otherwise the supplied root |
| `Numeric.Mean` | scripts/modeling.py:29 | `np.mean` of numbers: NaN for an empty array, otherwise the sum over the count |
| `Numeric.MeanOfFloats` | scripts/modeling.py:29-33 | `np.mean` of floats: NaN when the array is empty or holds a NaN, otherwise the mean of the numbers |
| `Numeric.SquareFloats` | scripts/modeling.py:33 | `np.array(chunk_rmspes) ** 2` element by element, NaN staying NaN, as many as the inputs |
| `Modeling.ExampleRelativeErrors` | scripts/modeling.py:28 | on the worked example the relative errors `(t - p) / t` are -0.1, 0.05, 0, -0.05 and 0.04 |
| `Modeling.Rmspe` | scripts/modeling.py:16-33 | the result is an error exactly when the two lengths differ, and the error carries both lengths |
| `Modeling.ComputeRmspe` | scripts/modeling.py:16-33 | the loop (mask once; slice truth, prediction and mask per chunk; append each chunk value; root mean square at the end) returns exactly `Rmspe` |
| `Modeling.ChunkRmspesFromStep` | scripts/modeling.py:23-30 | one turn of the loop keeps "values appended so far followed by the values still to come" equal to the full list |
| `Modeling.ChunkRmspesFromRange` | scripts/modeling.py:23-30 | from start index i, the loop appends the values of the chunks at the starts `range(i, len(y_true), chunk_size)`, in order |
| `Modeling.ChunkRmspesFromStart` | scripts/modeling.py:22-30 | run from index 0, the loop builds exactly `chunk_rmspes`: one value per chunk, in order |
| `Modeling.ChunkRmspes` | scripts/modeling.py:22-30 | `chunk_rmspes` has one entry per chunk of the partition |
| `Chunking.RangeShape` | scripts/modeling.py:23 | the k-th chunk start is start + k * step; the range is empty exactly when start >= stop; otherwise its last element is the last start below stop |
| `Chunking.ChunkCount` | scripts/modeling.py:23 | the loop runs ceil(N / chunk_size) times, and its j-th start is j * chunk_size |
| `Chunking.ChunkLengths` | scripts/modeling.py:23-25 | every chunk but the last has exactly chunk_size elements; the last has between 1 and chunk_size |
| `Chunking.ChunksCover` | scripts/modeling.py:23-25 | concatenating the chunks in order gives back the whole array: every position is covered exactly once |
| `Chunking.ChunkOfPosition` | scripts/modeling.py:23-25 | position p lies in chunk j if and only if j == p / chunk_size |
| `Chunking.SingleChunk` | scripts/modeling.py:23-25 | when chunk_size >= N > 0 there is exactly one chunk, the whole array |
| `Chunking.NoChunks` | scripts/modeling.py:23 | an empty array has no chunks, so the loop body never runs |
| `Modeling.MaskOfSlice` | scripts/modeling.py:19-26 | slicing the mask of the whole array gives the mask of the sliced chunk |
| `Modeling.SelectedTruthsNonZero` | scripts/modeling.py:19-28 | the truths kept by the mask are all non-zero, so the division cannot be by zero |
| `Modeling.SelectionKeepsNonZeros` | scripts/modeling.py:19-28 | boolean indexing with the mask keeps every non-zero truth as often as it occurs and drops every zero |
| `Modeling.SelectSameLength` | scripts/modeling.py:28 | the same mask selects as many truths as predictions |
| `Modeling.SelectedErrorsAreReference` | scripts/modeling.py:28-29 | the masked squared errors are as many as the non-zero-truth observations, and they sum to those observations' squared relative errors |
| `Modeling.MaskedChunkRmspe` | scripts/modeling.py:28-29 | `np.sqrt(np.mean(chunk_errors ** 2))` over the masked chunk equals the root of the chunk's mean squared relative error over its non-zero truths |
| `Modeling.ChunksOfObservations` | scripts/modeling.py:24-25 | chunking the observations is chunking truth and prediction alike |
| `Modeling.ChunkRmspesAreReference` | scripts/modeling.py:28-30 | each entry of `chunk_rmspes` is the root of that chunk's mean squared relative error |
| `Modeling.ChunkNaN` | scripts/modeling.py:28-29 | a chunk's value is NaN if and only if all of its ground truth is zero |
| `Modeling.RmspeNaN` | scripts/modeling.py:28-33 | on equal lengths the result is NaN if and only if the input is empty or some chunk has no non-zero ground truth |
| `Modeling.AllZeroTruthIsNaN` | scripts/modeling.py:19-33 | an all-zero ground truth gives NaN |
| `Modeling.EmptyInputIsNaN` | scripts/modeling.py:22-33 | with no input the loop never runs and the result is NaN |
| `Modeling.TwoLevelAggregation` | scripts/modeling.py:29-33 | the result is the root of the mean, over the chunks, of each chunk's mean squared relative error |
| `Modeling.ChunkRmspesSquare` | scripts/modeling.py:29 | each chunk value squared gives that chunk's mean squared relative error, and a chunk value that is a number is non-negative |
| `Modeling.RmspeSquare` | scripts/modeling.py:29-33 | a numeric result r implies equal lengths, r >= 0, r * r equal to the two-level mean square, at least one chunk, and every chunk value a non-negative number whose square is its chunk's mean squared error |
| `Modeling.RmspeNonNegative` | scripts/modeling.py:33 | a numeric result is non-negative (a corollary of `RmspeSquare`) |
| `Modeling.PerfectChunk` | scripts/modeling.py:28-29 | a chunk predicted exactly with some non-zero truth has mean squared error 0 |
| `Modeling.PerfectPrediction` | scripts/modeling.py:28-33 | perfect predictions on a non-empty input whose every chunk has a non-zero truth give 0 |
| `Modeling.PerfectPredictionNoZeros` | scripts/modeling.py:19-33 | `rmspe(x, x)` is 0 for every non-empty x without zeros, whatever the chunk size |
| `Modeling.SingleChunkIsFlat` | scripts/modeling.py:23-33 | when chunk_size >= N the result equals the flat RMSPE, including the error and NaN cases |
| `Modeling.ChunkSizeBeyondLength` | scripts/modeling.py:23-33 | a chunk size beyond the length gives the same result as a chunk size equal to it |
| `Modeling.SingleChunkPermutationInvariant` | scripts/modeling.py:23-33 | with one chunk, permuting the observations leaves the result unchanged |
| `Modeling.ErrorSumPermutation` | scripts/modeling.py:28-29 | the sum of squared relative errors and the non-zero count of a chunk do not depend on the order of its observations |
| `Modeling.MeanOfEqualCountGroups` | scripts/modeling.py:29-33 | averaging per-chunk mean squares over chunks with equal non-zero counts gives the mean square of all of them together |
| `Modeling.EqualCountsMatchFlat` | scripts/modeling.py:28-33 | when every chunk has the same number of non-zero truths (0 included, where both are NaN), the result equals the flat RMSPE |
| `Modeling.NoNonZeroGroups` | scripts/modeling.py:28-33 | when no chunk has a non-zero truth, both the mean over the chunks and the flat mean are NaN |
| `Modeling.EqualCountsPermutationInvariant` | scripts/modeling.py:23-33 | permuting the observations leaves the result unchanged when every chunk has the same non-zero count before and after |
| `Modeling.UnitChunks` | scripts/modeling.py:23-25 | with chunk_size 1 there is one chunk per position, holding that position's element alone |
| `Modeling.ZeroTruthInUnitChunks` | scripts/modeling.py:23-33 | with chunk_size 1, any zero truth makes the result NaN |
| `Modeling.UnitChunkCounts` | scripts/modeling.py:23-28 | with chunk_size 1 and no zero truth, every chunk has exactly one non-zero truth |
| `Modeling.UnitChunksPermutationInvariant` | scripts/modeling.py:23-33 | with chunk_size 1, permuting the observations never changes the result |
| `Modeling.ExampleChunksOfTwo` | scripts/modeling.py:23-29 | the worked example in chunks of two has chunks of sizes 2, 2 and 1, with mean squares 0.00625, 0.00125 and 0.0016 |
| `Modeling.WorkedExampleOneChunk` | scripts/modeling.py:4-33 | with the default chunk size the worked example gives sqrt(0.00332) |
| `Modeling.WorkedExampleChunksOfTwo` | scripts/modeling.py:23-33 | in chunks of two the worked example gives sqrt(0.0091 / 3) |
| `Modeling.WorkedExampleDependsOnChunkSize` | scripts/modeling.py:4-33 | the worked example gives different results for chunk sizes 1000 and 2 |
| `Modeling.SwappedChunksOfTwo` | scripts/modeling.py:23-29 | the worked example with its first and last observations swapped, in chunks of two, has chunk mean squares 0.00205, 0.00125 and 0.01 |
| `Modeling.SwappedExampleChunksOfTwo` | scripts/modeling.py:23-33 | that swapped example in chunks of two gives sqrt(0.0133 / 3) |
| `Modeling.SwappedSameObservations` | scripts/modeling.py:23-33 | the swapped example holds the same observations as the worked example |
| `Modeling.PermutationChangesResult` | scripts/modeling.py:23-33 | with several chunks a permutation of the observations can change the result: the worked example and its swap differ in chunks of two |
| `Numeric.RootMeanSquareNaN` | scripts/modeling.py:33 | `np.sqrt(np.mean(a ** 2))` is NaN if and only if a is empty or holds a NaN |
| `Numeric.RootMeanSquareOfZeros` | scripts/modeling.py:33 | the root mean square of a non-empty array of zeros is zero |
| `Numeric.MeanOfFloatsNaN` | scripts/modeling.py:29 | `np.mean` is NaN if and only if the array is empty or holds a NaN |
| `Numeric.SquareOfSqrt` | scripts/modeling.py:29-33 | squaring `np.sqrt` of a non-negative number or NaN gives back its argument |

## Left out

- The pandas coercion at lines 6-14 (DataFrame flattening, Series conversion) is not modelled: the inputs are sequences of reals, standing for 1-D NumPy float arrays.
- Plain Python lists or tuples are not modelled. Lines 6-14 convert only DataFrames and Series. For a non-empty list `y_true`, `y_true != 0` at line 19 is the single bool `True`, so the slice at line 26 raises `TypeError`. A non-empty list `y_pred` beside an array `y_true` raises at line 28. The model returns a value for these inputs.
- IEEE-754 rounding, overflow, infinities and summation order are not modelled: arithmetic is exact over reals. NumPy's RuntimeWarning on an empty mean is not modelled either; only its NaN result is.
- NaN or infinite values in the inputs cannot be expressed, because the inputs are reals. NaN is modelled only as the outcome of an empty mean.
- `np.sqrt` is a parameter `sqrt`. The step-by-step method equals the specification for any `sqrt`. Properties that depend on what a square root is require `IsSqrt(sqrt)`.
- `chunk_size <= 0` is excluded by `requires chunkSize > 0`. Python's `range` raises for a step of 0 and yields nothing for a negative step; neither case is modelled.
- The failed length check is the error value `LengthMismatch(len_true, len_pred)`, which carries the two lengths that the message formats. The message text is not modelled. The check is modelled as always active, although running Python with `-O` would disable it.
- Permutation invariance for every input is proved with one chunk (`SingleChunkPermutationInvariant`) and with `chunk_size = 1` (`UnitChunksPermutationInvariant`). With several chunks of two or more observations it is proved only under equal per-chunk non-zero counts (`EqualCountsPermutationInvariant`). `PermutationChangesResult` shows that it can fail otherwise.
- scripts/data_preprocessing.py, scripts/descriptive_stats.py and scripts/utils.py are not part of this model: they load data, plot figures and wrap pandas.
- app/main.py and app/model/model.py are not part of this model: they handle HTTP routing and load a pickled model whose `predict` is foreign code.
