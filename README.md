# Support and resistance trendlines, modelled in Dafny

This project models the trendline estimator of the `trendline` package. Given an
asset's Low and High price columns, the estimator works in these steps:

1. It fits a baseline least-squares line to the lows against the position `0 .. n-1`.
2. It takes the residuals of that fit.
3. It cuts the residuals into `num_chunks` contiguous chunks. Each chunk holds
   `n // num_chunks` positions; the last chunk runs to the end of the series.
4. In every chunk it computes two linear-interpolation percentiles:
   - the `residual_percentile`-th, the support cutoff;
   - the `100 - residual_percentile`-th, the resistance cutoff.
5. In every chunk it keeps the positions whose residual is at or below the support
   cutoff, and separately those at or above the resistance cutoff.
6. It fits a support line through the lows at the support positions, and a
   resistance line through the highs at the resistance positions.
7. For each of the two lines it reports the gradient and the line's values at the
   first and the last position.

The batch entry point runs the same body for every series in a dictionary and stores
each result under the series' key. Its loop body (trendline/trendline.py:26-83) repeats
the single-series body (trendline/trendline.py:118-175) statement for statement, so the
model's batch method calls the single-series method.

Modules:
- `outcome.dfy` (`Outcome`): the errors the code raises and a `Result` type carrying them.
- `stats.dfy` (`Stats`):
  - sums and their linearity;
  - minimum and maximum;
  - an insertion sort;
  - the linear-interpolation percentile with its bounds and monotonicity.
- `regression.dfy` (`Regression`): closed-form single-variable least squares over exact
  reals. It proves that the fit satisfies the normal equations, minimises the squared
  error, and recovers a line that fits the data exactly.
- `chunking.dfy` (`Chunking`): floor division and the chunk boundaries, which partition
  the positions.
- `selection.dfy` (`Selection`): the per-chunk cutoffs and masks, the chunk loop
  (`SelectCandidates`, an imperative method), and the properties of the candidate lists.
- `trendline.dfy` (`Trendline`):
  - the whole estimator as a function (`Estimate`);
  - the single-series entry point as a method that follows the code step by step;
  - the batch loop as a method over a map;
  - the end-to-end properties.

## Model

| member | source | states |
|---|---|---|
| Stats.Percentile | trendline/trendline.py:142-143 | numpy's default (linear) percentile: it sorts the chunk, takes the fractional rank `(m - 1) * p / 100`, and interpolates linearly between the two neighbouring ranked values. The top rank gives the maximum. |
| Stats.PercentileBounds | trendline/trendline.py:142-143 | The linear-interpolation percentile of a non-empty chunk, at any percentile in `[0, 100]`, lies between the chunk's minimum and its maximum. |
| Stats.ConstPercentile | trendline/trendline.py:142-143 | Every percentile of a sample whose values are all equal is that value. |
| Stats.PercentileMonotone | trendline/trendline.py:142-143 | A higher percentile never gives a lower cutoff. |
| Stats.Sort | trendline/trendline.py:142-143 | The sorted copy a percentile reads is ascending and a permutation of the chunk. |
| Regression.Fit | trendline/trendline.py:125-126 | An empty sample is rejected with `NoSamples` and nothing else is. A successful fit passes through the point of means. |
| Regression.FitSinglePoint | trendline/trendline.py:159-160 | A single sample is fitted by the level line through it: slope 0, intercept the sample's response. |
| Regression.FitNormalEquations | trendline/trendline.py:125-127 | The fitted line's residuals sum to zero, and so do the residuals weighted by the regressor (the normal equations). |
| Regression.FitIsLeastSquares | trendline/trendline.py:125-126 | No line has a smaller sum of squared residuals than the fitted one. |
| Regression.FitRecoversLine | trendline/trendline.py:125-126 | If the samples lie exactly on a line and two regressor values differ, the fit returns that line. |
| Regression.SquaredErrorShift | trendline/trendline.py:125-126 | Changing the line changes the squared error by the residual sum and moment terms plus the squared gap between the lines. |
| Regression.ZeroSpreadNoCovariation | trendline/trendline.py:125-126 | When all regressor values are equal (zero spread), the covariation with any response is zero too. |
| Chunking.FloorDiv | trendline/trendline.py:131 | Python's `//` for both signs of the divisor: the quotient is rounded towards negative infinity. |
| Chunking.ChunkStart | trendline/trendline.py:138 | Chunk `k` starts at `k * (n // c)`. |
| Chunking.ChunkEnd | trendline/trendline.py:139 | Chunk `k` ends `n // c` positions after its start, except the last chunk, which ends at `n`. |
| Chunking.ChunkBounds | trendline/trendline.py:137-140 | Every chunk is an in-order range inside `0 .. n`. |
| Chunking.ChunkSizes | trendline/trendline.py:131-139 | Every chunk but the last holds `n // c` positions; the last holds `n // c + n % c`. |
| Chunking.ChunksContiguous | trendline/trendline.py:137-139 | The first chunk starts at 0, each chunk ends where the next begins, and the last ends at `n`. |
| Chunking.ChunkNonEmpty | trendline/trendline.py:131-139 | With at least as many positions as chunks, every chunk is non-empty. |
| Chunking.FirstChunkEmpty | trendline/trendline.py:131-140 | For a non-empty series, the first chunk is empty exactly when there are more chunks than positions. |
| Chunking.ChunkOfContains | trendline/trendline.py:137-140 | Every position of the series lies inside the chunk `ChunkOf` names. |
| Chunking.ChunkOfUnique | trendline/trendline.py:137-140 | A position lies in no other chunk: the chunks are disjoint, so with `ChunkOfContains` they partition `0 .. n-1`. |
| Selection.Select | trendline/trendline.py:145-146 | The mask keeps exactly the chunk positions whose residual is at or below (support) or at or above (resistance) the cutoff, in increasing order. |
| Selection.Lists | trendline/trendline.py:137-149 | After `k` rounds of the chunk loop there are `k` appended lists, and entry `j` is chunk `j`'s mask. |
| Selection.Candidates | trendline/trendline.py:130-154 | The chunk selection as a function. Its errors come in the order the code meets them: 0 chunks divides by zero; a negative count leaves nothing to concatenate; numpy rejects a percentile outside `[0, 100]`; fewer positions than chunks leaves the first chunk empty. Otherwise it returns each side's chunk masks, concatenated in chunk order. |
| Selection.SelectCandidates | trendline/trendline.py:130-154 | The chunk loop returns the candidate lists of `Candidates`. Its errors, in the order the code meets them: division by zero for 0 chunks; nothing to concatenate for a negative count; a percentile outside `[0, 100]`; an empty chunk. |
| Selection.SelectNonEmpty | trendline/trendline.py:140-146 | In a non-empty range, the mask at any percentile of that range keeps at least one position. |
| Selection.ChunkCandidatesSorted | trendline/trendline.py:145-146 | One chunk's candidates are strictly increasing positions of that chunk. |
| Selection.EmptyChunkMeansFew | trendline/trendline.py:138-142 | A chunk can be empty only when there are fewer positions than chunks, and then the first one is. |
| Selection.FlattenIncreasing | trendline/trendline.py:148-154 | Concatenating the chunk lists in chunk order gives a strictly increasing list inside the chunks covered so far. |
| Selection.SortedBlocks | trendline/trendline.py:153-154 | Concatenating increasing lists that each lie between consecutive chunk boundaries gives an increasing list below the last boundary. |
| Selection.FlattenMembers | trendline/trendline.py:148-154 | A position is in the concatenation exactly when its own chunk's mask keeps it. |
| Selection.FlattenHas | trendline/trendline.py:153-154 | A position is in the concatenation exactly when it is in one of the concatenated lists. |
| Selection.BoundaryMono | trendline/trendline.py:137-139 | The boundary after the first `a` chunks never lies beyond the boundary after the first `b >= a`. |
| Selection.BoundaryOrder | trendline/trendline.py:137-139 | A position lies below the boundary of the first `k` chunks exactly when its own chunk is one of them. |
| Selection.CandidatesExact | trendline/trendline.py:137-158 | Each side's candidates are strictly increasing, so free of duplicates. They lie in `[0, n)` and are exactly the positions that their own chunk's cutoff keeps. |
| Selection.CandidatesFound | trendline/trendline.py:153-160 | After a successful selection both candidate lists are non-empty and inside the series. |
| Selection.ExtremesKept | trendline/trendline.py:142-146 | At any percentile, a chunk's smallest residual is a support candidate and its largest a resistance candidate. |
| Selection.ChunkContributes | trendline/trendline.py:142-149 | Every chunk contributes at least one candidate to each side. |
| Selection.CutoffsOrdered | trendline/trendline.py:142-143 | With a percentile of at most 50, a chunk's support cutoff never exceeds its resistance cutoff. |
| Selection.LevelChunkCutoff | trendline/trendline.py:142-143 | A chunk whose residuals are all equal has that value as both cutoffs, whatever the other chunks hold. |
| Selection.SupportGrowsWithPercentile | trendline/trendline.py:142-145 | Raising the percentile never removes a support candidate from a chunk. |
| Selection.ResistanceGrowsWithPercentile | trendline/trendline.py:143-146 | Raising the percentile never removes a resistance candidate from a chunk, because the resistance cutoff uses `100 - q` and falls. |
| Trendline.Estimate | trendline/trendline.py:118-185 | The whole estimator for one series: the baseline fit, residuals and selection (`Picks`), then the two trend fits and the report (`Trends`). It returns the first error any step raises. |
| Trendline.Picks | trendline/trendline.py:118-154 | The baseline fit, residuals and selection. When they succeed, the series is non-empty and both candidate lists are non-empty and inside it. |
| Trendline.Report | trendline/trendline.py:161-185 | The returned record: each line's slope as gradient, and its predictions at the first position 0 and the last position `n - 1` as start and end. |
| Trendline.Trends | trendline/trendline.py:156-175 | The two trend fits fail, with `NoSamples`, exactly when a candidate list is empty. |
| Trendline.CalculateTrendlineSingle | trendline/trendline.py:98-185 | The single-series entry point, with the signature's defaults of 3 chunks and the 5th percentile, returns `Estimate`, the result or error of the whole pipeline. |
| Trendline.EstimateOutcome | trendline/trendline.py:125-153 | The estimator fails exactly for an empty series, a chunk count below 1, a percentile outside `[0, 100]`, or fewer positions than chunks. Each failure carries the error of the first step that raises. |
| Trendline.DefaultsNeedThreePositions | trendline/trendline.py:98 | With the default arguments (3 chunks, 5th percentile), the estimator succeeds exactly on series of three or more positions. |
| Trendline.EndpointsConsistent | trendline/trendline.py:161-175 | Each reported end value is the reported line (start value, gradient) evaluated at the last position, so `end - start = gradient * (n - 1)`. |
| Trendline.FlatTrendIsLevel | trendline/trendline.py:161-175 | A reported line with gradient 0 starts and ends at the same value. |
| Trendline.TrendsAreBestFits | trendline/trendline.py:156-172 | The reported support line has the least squared error over the support candidates' lows; the resistance line has the least over the resistance candidates' highs. |
| Trendline.LinearSeriesRecovered | trendline/trendline.py:118-175 | If the lows lie on one line and the highs on another, and there are at least two positions, both lines are reported exactly, for every valid chunk count and percentile. |
| Trendline.FlatLowsFlatSupport | trendline/trendline.py:118-164 | When every low equals one value, the estimate succeeds for every valid chunk count and percentile, and the support line is level at that value, whatever the highs are. This includes a one-position series with one chunk. |
| Trendline.Batch | trendline/trendline.py:23-95 | The batch result over the keys in iteration order: the first error aborts it; otherwise each key maps to its asset's report. |
| Trendline.CalculateTrendlinesMultiple | trendline/trendline.py:5-95 | The batch loop returns `Batch` of the per-asset results, taken in the dictionary's iteration order. |
| Trendline.FailurePersists | trendline/trendline.py:25-93 | Once an asset fails, the whole batch fails with that asset's error. |
| Trendline.BatchSucceeds | trendline/trendline.py:23-95 | The batch succeeds exactly when every asset does. It then maps every visited key, and no other key, to that asset's own result. |
| Trendline.BatchFirstFailure | trendline/trendline.py:25-93 | A failed batch carries the error of the first failing asset in iteration order; every asset before it succeeded. |
| Trendline.AllAssetsReported | trendline/trendline.py:23-95 | Over a whole dictionary, the batch succeeds exactly when every series' single estimate does. It then holds exactly the input's keys, each with that series' single-series result. |

## Left out

- Floating point: all prices, residuals, percentiles and fits are exact reals. Rounding,
  NaN and infinities in numpy and scikit-learn are not modelled.
- The internals of scikit-learn's `LinearRegression` are a foreign library. `Regression.Fit`
  is the closed-form least-squares solution for one regressor. When every regressor value
  is equal, including a single sample, the slope is not determined; the model takes
  slope 0 and the mean response as intercept, the minimum-norm solution that library
  returns.
- The pandas label machinery (`.index` and `get_loc`, trendline/trendline.py:145-146,156,167)
  is not modelled. Positions serve as labels, which matches a default 0-based index.
  Non-unique or non-integer labels, for which `get_loc` returns slices or masks, are
  not modelled.
- Column access and missing `Low`/`High` columns are schema handling. A series is a
  `Prices` value whose two columns have equal length, which every operation requires.
- Exceptions become `Err` values naming the failing step. The exception classes are not
  modelled. In the batch, the error does not say which asset raised it.
- The dictionary's insertion order is an explicit `order` sequence that lists its keys.
  The Python dictionary provides this order.
- `num_chunks` is an integer and `residual_percentile` a real. Non-numeric arguments,
  which raise type errors in the library, are not modelled.
- `np.percentile` on an empty chunk raises. The model reports that as `EmptyChunk`
  without modelling numpy's own message.
- `trendline/__init__.py` re-exports `calculate_trendline` and
  `calculate_multiple_trendlines`, names the module does not define, so importing the
  package fails. There is no logic there to model.
- `setup.py` holds packaging metadata only.
- The docstrings give defaults of 5 chunks and the 10th percentile. The signatures
  (trendline/trendline.py:5,98) use 3 and 5; the model follows the signatures.
- Regression.Residuals: its contract states only the length. The residual `y - l(x)` at
  each sample is its definition, and the lemmas about it state its sum, moment and
  squared error.

## Notes on the code

At these edges the code behaves in ways its docstrings do not say:
- A series of one position is accepted. The baseline fit then has slope 0, and the
  series yields one candidate per side (with one chunk).
- A single candidate on a side gives a trend line of slope 0 through that price. No
  error is raised.
- A percentile above 50 is accepted. The two cutoffs may then cross (`CutoffsOrdered`
  needs at most 50).
- The percentile range is enforced by `np.percentile`, so a value outside `[0, 100]` is
  an error path here (`PercentileOutOfRange`), not a precondition.
