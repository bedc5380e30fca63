# Discrimination analysis of Fig. 6, modelled in Dafny

`Fig6/analysis.py` turns simulated spike trains into one number per trial.
That number is either an amplitude proxy (the spike count) or a frequency
estimate (1000 over the dominant lag between inter-spike-interval peaks).
For each pair of sweep levels, the analysis then scores how well the
measures of one level separate from those of the other: the ROC area under
the curve. The result is a symmetric n-by-n grid over the levels. Here
"symmetric" means that mirrored cells hold the same computed value, with
NaN counting as equal to NaN. A numpy comparison `zz == zz.T` is False at
a NaN cell, and the grid holds such cells whenever the area is NaN.

This project models the exact layer of that file:

- the scorer `discriminate`;
- the grid `discrimination_combinations`;
- the parameter grid `create_param_range`;
- `infer_amplitude`;
- the control skeleton of `infer_frequency`.

The floating-point numerics it calls are parameters.

Modules:

- `Measures` (`measures.dfy`): a numpy float is `Finite(real) | NaN | PosInf | NegInf`.
- `Scorer` (`discrimination.dfy`): `discriminate`.
  - The ROC-AUC library call is a parameter `auc: (labels, scores) -> AucOutcome`, which either returns an area or raises.
  - The masked assignment `d[~np.isfinite(d)] = 0` is a method that updates an array in place.
  - The finiteness filter is a loop method.
  - Both are proved against the specification function `Discrimination`.
- `ReferenceAuc` (`rank_auc.dfy`): a reference area. It is the pairwise rank statistic: the share of (negative, positive) pairs ranked correctly, with ties counting one half. This is the value the area under the ROC curve takes. With it, the chance-level case (score 0.5) and the perfect-separation case (score 1.0) are proved.
- `Combinations` (`combinations.dfy`): `discrimination_combinations`.
  - numpy's `meshgrid`, `ravel` and `reshape` are modelled on sequences of rows.
  - The dict of inferred values is a map plus the list of its keys in insertion order.
- `Ranges` (`ranges.dfy`): `np.arange` over exact reals, and `create_param_range`.
- `Inference` (`inference.dfy`): `infer_amplitude`, `np.diff`, numpy's `argmax`, and `infer_frequency`. The kernel sums, the normalisation and `find_peaks` are parameters.

Two places where the code does something other than what its own wording suggests:

- **Overshoot past `x1`.** The docstring of `create_param_range` calls `x1` the upper bound (line 103). The function is `np.arange(x0, x1 + res, res)`, though. When `x1 - x0` is not a whole number of steps, its last value lies above `x1`, not at or below it: `create_param_range(0, 1, 0.3)` ends at 1.2 (`Ranges.ParamRangeOvershootExample`). What is proved is that `x1` is included exactly when `(x1 - x0) / res` is whole, and that the last value is never below `x1`.
- **Zeroing versus a 50/50 score.** The comment on lines 76-77 says that zeroing non-finite values gives a 50/50 score. It does hold when both lists read as one common value (`ReferenceAuc.ChanceLevel`), and other samples can also score 0.5. A failed ROC computation returns 0, not 0.5 (lines 94-96), and the model returns 0.

## Model

| member | source | states |
|---|---|---|
| Scorer.FiniteValues | Fig6/analysis.py:80 | the finiteness filter keeps at most every entry, keeps every entry exactly when all are finite, and keeps only values of finite entries |
| Scorer.ZeroNonFinite | Fig6/analysis.py:79 | the masked assignment keeps the length, leaves every entry finite and finite entries unchanged; non-finite entries become 0 (ZeroNonFiniteInPlace, SanitisedPointwise) |
| Scorer.FiniteValuesAppend | Fig6/analysis.py:80 | the filter works entry by entry: filtering a concatenation filters each part and keeps them in order |
| Scorer.FiniteValuesSnoc | Fig6/analysis.py:80 | one more entry adds its value at the end exactly when it is finite; with FiniteValuesAppend this fixes the result as the finite entries' values in order |
| Scorer.FiniteValuesKeepsAll | Fig6/analysis.py:80 | on an all-finite list the filter removes nothing and keeps every value in place |
| Scorer.Sanitised | Fig6/analysis.py:78-84 | both sanitisation stages on one list; its length, order and values are stated by SanitisedPointwise |
| Scorer.SanitisedPointwise | Fig6/analysis.py:78-84 | sanitising keeps length and order: non-finite entries become 0, finite ones keep their value, the filter removes nothing |
| Scorer.ZeroNonFiniteInPlace | Fig6/analysis.py:79 | the masked assignment leaves every entry finite, finite entries unchanged and non-finite ones 0 |
| Scorer.KeepFinite | Fig6/analysis.py:80 | the filter loop returns the values of the finite entries in order |
| Scorer.Sanitise | Fig6/analysis.py:78-84 | array copy, masked zeroing and filter give a list of the same length whose entry i is entry i read as 0 when non-finite |
| Scorer.Canonical | Fig6/analysis.py:73-74 | the swap that puts the list of the lower true value first; its effect on the score is stated by DiscriminationSymmetric and RocInputClasses |
| Scorer.Labels | Fig6/analysis.py:87 | `[0] * n0 + [1] * n1` has n0 + n1 entries, label 0 exactly on the first n0 and label 1 exactly on the rest |
| Scorer.RocInput | Fig6/analysis.py:73-87 | labels and scores both have length len(d1)+len(d2) after the swap; the first list's positions carry label 0, the second's label 1, and each score is the sanitised measure there |
| Scorer.Discrimination | Fig6/analysis.py:63-96 | the value discriminate returns; Discriminate is proved to return it, and DiscriminationSymmetric, NonFiniteActsAsZero and RankDiscrimination state its properties |
| Scorer.Discriminate | Fig6/analysis.py:63-96 | returns the library's area on the swapped, sanitised, labelled input, or 0 when the library raises; it never raises itself |
| Scorer.DiscriminationSymmetric | Fig6/analysis.py:73-74 | for a != b, swapping both the lists and their true values leaves the score unchanged, whatever the area function |
| Scorer.NonFiniteActsAsZero | Fig6/analysis.py:78-84 | lists that agree once non-finite entries read as 0 get the same score: non-finite values count as 0 and are not dropped |
| Scorer.NaNScoresAsZero | Fig6/analysis.py:78-84 | discriminate([nan], [5], 0, 1) equals discriminate([0], [5], 0, 1) |
| ReferenceAuc.ClassScores | Fig6/analysis.py:90-91 | the scores of one class under pos_label=1 are no more than the scores, and each of them is one of the scores |
| ReferenceAuc.ClassScoresAppend | Fig6/analysis.py:90-91 | the class scores of two labelled stretches put together are those of each stretch, in order |
| ReferenceAuc.ClassScoresConstant | Fig6/analysis.py:90-91 | under one constant label, one class gets every score in order and the other gets none |
| ReferenceAuc.RowWins | Fig6/analysis.py:90-92 | one negative's credit against the positives lies between 0 and their number |
| ReferenceAuc.WinsAtMostPairs | Fig6/analysis.py:90-92 | the total credit never exceeds the number of (negative, positive) pairs |
| ReferenceAuc.RankAuc | Fig6/analysis.py:90-92 | the area is a finite number, and the call raises exactly when the lengths differ or a class is absent |
| ReferenceAuc.RankAucInUnitRange | Fig6/analysis.py:90-92 | every area returned lies in [0, 1] |
| ReferenceAuc.RocInputClasses | Fig6/analysis.py:86-87 | the negatives the ROC computation sees are the sanitised lower-value list, the positives the sanitised higher-value list |
| ReferenceAuc.WinsTied | Fig6/analysis.py:90-92 | with every score equal, the credit is half the number of pairs |
| ReferenceAuc.WinsSeparated | Fig6/analysis.py:90-92 | when every positive outscores every negative, the credit is the number of pairs |
| ReferenceAuc.RankDiscrimination | Fig6/analysis.py:63-96 | with the rank area, the score is the pair statistic of the sanitised lower list against the higher one, or 0 when either is empty |
| ReferenceAuc.DiscriminationInUnitRange | Fig6/analysis.py:63-96 | with the rank area the score is always a number in [0, 1], and 0 when either list is empty |
| ReferenceAuc.ChanceLevel | Fig6/analysis.py:63-96 | two non-empty lists whose entries all read as the same value score exactly 0.5 |
| ReferenceAuc.PerfectSeparation | Fig6/analysis.py:63-96 | when every higher-level measure exceeds every lower-level one, the score is 1.0 in either argument order |
| ReferenceAuc.IdenticalListsAtChance | Fig6/analysis.py:63-96 | discriminate([1,1,1], [1,1,1], 0, 1) is 0.5 |
| ReferenceAuc.SeparatedListsPerfect | Fig6/analysis.py:63-96 | discriminate([0,0,0], [10,10,10], 0, 1) is 1.0 |
| Combinations.Meshgrid | Fig6/analysis.py:264 | one row per y and one column per x, with xx[i][j] = x[j] and yy[i][j] = y[i] |
| Combinations.Ravel | Fig6/analysis.py:266 | np.ravel, the rows one after the other; RavelIndex states where each entry lands |
| Combinations.RavelIndex | Fig6/analysis.py:266 | flattening n rows of w puts entry (i, j) at i*w + j |
| Combinations.Reshape | Fig6/analysis.py:267 | reshaping a flat list back to rows by cols puts flat entry i*cols + j at (i, j) |
| Combinations.PairMap | Fig6/analysis.py:265-266 | the comprehension over zip gives one result per pair, entry k computed from the k-th pair |
| Combinations.MeshCells | Fig6/analysis.py:264-267 | meshgrid, ravel, map and reshape give n rows of n cells; MeshCellsAt states each cell |
| Combinations.Cell | Fig6/analysis.py:266 | the comprehension body, discriminate of the two levels' measures; CombinationCells and CellSymmetric state its values on the grid |
| Combinations.MeshCellsAt | Fig6/analysis.py:264-267 | after ravel, map and reshape, cell (i, j) is computed from (levels[j], levels[i]) |
| Combinations.DiscriminationCombinations | Fig6/analysis.py:254-269 | n levels give three n-by-n grids with xx[i][j] = levels[j] and yy[i][j] = levels[i] |
| Combinations.CombinationCells | Fig6/analysis.py:261-267 | zz[i][j] is the score of the measures of levels[j] against those of levels[i], with no special case on the diagonal |
| Combinations.GridSymmetric | Fig6/analysis.py:73-74 | the grid is symmetric, zz[i][j] = zz[j][i] and xx[i][j] = yy[j][i], for every area function |
| Combinations.CellSymmetric | Fig6/analysis.py:266 | one cell equals its mirror, through the swap rule for distinct dict keys |
| Ranges.Ceil | Fig6/analysis.py:108 | the least integer not below x, as arange uses it for its length |
| Ranges.Arange | Fig6/analysis.py:108 | arange raises exactly on a zero step, and entry k is start + k*step |
| Ranges.ParamRange | Fig6/analysis.py:108 | create_param_range raises exactly on a zero res and its entry k is x0 + k*res; ParamRangeShape and ParamRangeIncludesUpper state its extent |
| Ranges.ArangeBelowStop | Fig6/analysis.py:108 | with a positive step every entry is below stop, and one more step would reach it |
| Ranges.ArangeSteps | Fig6/analysis.py:108 | consecutive entries differ by the step, and none lies below start |
| Ranges.ParamRangeReachesUpper | Fig6/analysis.py:99-108 | for res > 0 and x1 >= x0 the range is non-empty and its last value is at least x1 |
| Ranges.ParamRangeShape | Fig6/analysis.py:99-108 | the range starts at x0, climbs by res, stays below x1 + res and reaches x1 |
| Ranges.ParamRangeIncludesUpper | Fig6/analysis.py:99-108 | x1 is a parameter exactly when (x1 - x0)/res is a whole number |
| Ranges.UpperIncludedOnlyWhole | Fig6/analysis.py:108 | if x1 is in the range, it is a whole number of steps from x0 |
| Ranges.WholeUpperIncluded | Fig6/analysis.py:108 | a whole number of steps from x0 to x1 puts x1 in the range |
| Ranges.ParamRangeExample | Fig6/analysis.py:99-108 | create_param_range(0, 1, 0.5) is [0, 0.5, 1.0] |
| Ranges.ParamRangeOvershootExample | Fig6/analysis.py:108 | create_param_range(0, 1, 0.3) is [0, 0.3, 0.6, 0.9, 1.2], overshooting x1 |
| Inference.InferAmplitude | Fig6/analysis.py:53-60 | the amplitude proxy is the spike count, 0 exactly for an empty train |
| Inference.Diff | Fig6/analysis.py:36 | np.diff has one entry fewer than its input and is empty exactly below two entries |
| Inference.DiffAt | Fig6/analysis.py:36 | gap k of np.diff is entry k + 1 minus entry k |
| Inference.AccumulateDiff | Fig6/analysis.py:36 | summing the gaps back up from the first spike gives back the train |
| Inference.ArgMax | Fig6/analysis.py:48 | argmax returns the first position of a greatest entry, with NaN above +inf above finite values above -inf |
| Inference.IsiBins | Fig6/analysis.py:35 | arange(0, 350, res) raises exactly on a zero res, and bin k is k*res |
| Inference.Peaks | Fig6/analysis.py:35-42 | no peaks are found (the step raises) when res is 0 or there are fewer than two spikes |
| Inference.PeakSpacings | Fig6/analysis.py:43 | indexing isi_bin by the peaks raises exactly when a peak is out of range; otherwise it gives one spacing fewer than peaks |
| Inference.DominantLag | Fig6/analysis.py:45-48 | the lag bin of greatest density, or none when a step raised; DominantLagRange states its range |
| Inference.InferFrequency | Fig6/analysis.py:23-50 | fewer than two spikes, a zero res or a zero time_step give NaN, and the estimate is never -inf |
| Inference.FewPeaksGiveNaN | Fig6/analysis.py:42-46 | fewer than two detected peaks give NaN, whatever the numerics |
| Inference.DominantLagRange | Fig6/analysis.py:45-48 | a lag is chosen only for a positive time_step and always lies in [0, 15) |
| Inference.NegativeStepEmpty | Fig6/analysis.py:45 | a negative time_step leaves no lag bin |
| Inference.PositiveStepNonEmpty | Fig6/analysis.py:45 | a positive time_step leaves at least one lag bin |
| Inference.FrequencyFloor | Fig6/analysis.py:48 | a finite estimate is above 1000/15 |
| Inference.NaNExactlyWhen | Fig6/analysis.py:34-50 | given well-shaped library calls, the result is NaN exactly when find_peaks was not reached or raised, found fewer than two peaks, or time_step is not positive |
| Inference.PeaksInRange | Fig6/analysis.py:42-43 | given well-shaped library calls, every peak indexes into isi_bin |

## Left out

- `gaussian` and the kernel-density sums (lines 11-20, 39-40 and 46) are floating-point numerics. They are the parameters `kernelSum` and `normalise` of `Inference.Numerics`. Their shapes are assumed only where a lemma says so (`WellBehaved`).
- `scipy.signal.find_peaks` (line 42) is the parameter `findPeaks`, which returns the peak indices or raises.
- sklearn's `roc_curve` and `auc` (lines 90-92) are the parameter `auc` of the scorer, which returns an area or raises.
- ReferenceAuc.RankAuc: a stand-in for sklearn's `roc_curve` and `auc`. It raises when a class is absent, so the scorer takes the fallback of lines 94-96 and gives 0. sklearn's `roc_curve` with `pos_label=1` on one-class labels instead warns and returns NaN rates, so `auc` gives NaN, and the program's cell is NaN where the reference gives 0. The scorer's own properties hold for both, because they are proved for every area function.
- `evaluate_amplitude_discrimination` and `evaluate_frequency_discrimination` (lines 111-185) are left out. They drive an external simulator, draw random numbers, attach physical units and report progress.
- `save`, `load` and the `*_amplitude` / `*_frequency` wrappers (lines 188-251) are pickle file I/O and are left out.
- Ranges.Arange: computes over exact reals, so numpy's floating-point rounding of the length and of the values is not modelled.
- Ranges.ParamRangeShape: the progression facts are proved only for a positive step with `x1 >= x0`. For a negative step only the general entry formula of `Arange` is stated.
- `Inference.InferFrequency` covers the following only through the opaque numerics:
  - the warnings numpy prints for a zero normalising sum or a division by zero;
  - the NaN and infinite values those produce inside the densities.
- The bare `except:` on line 49 also catches interrupts and other errors outside the computation. The model only covers exceptions raised by the steps themselves.
- The `Warning('Something went wrong')` on line 95 builds a warning object and discards it. It has no effect, and it is not modelled.
- Combinations.DiscriminationCombinations: numpy arrays are modelled as sequences of rows. The layout of `xx.shape` and the array dtypes are not modelled.
