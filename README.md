# Kohonen self-organising map trainer (1-D), modelled in Dafny

This project models the training core of the one-dimensional Kohonen
self-organising map in `machine_learning/kohonen_som.c`:

- `get_min_1d` is the argmin scan. It keeps the first index of the minimum.
- `update_weights` handles one training step for one sample `x`:
  - it overwrites the distance buffer `D` with every node's squared Euclidean distance to `x`;
  - it picks the best-matching node `b`;
  - it clamps the neighbourhood window `[max(0, b-R), min(num_out, b+R+1))`;
  - it pulls every weight row in that window a fraction `alpha` of the way toward `x`.
- `kohonen_som_tracer` is the annealing driver:
  - it runs one pass over the dataset per epoch;
  - the learning rate starts at 1 and drops by 0.01 per epoch while it is above `alpha_min`;
  - the radius starts at `num_out >> 2` and shrinks by one after epoch 0 and after every tenth epoch from there (`iter % 10 == 0`), while it is above 1.

The project has two modules:

- `som_spec.dfy` (module `SomSpec`) is the specification, over values. A node map or a dataset is a
  `seq<seq<real>>` of equal-width rows. It defines:
  - `Distances`, `ArgMin` and `Neighbourhood` for the parts of a step;
  - `Step` for one training step;
  - `Epoch` for one pass over the samples in order;
  - `Trained` for the whole annealing run, with `Alpha`, `RadiusAt` and `EpochCount` as the schedule.

  The lemmas prove what the trainer guarantees: tie rule, window bounds, locality of an update,
  contraction toward the sample, radius schedule and epoch count.
- `kohonen_som.dfy` (module `KohonenSom`) is the trainer itself, as imperative methods over the
  buffers the C code uses:
  - the weight matrix `W` and the dataset `X` are `array2<real>`;
  - the distance buffer `D` is an `array<real>`;
  - the nested loops update them in place, and each method is proved against the specification
    functions above.

`double` is modelled as `real`. The sizes `num_out`, `num_features` and `num_samples` are the
dimensions of the arrays.

## Model

| member | source | states |
|---|---|---|
| KohonenSom.GetMin1d | machine_learning/kohonen_som.c:67-79 | for `1 <= N`, `idx` is the first index of the minimum of `X[0..N)`: every element before it is strictly larger, none is smaller, `val == X[idx]`, and `idx` is the index the reference scan `ArgMin` keeps |
| SomSpec.ArgMinUpTo | machine_learning/kohonen_som.c:71-77 | reference definition of the scan over the first `n` elements, replacing its candidate only on a strictly smaller value; the index it keeps is one of those `n` positions |
| SomSpec.ArgMin | machine_learning/kohonen_som.c:67-79 | the scan over the whole sequence; the index it returns lies inside the sequence |
| SomSpec.ArgMinUpToIsFirstMin | machine_learning/kohonen_som.c:71-77 | after the first `n` elements the scan that replaces only on a strictly smaller value holds the first position of the minimum of those elements |
| SomSpec.ArgMinIsFirstMin | machine_learning/kohonen_som.c:67-79 | the full scan returns the first index of the minimum |
| SomSpec.FirstMinUnique | machine_learning/kohonen_som.c:73 | the first position of the minimum is unique, so any scan with this tie rule agrees with `ArgMin` |
| SomSpec.PartialSqDist | machine_learning/kohonen_som.c:103-107 | the distance accumulated over the first `n` features is never negative |
| SomSpec.SqDist | machine_learning/kohonen_som.c:103-107 | the squared Euclidean distance between a row and the sample, summed over all features; never negative |
| SomSpec.Distances | machine_learning/kohonen_som.c:101-108 | one squared distance per node, each `>= 0` |
| SomSpec.PartialSqDistSelf | machine_learning/kohonen_som.c:103-107 | a row at the sample itself accumulates distance 0 |
| SomSpec.ExactNodeWins | machine_learning/kohonen_som.c:101-114 | if node `j` equals the sample, the best-matching node is at distance 0 and has index `<= j` |
| KohonenSom.FillDistances | machine_learning/kohonen_som.c:101-108 | afterwards `D[j]` is the squared Euclidean distance from row `j` of `W` to `x`, for every node, with `W` untouched |
| SomSpec.Neighbourhood | machine_learning/kohonen_som.c:117-118 | the clamped window lies inside `[0, num_out)`, and for `R >= 0` it contains the best-matching node |
| SomSpec.NeighbourhoodIsBall | machine_learning/kohonen_som.c:117-118 | a node of the map is inside the clamped window exactly when it is at most `R` positions from the best-matching node |
| SomSpec.PullRow | machine_learning/kohonen_som.c:126-128 | reference definition of the inner loop on one row: entry `k` becomes `w[k] + alpha*(x[k]-w[k])`; the row keeps its width, stays as it was for `alpha == 0` and becomes `x` for `alpha == 1` |
| SomSpec.PullRange | machine_learning/kohonen_som.c:125-128 | reference definition of the window loop: rows with `from <= j < to` are replaced by their `PullRow`, every other row is kept (stated entry by entry in `PullRangeEntry`); the map keeps its number of rows and its width |
| SomSpec.PullRangeEntry | machine_learning/kohonen_som.c:125-128 | after the window loop, entry `k` of row `i` is `w + alpha*(x[k]-w)` when `from <= i < to` and the old `w` otherwise |
| KohonenSom.PullRows | machine_learning/kohonen_som.c:125-128 | rows `from <= j < to` of `W` have each entry moved to `old + alpha*(x[k]-old)`; all other rows keep their values |
| KohonenSom.UpdateWeights | machine_learning/kohonen_som.c:92-129 | `D` holds the distances of the old rows to `x`, and `W` becomes `Step` of the old rows: the clamped window around the first-minimum node is pulled toward `x`, and nothing else changes |
| SomSpec.Step | machine_learning/kohonen_som.c:92-129 | reference definition of one update: the rows in the clamped window of radius `R` around the first-minimum node are pulled toward `x`; the map keeps its number of rows and its width |
| SomSpec.StepIsLocal | machine_learning/kohonen_som.c:117-128 | a step pulls exactly the rows at most `R` from the best-matching node and leaves every other row unchanged; for `R >= 0` the best-matching node's own row is always pulled |
| SomSpec.StepFullRate | machine_learning/kohonen_som.c:125-128 | with `alpha == 1` every row inside the window becomes equal to the sample |
| SomSpec.StepStaysBetween | machine_learning/kohonen_som.c:125-128 | for `0 < alpha <= 1` every entry after a step lies between its old value and the sample's feature |
| SomSpec.PullRowStaysBetween | machine_learning/kohonen_som.c:126-128 | every entry of one pulled row lies between its old value and the sample's feature |
| SomSpec.PullStaysBetween | machine_learning/kohonen_som.c:128 | one update `w + alpha*(t - w)` with `0 < alpha <= 1` lands between `w` and `t` |
| SomSpec.Epoch | machine_learning/kohonen_som.c:155-160 | reference definition of one pass: `Step` applied to the samples in dataset order, each on the previous result, with the same rate and radius; the map keeps its shape |
| KohonenSom.RunEpoch | machine_learning/kohonen_som.c:155-160 | one epoch applies the update step to samples `0..num_samples-1` in dataset order, each seeing the rows the previous one left (`W` becomes `Epoch` of the old rows) |
| KohonenSom.KohonenSomTracer | machine_learning/kohonen_som.c:143-168 | the loop terminates for every `alpha_min`; the dataset is unchanged; `W` ends as `Trained` of the old rows after `EpochCount(alpha_min)` epochs, epoch `i` using rate `1 - 0.01*i` and the radius schedule starting at `num_out >> 2` |
| SomSpec.Trained | machine_learning/kohonen_som.c:147-165 | reference definition of the whole run: `n` epochs in order, epoch `i` with rate `Alpha(i)` and radius `RadiusAt(R0, i)`; the map keeps its shape |
| SomSpec.Alpha | machine_learning/kohonen_som.c:148-152 | the rate of epoch `i` is `1 - 0.01*i`: it is at most 1, and below 1 from the second epoch on |
| SomSpec.EpochCount | machine_learning/kohonen_som.c:148-152 | the number of epochs that run is `ceil(100*(1 - alpha_min))` for `alpha_min < 1`, and 0 otherwise |
| SomSpec.EpochCountIsExact | machine_learning/kohonen_som.c:148-152 | epoch `n` runs exactly when its rate `1 - 0.01*n` is above `alpha_min`, so the loop runs `EpochCount(alpha_min)` epochs |
| SomSpec.EpochRatesInRange | machine_learning/kohonen_som.c:148-152 | every epoch that runs has `alpha_min < alpha <= 1` |
| SomSpec.EpochCountExamples | machine_learning/kohonen_som.c:152 | `alpha_min = 0.1` gives 90 epochs and `alpha_min = 0.01` gives 99 (over the reals) |
| SomSpec.InitialRadius | machine_learning/kohonen_som.c:147 | the starting radius `num_out >> 2` is the largest `r` with `4*r <= num_out` |
| SomSpec.RadiusAt | machine_learning/kohonen_som.c:162-164 | the radius in force during epoch `n`: after epoch `i` it drops by one when `i % 10 == 0` and it is above 1; it is at most the starting radius and loses at most `n` over `n` epochs (the per-epoch rule is RadiusDropsOnlyAtTens) |
| SomSpec.RadiusNeverIncreases | machine_learning/kohonen_som.c:163-164 | the radius in force never increases from one epoch to a later one |
| SomSpec.RadiusStaysPositive | machine_learning/kohonen_som.c:163-164 | a radius that starts at 1 or more never drops below 1 |
| SomSpec.RadiusDropsOnlyAtTens | machine_learning/kohonen_som.c:163-164 | between consecutive epochs the radius either stays or drops by exactly one, and it drops only after an epoch whose index is a multiple of 10 (including 0) and only while above 1 |
| SomSpec.RadiusClosedForm | machine_learning/kohonen_som.c:147-164 | the radius during epoch `n` is `max(1, R0 - ceil(n/10))` when `R0 > 1`, and `R0` otherwise |
| SomSpec.RadiusForFiftyNodes | machine_learning/kohonen_som.c:147-164 | with 50 nodes the radius starts at 12 and is 2 during epoch 100 |

## Left out

- `_random`, `test_circle`, `test_lamniscate`, `test1`, `test2` and `main` are not modelled. They are random data generation (global `rand()` state, `cos`/`sin`) and demo wiring, with no provable logic.
- `save_2d_data` is not modelled, because it is file I/O with `%g` formatting.
- The `#pragma omp for` loops are modelled sequentially. The pragmas sit outside any parallel region, so they do not change the result.
- IEEE-754 doubles are modelled as exact reals. Rounding, NaN and infinities are not modelled.
- KohonenSomTracer: runs `EpochCount(alpha_min)` epochs, the count computed over exact reals. For `0 < alpha_min < 1`, the range the trainer is meant for, repeatedly subtracting 0.01 in `double` accumulates rounding, and the C program can run one epoch more or fewer than this. For very negative floors no such bound is claimed.
- KohonenSomTracer: the epoch counter `iter` is an unbounded integer in the model. The C `int` overflows (undefined behaviour) after 2^31 - 1 epochs, which happens for `alpha_min` below about -2.1e7. For `|alpha| >= 2^47`, `alpha -= 0.01` no longer changes the `double`, and the C loop never ends. Neither the overflow nor this stall is modelled; the model's loop terminates for every `alpha_min`.
- KohonenSomTracer: requires at least one node (`num_out >= 1`), because every update needs a best-matching node (see UpdateWeights below).
- GetMin1d: requires `N >= 1`. The C code starts from an `INFINITY` sentinel, so for `N == 0` it leaves `idx` unset; with finite values the first comparison always succeeds, so the model starts from `X[0]`.
- UpdateWeights: the radius `R` and the window bounds are unbounded integers in the model. In C they are `int`, and the sums `d_min_idx - R` and `d_min_idx + R + 1` (lines 117-118) overflow, which is undefined behaviour, for `|R|` near `INT_MAX`; with `R = INT_MAX` and wrap-around no row would be pulled, while the model pulls every row. This overflow is not modelled. The trainer itself only passes `R <= num_out / 4`.
- UpdateWeights: requires at least one node (`num_out >= 1`), for the same reason: with no nodes `get_min_1d` leaves the best-matching index unset.
- The unchecked `malloc` and the `free` of `D` are not modelled. The model allocates `D` with `new`, which cannot fail.
- The sample `x` is passed to the update as a value (a copy of a dataset row). The C code's aliasing between `x` and a row of `W` is excluded: the dataset and the weight matrix are required to be distinct arrays.
- ExactNodeWins: states that the winner is at squared distance 0 and no later than an exact node. It does not state that the winner's weights equal the sample. That would need "a sum of squares is 0 only when every term is 0", which is nonlinear real arithmetic the verifier's solver does not decide here.
- The trainer does not promise a reduction in squared distance for the pulled rows, and that is not proved. It would need the same nonlinear reasoning about squares.
- Whether the trained map approximates the shape of the data is not modelled. That is a statistical property of the float numerics, not a promise of the code.
