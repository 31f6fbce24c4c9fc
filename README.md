# Merge/increment autoencoder core, modelled in Dafny

This project models the discrete core of the merge-and-increment autoencoder
in `DeepReinforcementLearning/DLModels.py`, plus the early-stopping loop of
`StackedAutoencoder.train_model` in `com/dl/gpu/StackedAutoencoderGPU.py`.
It proves properties of that model. Weights are `real`s, so averages are
exact. Theano graphs, gradients, cosine similarities and random draws are
inputs to the model.

| file | module | what it models |
|---|---|---|
| `arith.dfy` | `Arith` | min/max, Euclidean division facts, flat-index decoding, wrap-around |
| `matrices.dfy` | `Matrices` | rows and matrices, `np.zeros`, `ndarray.resize`, transpose, row averages |
| `sorting.dfy` | `Sorting` | argsort: a stable insertion sort of an index list by value |
| `transformer.dfy` | `Transformer` | `chained_output` as a left fold; `iterations_shim` |
| `deep_autoencoder.dfy` | `DeepAutoencoder` | hard-example selection; the indexed update of `indexed_train_func` |
| `replay_pool.dfy` | `ReplayPool` | `Pool`, a ring buffer that acts as a queue (a class over two arrays) |
| `merge_ranking.dfy` | `MergeRanking` | `score_merges`: masked, flattened, argsorted scores, sliced to the upper triangle |
| `matching.dfy` | `Matching` | the greedy disjoint pair matching of `merge_model` and the averaging of merged units |
| `relocation.dfy` | `Relocation` | `prev_map`, the move loops, the zero-padded copy and the refill of fresh rows |
| `surgery.dfy` | `Surgery` | the whole of `merge_model` on the two layers' parameters |
| `early_stopping.dfy` | `EarlyStopping` | the patience-based fine-tuning loop |

The pool is an object whose methods change it in place. It is a class with
`data` and `dataY` arrays, `size` and `position` counters, and ghost
histories of everything added. `Valid()` says the occupied slots are the
last `size` entries of that history.

`merge_model` is specified by the pure function `Surgery.MergeSpec`. Two
methods follow the source step by step and are proved equal to it:

- `Surgery.MergeNet` works on the parameter values;
- `Surgery.MergeModel` updates two `Layer` objects.

`Relocation.MoveRows` is the `for dest, src in prev_map.items()` loop. It
takes the dictionary's entries in an arbitrary order and is proved equal to
the order-free `Relocated`.

The early-stopping loop is specified by `EarlyStopping.FineTune`. The
method `EarlyStopping.TrainModel` runs the loop as the source does and is
proved equal to it.

### Behaviour of the code worth noting

- **Ranking order.** The code argsorts the masked scores in ascending order (`DLModels.py:333`). The least similar pair therefore comes first and is merged first (`MergeRanking.RankStartsLeastSimilar`).
- **Ties.** Theano's argsort promises no order among equal scores. The ranking contracts state nothing about ties.
- **Write position after wrapping.** With capacity 5, adding 3 rows and then 4 rows leaves the write position at (3 + 4) mod 5 = 2 (`ReplayPool.WrapScenario`).
- **Refilling moved sources.** The vacated source slot is drawn with `low=init, high=init` (`DLModels.py:431`). That draw is the constant row `init`, and the model uses that constant row.
- **Hard examples are the upper half, not the above-average ones.** The docstring of `get_hard_examples` (`DLModels.py:178`) and the comment at :185 speak of the cases with above-average reconstruction error. The code at :186 takes `argsort(cost)[len // 2:]`, the upper half by rank. With costs 0, 0, 0, 10 the mean is 2.5, yet an example of cost 0 is selected (`DeepAutoencoder.HardExamplesBelowMean`).
- **Biases on relocation.** Relocation moves weight rows only. The biases stay where they were (`Surgery.ShrinkFilled`, `Surgery.ShrinkEmptied`).
- **Merged units can be lost.** When the layer shrinks, `prev_map` can move a merged survivor into a freed slot at or above the new size. The resize then drops it, and a slot below the new size keeps the constant `init` row instead. `Surgery.ShrinkScenario` shows this with four units and two merges: unit 1, holding the average of units 1 and 0, is moved to slot 2 and cut off.

## Model

| member | source | states |
|---|---|---|
| Transformer.ChainedOutput | DeepReinforcementLearning/DLModels.py:22 | `functools.reduce` of `layer.output` over the layers, starting from `x`: the first layer is applied first |
| Transformer.ChainedOutputEmpty | DeepReinforcementLearning/DLModels.py:22 | chaining no layers returns the input unchanged |
| Transformer.ChainedOutputSnoc | DeepReinforcementLearning/DLModels.py:22 | chaining one more layer applies that layer last, to the output of the layers before it |
| Transformer.ChainedOutputAppend | DeepReinforcementLearning/DLModels.py:22 | chaining `a + b` is chaining `b` on the output of `a` |
| Transformer.ChainedOutputPrefix | DeepReinforcementLearning/DLModels.py:203 | the input of layer `arc` (the first `arc` layers chained) followed by layer `arc` is the first `arc + 1` layers chained |
| Transformer.IterationsShim | DeepReinforcementLearning/DLModels.py:24-35 | `iterations_shim` as written returns `func` itself |
| Transformer.ShimIgnoresIterations | DeepReinforcementLearning/DLModels.py:24-35 | what `iterations_shim` returns is `func` itself, whatever `iterations` is |
| Transformer.RepeatedCalls | DeepReinforcementLearning/DLModels.py:32-34 | the closure the shim builds: `func` applied `iterations` times in a row, no times for a count of zero or less (an empty `range`) |
| Transformer.RepeatedCallsBase | DeepReinforcementLearning/DLModels.py:32-34 | the closure the shim builds: zero passes leave the state alone, one pass is one call of `func` |
| Transformer.RepeatedCallsAdd | DeepReinforcementLearning/DLModels.py:32-34 | the closure run for `a + b` passes equals `b` passes after `a` passes |
| Transformer.ShimDropsRepetition | DeepReinforcementLearning/DLModels.py:24-35 | a shim asked for two passes of an incrementing `func` advances a counter once; the closure advances it twice |
| DeepAutoencoder.HardExampleIndexes | DeepReinforcementLearning/DLModels.py:186 | the selection has `len - len // 2` distinct in-range indices in ascending cost order, and no excluded example costs more than a selected one |
| DeepAutoencoder.HardExamplesScenario | DeepReinforcementLearning/DLModels.py:186 | costs 0.1, 0.9, 0.3, 0.7 select examples 3 and 1 |
| DeepAutoencoder.UpperHalfOfFour | DeepReinforcementLearning/DLModels.py:186 | for those costs, every list meeting the selection's contract is `[3, 1]`, so the contract pins the result |
| DeepAutoencoder.HardExamplesBelowMean | DeepReinforcementLearning/DLModels.py:178-186 | with costs 0, 0, 0, 10 (mean 2.5) the selection includes an example of cost 0: it takes the upper half by rank, not the examples above the average |
| DeepAutoencoder.IncEntries | DeepReinforcementLearning/DLModels.py:165 | `inc_subtensor(b[idx], y)` keeps the vector's length |
| DeepAutoencoder.IncColumns | DeepReinforcementLearning/DLModels.py:164 | `inc_subtensor(W[:, idx], Y)` keeps the matrix's shape |
| DeepAutoencoder.Gather | DeepReinforcementLearning/DLModels.py:164 | `G[:, idx]` has one column per entry of `idx` |
| DeepAutoencoder.IndexedUpdate | DeepReinforcementLearning/DLModels.py:163-166 | the intended update succeeds exactly when every index names a hidden unit; it then keeps every parameter's shape and moves `b_prime` by one step, `b_prime[i] - lr * grad[i]` |
| DeepAutoencoder.IndexedUpdateTouchesOnlyIdx | DeepReinforcementLearning/DLModels.py:164-165 | a unit not in `idx` keeps its column of `W` and its bias; a unit listed once takes exactly one gradient step in both |
| DeepAutoencoder.IndexedUpdateEmpty | DeepReinforcementLearning/DLModels.py:164-165 | an empty `idx` leaves `W` and `b` unchanged |
| DeepAutoencoder.IndexedUpdateAsWritten | DeepReinforcementLearning/DLModels.py:163-166 | the update as written succeeds only when `idx` is in range and exactly as long as the layer's input count, and `b_prime` becomes `-lr * grad` |
| DeepAutoencoder.TransposedGradientRejected | DeepReinforcementLearning/DLModels.py:164 | with 2 inputs and `idx = [0]`, the transposed gradient fails on shape while the intended update succeeds |
| DeepAutoencoder.BiasPrimeOverwritten | DeepReinforcementLearning/DLModels.py:166 | with a zero gradient, the update as written sets `b_prime` to zeros while the intended step keeps it |
| ReplayPool.RingWrite | DeepReinforcementLearning/DLModels.py:280-295 | the buffer after writing `x` from `pos` on, counted around the end; it keeps the buffer's length, and `RingWriteAt` gives each slot's content |
| ReplayPool.Overwrite | DeepReinforcementLearning/DLModels.py:266-267 | the slice write puts `x[i]` at `pos + i` and leaves every other slot unchanged |
| ReplayPool.RingWriteAt | DeepReinforcementLearning/DLModels.py:280-286 | a ring write puts `x[i]` `i` slots after `pos`, counted around the end, and leaves every slot it does not reach unchanged |
| ReplayPool.OverwriteIsRingWrite | DeepReinforcementLearning/DLModels.py:292-293 | a write that fits before the end is a ring write that does not wrap |
| ReplayPool.RingWriteSplit | DeepReinforcementLearning/DLModels.py:280-286 | writing up to the end and then the rest from slot 0 is one ring write of the whole batch |
| ReplayPool.SplitCounters | DeepReinforcementLearning/DLModels.py:280-286 | after the split's first add the position is 0; the two adds leave the same size and position as one add of the whole batch |
| ReplayPool.RingAddWindow | DeepReinforcementLearning/DLModels.py:292-295 | after a ring add, the occupied window is the old window followed by `x`, with the oldest entries beyond capacity dropped |
| ReplayPool.RingAddKeeps | DeepReinforcementLearning/DLModels.py:292-295 | a ring add keeps the queue relation, with `x` appended to the history |
| ReplayPool.Pool.Contents | DeepReinforcementLearning/DLModels.py:250-251 | the pool holds the last `size` rows added, oldest first |
| ReplayPool.Pool.Labels | DeepReinforcementLearning/DLModels.py:250-251 | the pool holds the labels of those rows, oldest first |
| ReplayPool.Pool.constructor | DeepReinforcementLearning/DLModels.py:254-260 | a new pool is empty: size 0, position 0, buffers of capacity length |
| ReplayPool.Pool.Update | DeepReinforcementLearning/DLModels.py:266-269 | the compiled update overwrites `data[pos:pos+n]` and `data_y[pos:pos+n]` and nothing else |
| ReplayPool.Pool.RingAdd | DeepReinforcementLearning/DLModels.py:292-295 | `_ring_add` writes at the position and sets `size := min(size + n, max_size)` and `position := (position + n) % max_size`; the counters stay in range |
| ReplayPool.Pool.AddWrapping | DeepReinforcementLearning/DLModels.py:280-286 | the wrapping branch's two ring adds leave exactly the buffer and counters of one ring add of the whole batch |
| ReplayPool.Pool.Add | DeepReinforcementLearning/DLModels.py:271-286 | `add` is one ring add of the batch; it keeps the queue relation and the counter bounds |
| ReplayPool.Pool.Clear | DeepReinforcementLearning/DLModels.py:288-290 | `clear` resets size and position to 0 and leaves the buffers untouched; the pool then holds nothing |
| ReplayPool.WrapScenario | DeepReinforcementLearning/DLModels.py:271-295 | capacity 5: adding 1,2,3 then 4,5,6,7 leaves buffer 6,7,3,4,5, size 5, position 2, contents 3..7 |
| ReplayPool.WrapScenarioBuffer | DeepReinforcementLearning/DLModels.py:280-286 | the scenario's buffer is 6,7,3,4,5 whatever the slots held before |
| Sorting.SortBySorted | DeepReinforcementLearning/DLModels.py:333 | the insertion sort yields an in-bounds index list in ascending order of value, without repeats when the input has none |
| Sorting.SortBy | DeepReinforcementLearning/DLModels.py:333 | the insertion sort returns a permutation of its input |
| Sorting.InsertSorted | DeepReinforcementLearning/DLModels.py:333 | inserting an in-bounds index into a sorted list keeps it sorted and in bounds |
| Sorting.ArgSort | DeepReinforcementLearning/DLModels.py:333 | argsort returns every index of the vector exactly once, in ascending order of value |
| Sorting.CountSortBy | DeepReinforcementLearning/DLModels.py:333 | sorting does not change how many indices satisfy a predicate |
| Sorting.SortedSplit | DeepReinforcementLearning/DLModels.py:333 | in a sorted list where exactly the values below a threshold satisfy P, those entries form the prefix |
| MergeRanking.MaskedScores | DeepReinforcementLearning/DLModels.py:333 | the masked, flattened score matrix has `n * n` entries |
| MergeRanking.CountMaskedPrefix | DeepReinforcementLearning/DLModels.py:333 | among the flat indices below `r*n + c`, `Triangle(r) + min(c, r+1)` are on or below the diagonal |
| MergeRanking.CountMasked | DeepReinforcementLearning/DLModels.py:333 | the slice bound `n(n+1)/2` is exactly the number of masked entries |
| MergeRanking.MaskSeparates | DeepReinforcementLearning/DLModels.py:333 | subtracting the float maximum puts every masked entry below -1 and every unmasked entry at or above it |
| MergeRanking.SortedMaskedSplit | DeepReinforcementLearning/DLModels.py:333 | after the argsort, the first `n(n+1)/2` positions hold exactly the masked entries |
| MergeRanking.UnmaskedUpper | DeepReinforcementLearning/DLModels.py:330-333 | an entry the mask leaves alone is exactly an upper-triangle index `r*n + c` with `r < c` |
| MergeRanking.RankedOnlyUpper | DeepReinforcementLearning/DLModels.py:333 | every index after the slice is an upper-triangle index |
| MergeRanking.UpperRanked | DeepReinforcementLearning/DLModels.py:333 | every upper-triangle index survives the slice |
| MergeRanking.RankedMembers | DeepReinforcementLearning/DLModels.py:333 | an index is in the sliced list if and only if it is an upper-triangle index |
| MergeRanking.RankedAscending | DeepReinforcementLearning/DLModels.py:333 | past the slice, the pair scores ascend |
| MergeRanking.Ranked | DeepReinforcementLearning/DLModels.py:333 | slicing off the first `n(n+1)/2` sorted positions leaves one entry for each of the `n*n - n(n+1)/2` pairs `r < c` |
| MergeRanking.RankedDistinct | DeepReinforcementLearning/DLModels.py:333 | no index is ranked twice |
| MergeRanking.RankedUpper | DeepReinforcementLearning/DLModels.py:333 | the ranked indices are exactly the upper-triangle indices |
| MergeRanking.RankedSorted | DeepReinforcementLearning/DLModels.py:333 | the ranked pairs' scores ascend |
| MergeRanking.RankMerges | DeepReinforcementLearning/DLModels.py:333-335 | `score_merges` is a permutation of exactly the upper-triangle indices, in ascending score order |
| MergeRanking.RankStartsLeastSimilar | DeepReinforcementLearning/DLModels.py:333 | the first ranked pair scores no higher than any pair `r < c` |
| MergeRanking.RankedDecode | DeepReinforcementLearning/DLModels.py:408 | index `r*n + c` with `r < c` decodes to `x_i = c` and `y_i = r` |
| Matching.Decode | DeepReinforcementLearning/DLModels.py:408 | the survivor `index % n` is a unit below `n` |
| Matching.DecodeInverse | DeepReinforcementLearning/DLModels.py:408 | `y_i * n + x_i` gives the index back |
| Matching.MatchingSnoc | DeepReinforcementLearning/DLModels.py:411-418 | accepting a pair of two unused units keeps the merges a matching |
| Matching.MatchingBounds | DeepReinforcementLearning/DLModels.py:411-418 | every accepted pair frees a unit below its survivor, and both are below `n` |
| Matching.MatchingDisjoint | DeepReinforcementLearning/DLModels.py:411-417 | no unit takes part in two accepted pairs |
| Matching.Greedy | DeepReinforcementLearning/DLModels.py:402-418 | the scan over the ranked indices: stop once `merge_count` pairs are accepted or the ranking is used up; accept the decoded pair `(index % n, index // n)` when neither unit is used yet |
| Matching.GreedyGrows | DeepReinforcementLearning/DLModels.py:402-404 | the scan only appends, and stops at `merge_count` |
| Matching.GreedyMatching | DeepReinforcementLearning/DLModels.py:402-418 | scanning upper-triangle indices keeps the merges a matching |
| Matching.GreedyFrom | DeepReinforcementLearning/DLModels.py:402-418 | every pair the scan accepts decodes one of the scanned indices |
| Matching.GreedyMaximal | DeepReinforcementLearning/DLModels.py:402-418 | a scan that stops short of `merge_count` has rejected every scanned pair for using a used unit |
| Matching.UpperDecodes | DeepReinforcementLearning/DLModels.py:408 | the pair `r < c` is named by the upper-triangle index `r*n + c` |
| Matching.GreedyOnUpper | DeepReinforcementLearning/DLModels.py:402-418 | over the upper triangle, the scan yields a matching of at most `merge_count` pairs, each from a listed index, and no pair of two unused units is left unless `merge_count` was reached |
| Matching.MatchesRanked | DeepReinforcementLearning/DLModels.py:402-418 | the same for the ranking `merge_model` uses, and the freed slots are distinct |
| Matching.FreedDistinct | DeepReinforcementLearning/DLModels.py:418 | `empty_slots` holds distinct units below `n` |
| Matching.MergeRows | DeepReinforcementLearning/DLModels.py:413 | the merged rows keep the matrix's shape |
| Matching.MergeBias | DeepReinforcementLearning/DLModels.py:414 | the merged biases keep the vector's length |
| Matching.AverageInto | DeepReinforcementLearning/DLModels.py:413-414 | one merge step sets the survivor's entry to the pair's average and leaves every other entry alone |
| Matching.MergeRowsKeeps | DeepReinforcementLearning/DLModels.py:411-414 | a row that survives no merge is unchanged, freed rows included |
| Matching.MergeRowsAverages | DeepReinforcementLearning/DLModels.py:413 | a survivor's row ends as the average of the pair's original rows |
| Matching.MergeBiasKeeps | DeepReinforcementLearning/DLModels.py:414 | a bias that survives no merge is unchanged |
| Matching.UnusedUntouched | DeepReinforcementLearning/DLModels.py:411-417 | a unit outside `used` is neither a survivor nor freed |
| Matching.SurvivorNotFreed | DeepReinforcementLearning/DLModels.py:408-418 | a survivor is below `n` and is never a freed slot |
| Matching.MergeBiasFreed | DeepReinforcementLearning/DLModels.py:414-418 | a freed unit keeps its original bias |
| Matching.MergeBiasAverages | DeepReinforcementLearning/DLModels.py:414 | a survivor's bias ends as the average of the pair's original biases |
| Matching.MatchPairs | DeepReinforcementLearning/DLModels.py:402-418 | the matching loop computes exactly the greedy matching's merged rows, merged biases and `empty_slots` |
| Matrices.Zeros | DeepReinforcementLearning/DLModels.py:465 | `np.zeros(n)` has `n` zero entries |
| Matrices.Constant | DeepReinforcementLearning/DLModels.py:431 | a draw with `low == high == init` is `init` in every entry |
| Matrices.Resize | DeepReinforcementLearning/DLModels.py:444 | `resize` keeps the leading entries and zero-fills the rest |
| Matrices.ResizeRows | DeepReinforcementLearning/DLModels.py:467 | resizing a matrix whose rows already have `cols` entries keeps the leading rows and appends zero rows |
| Matrices.Transpose | DeepReinforcementLearning/DLModels.py:387 | `.T` swaps the indices |
| Matrices.TransposeTwice | DeepReinforcementLearning/DLModels.py:451 | transposing back (`set_value(new_layer_weights.T)`) restores the orientation |
| Relocation.Descending | DeepReinforcementLearning/DLModels.py:426 | the list of non-freed units has at most `n` entries |
| Relocation.DescendingMembers | DeepReinforcementLearning/DLModels.py:426 | it holds exactly the units below `n` outside the freed slots |
| Relocation.DescendingSorted | DeepReinforcementLearning/DLModels.py:426 | it is strictly decreasing (`sorted(..., reverse=True)` of a set) |
| Relocation.DescendingAtLeast | DeepReinforcementLearning/DLModels.py:426-427 | `k` distinct non-freed units below `n` guarantee at least `k` sources |
| Relocation.ZipMap | DeepReinforcementLearning/DLModels.py:427 | `dict(zip(keys, values))` has exactly the keys of the shorter prefix |
| Relocation.ZipMapAt | DeepReinforcementLearning/DLModels.py:427 | with distinct keys, key `i` maps to value `i` |
| Relocation.PrevMap | DeepReinforcementLearning/DLModels.py:426-427 | `dict(zip(empty_slots, non_empty_slots))`, with the units that are not freed taken in descending order and cut to `len(empty_slots)` |
| Relocation.PrevMapAt | DeepReinforcementLearning/DLModels.py:426-427 | `prev_map`'s keys are the freed slots, and slot `t` maps to the `t`-th largest non-freed unit |
| Relocation.PrevMapSlot | DeepReinforcementLearning/DLModels.py:426-427 | the same for one slot |
| Relocation.PrevMapSource | DeepReinforcementLearning/DLModels.py:426-427 | a slot's source is a unit below `n` that is not a freed slot |
| Relocation.PrevMapApart | DeepReinforcementLearning/DLModels.py:426-427 | two slots get two different sources |
| Relocation.PrevMapPlan | DeepReinforcementLearning/DLModels.py:426-427 | `prev_map` is a plan: destinations and sources disjoint, sources distinct, destinations exactly the freed slots |
| Relocation.PrevMapLargest | DeepReinforcementLearning/DLModels.py:426 | every non-freed unit that is not a source is smaller than every source |
| Relocation.DescendingZeroTwo | DeepReinforcementLearning/DLModels.py:426 | four units with slots 0 and 2 freed leave 3, 1 |
| Relocation.PrevMapZeroTwo | DeepReinforcementLearning/DLModels.py:426-427 | then slot 0 takes unit 3 and slot 2 takes unit 1 |
| Relocation.Relocated | DeepReinforcementLearning/DLModels.py:429-431 | relocation keeps the number of rows |
| Relocation.RelocatedShape | DeepReinforcementLearning/DLModels.py:429-431 | relocating with a fill of the row width keeps the matrix's shape |
| Relocation.RelocatedEmpty | DeepReinforcementLearning/DLModels.py:436 | an empty `prev_map` moves nothing |
| Relocation.RelocatedStep | DeepReinforcementLearning/DLModels.py:429-431 | one more move (`rows[dest] = rows[src]; rows[src] = fill`) extends the relocation by that entry, in any order |
| Relocation.MoveRows | DeepReinforcementLearning/DLModels.py:429-431 | the move loop, over the entries in any order, yields the order-free relocation |
| Relocation.Embed | DeepReinforcementLearning/DLModels.py:438-439 | the zero-padded copy has the new shape |
| Relocation.Refill | DeepReinforcementLearning/DLModels.py:442 | refilling keeps the number of rows |
| Relocation.RefillKeeps | DeepReinforcementLearning/DLModels.py:442 | a row not listed keeps its contents |
| Relocation.RefillSets | DeepReinforcementLearning/DLModels.py:442 | with distinct slots, slot `t` takes the `t`-th drawn row |
| Relocation.RefillShape | DeepReinforcementLearning/DLModels.py:442 | refilling with rows of the right width keeps the shape |
| Relocation.Below | DeepReinforcementLearning/DLModels.py:441 | the filter keeps exactly the slots below the bound, and all of them when all are below |
| Relocation.Span | DeepReinforcementLearning/DLModels.py:441 | `range(lo, hi)` is `lo, lo+1, ..., hi-1` |
| Relocation.DistinctThenSpan | DeepReinforcementLearning/DLModels.py:441 | distinct slots below `lo` followed by `range(lo, hi)` are distinct |
| Surgery.Trunc | DeepReinforcementLearning/DLModels.py:394-395 | Python's `int()` on a float truncates toward zero: for `x >= 0` the result is the floor, for `x < 0` the ceiling |
| Surgery.UnitCount | DeepReinforcementLearning/DLModels.py:394-395 | `int(pct * n)` is the largest count not above `pct * n` |
| Surgery.UnitCountEmpty | DeepReinforcementLearning/DLModels.py:394-399 | a layer with no units gives no count |
| Surgery.MatchingFits | DeepReinforcementLearning/DLModels.py:421-427 | a matching leaves at least as many non-freed units as merges, so every freed slot gets a source |
| Surgery.NewSize | DeepReinforcementLearning/DLModels.py:421 | `new_size = n + inc_count - len(empty_slots)`, never below `inc_count` because a matching frees at most `n` units |
| Surgery.Units | DeepReinforcementLearning/DLModels.py:387 | the units are `W.T`: one row of input weights per unit |
| Surgery.Plan | DeepReinforcementLearning/DLModels.py:425-436 | the plan is always a valid relocation plan whose destinations are freed slots |
| Surgery.PlanShrinks | DeepReinforcementLearning/DLModels.py:425-427 | when the layer shrinks, the plan is `prev_map` of `empty_slots` |
| Surgery.PlanKeys | DeepReinforcementLearning/DLModels.py:425-427 | when the layer shrinks, every freed slot is a destination |
| Surgery.Slots | DeepReinforcementLearning/DLModels.py:441 | the slots to refill lie inside the new layer: none when shrinking, else `empty_slots` then `range(n, new_size)` |
| Surgery.SlotsFreedAt | DeepReinforcementLearning/DLModels.py:441 | when the layer does not shrink, refill slot `t` is the `t`-th freed unit |
| Surgery.SlotsAddedAt | DeepReinforcementLearning/DLModels.py:441 | when the layer does not shrink, new unit `j` is refill slot `len(empty_slots) + (j - n)` |
| Surgery.SlotsDistinct | DeepReinforcementLearning/DLModels.py:441-442 | no slot is refilled twice |
| Surgery.NewUnits | DeepReinforcementLearning/DLModels.py:402-442 | the first layer's new units form a `new_size x prev` matrix |
| Surgery.NewDownstream | DeepReinforcementLearning/DLModels.py:461-467 | the next layer's new weights form a `new_size x out` matrix |
| Surgery.Resized | DeepReinforcementLearning/DLModels.py:421-472 | after the resize the shapes agree again and the layer has `n + inc - len(empty_slots)` units |
| Surgery.MergeSpec | DeepReinforcementLearning/DLModels.py:380-472 | `merge_model` keeps the two layers' shapes consistent |
| Surgery.UnitsOfResized | DeepReinforcementLearning/DLModels.py:438-451 | the stored units are the merged, relocated, copied and refilled rows |
| Surgery.BiasOfResized | DeepReinforcementLearning/DLModels.py:444 | a surviving unit's bias is its merged bias |
| Surgery.NewUnitsKept | DeepReinforcementLearning/DLModels.py:438-442 | a unit that is not refilled keeps its merged and relocated row, cut or padded |
| Surgery.NewUnitsGrowKept | DeepReinforcementLearning/DLModels.py:438-442 | when growing, a non-freed unit keeps its merged row |
| Surgery.NewUnitsSlot | DeepReinforcementLearning/DLModels.py:442 | refilled slot `t` holds the `t`-th draw |
| Surgery.MergeSpecSize | DeepReinforcementLearning/DLModels.py:394-469 | with both counts 0 nothing changes; otherwise the layer ends with between `n + inc - merge` and `n + inc` units and every dependent shape follows |
| Surgery.GrowKept | DeepReinforcementLearning/DLModels.py:438-444 | when growing, an unmerged unit keeps its weights and bias |
| Surgery.GrowSurvivor | DeepReinforcementLearning/DLModels.py:413-414 | when growing, a survivor holds the average of its pair's weights and biases |
| Surgery.GrowFreed | DeepReinforcementLearning/DLModels.py:441-444 | when growing, a freed unit takes a fresh row but keeps its old bias |
| Surgery.GrowAdded | DeepReinforcementLearning/DLModels.py:438-444 | when growing, a new unit takes a fresh row and a zero bias |
| Surgery.GrowDownstream | DeepReinforcementLearning/DLModels.py:461-469 | when growing, the next layer keeps the rows of old units and gets zero rows for new ones |
| Surgery.ShrinkFilled | DeepReinforcementLearning/DLModels.py:429-430 | when shrinking, a kept freed slot takes its source's input and outgoing weights but keeps its own bias |
| Surgery.ShrinkEmptied | DeepReinforcementLearning/DLModels.py:431 | when shrinking, a kept source becomes the constant `init` row with zero outgoing weights and keeps its bias |
| Surgery.ShrinkStays | DeepReinforcementLearning/DLModels.py:425-444 | when shrinking, a unit neither freed nor moved keeps its merged weights, bias and outgoing weights |
| Surgery.TwoMergeMatching | DeepReinforcementLearning/DLModels.py:402-418 | the merges 1←0 and 3←2 form a matching that frees 0 and 2 |
| Surgery.TwoMergeRows | DeepReinforcementLearning/DLModels.py:413 | after them, unit 3 holds the average of units 3 and 2 |
| Surgery.TwoMergePlan | DeepReinforcementLearning/DLModels.py:426-427 | shrinking to 2 units sends unit 3 to slot 0 and unit 1 to slot 2 |
| Surgery.ShrinkScenario | DeepReinforcementLearning/DLModels.py:421-444 | the 2-unit result holds the merged 3∪2 row and the constant `init` row; the merged 1∪0 unit is lost |
| Surgery.Layer.constructor | DeepReinforcementLearning/DLModels.py:381-388 | a layer holds the given `W`, `b`, `b_prime` and initial size |
| Surgery.MergeNet | DeepReinforcementLearning/DLModels.py:380-472 | the step-by-step body of `merge_model` gives exactly `MergeSpec` |
| Surgery.MergeModel | DeepReinforcementLearning/DLModels.py:371-472 | `merge_model` on two layers sets their parameters to `MergeSpec` of the old ones and leaves the second layer's `b` alone |
| EarlyStopping.Start | com/dl/gpu/StackedAutoencoderGPU.py:230-241 | the state before the loop: epoch 0, patience `10 * n_train_batches`, best loss `inf`, not done |
| EarlyStopping.Improves | com/dl/gpu/StackedAutoencoderGPU.py:262 | `curr_valid_loss < best_valid_loss`, where every finite loss is below `inf` |
| EarlyStopping.ImprovesEnough | com/dl/gpu/StackedAutoencoderGPU.py:264-266 | `curr_valid_loss < best_valid_loss * 0.995`, where `inf * 0.995` is still `inf` |
| EarlyStopping.ValidationFreq | com/dl/gpu/StackedAutoencoderGPU.py:230-234 | `validation_freq == n_train_batches` whenever there is at least one batch |
| EarlyStopping.Validate | com/dl/gpu/StackedAutoencoderGPU.py:262-270 | a smaller loss becomes the best loss with `iter` as `best_iter`; a loss that is not smaller changes nothing; patience changes only when the loss is below `best * 0.995`, and then becomes `max(patience, 2 * iter)`; epoch, iter and done are untouched |
| EarlyStopping.Minibatch | com/dl/gpu/StackedAutoencoderGPU.py:253-270 | minibatch `mini` of epoch `e` sets `iter = (e-1)*n + mini` |
| EarlyStopping.Minibatches | com/dl/gpu/StackedAutoencoderGPU.py:246-270 | the minibatch loop leaves the epoch and `done_looping` alone |
| EarlyStopping.Epoch | com/dl/gpu/StackedAutoencoderGPU.py:244-277 | a pass of the while loop advances `epoch` by one |
| EarlyStopping.MinibatchLoop | com/dl/gpu/StackedAutoencoderGPU.py:246-270 | the for loop ends in the state `Minibatches` specifies |
| EarlyStopping.EpochStep | com/dl/gpu/StackedAutoencoderGPU.py:243-277 | one pass of the while loop ends in the state `Epoch` specifies |
| EarlyStopping.TrainModel | com/dl/gpu/StackedAutoencoderGPU.py:230-277 | the whole loop ends in the state `FineTune` specifies |
| EarlyStopping.Run | com/dl/gpu/StackedAutoencoderGPU.py:243-277 | the while loop from a given state: another epoch while `epoch < fine_epochs` and not done |
| EarlyStopping.FineTune | com/dl/gpu/StackedAutoencoderGPU.py:230-277 | the whole early-stopping phase: `Run` from `Start` |
| EarlyStopping.ValidatesAtEpochEnd | com/dl/gpu/StackedAutoencoderGPU.py:253-257 | `(iter+1) % validation_freq == 0` holds exactly at the epoch's last minibatch |
| EarlyStopping.MinibatchesBeforeEnd | com/dl/gpu/StackedAutoencoderGPU.py:246-257 | the minibatches before the last one only set `iter` |
| EarlyStopping.EpochClosedForm | com/dl/gpu/StackedAutoencoderGPU.py:244-277 | an epoch validates once, at `iter = epoch*n - 1`, and is done exactly when `patience <= iter` |
| EarlyStopping.ValidateMonotone | com/dl/gpu/StackedAutoencoderGPU.py:262-269 | a validation never raises the best loss or lowers the patience |
| EarlyStopping.EpochMonotone | com/dl/gpu/StackedAutoencoderGPU.py:262-269 | nor does an epoch |
| EarlyStopping.RunMonotone | com/dl/gpu/StackedAutoencoderGPU.py:243-277 | nor does the whole loop |
| EarlyStopping.RunEnds | com/dl/gpu/StackedAutoencoderGPU.py:243-277 | the loop runs at most `fine_epochs` epochs; ending early means done; done means the last epoch ended with `patience <= iter` |
| EarlyStopping.EpochKeeps | com/dl/gpu/StackedAutoencoderGPU.py:253-277 | every epoch keeps `iter = epoch*n - 1` and `done <==> patience <= iter` |
| EarlyStopping.RunEpochBound | com/dl/gpu/StackedAutoencoderGPU.py:243-277 | the loop stops at the first epoch whose end index reaches the patience: `(e-1)*n <= patience` |
| EarlyStopping.RunAtLeastEleven | com/dl/gpu/StackedAutoencoderGPU.py:230-277 | the loop runs at least `min(fine_epochs, 11)` epochs |
| EarlyStopping.FineTuneOutcome | com/dl/gpu/StackedAutoencoderGPU.py:230-277 | from the start: between `min(fine_epochs, 11)` and `fine_epochs` epochs, the done condition, patience at least `10n`, and `(e-1)*n <= patience` |
| EarlyStopping.NoRaiseStopsAtEleven | com/dl/gpu/StackedAutoencoderGPU.py:230-277 | if the patience is never raised, training stops after exactly `min(fine_epochs, 11)` epochs |

## Findings

| source | as written | input that shows it | evidently intended | confidence | as-written member | corrected member |
|---|---|---|---|---|---|---|
| DeepReinforcementLearning/DLModels.py:24-35 | `iterations_shim` builds the repeating closure but returns `func`, so `iterations` is ignored | `func` increments a counter, `iterations = 2`: the shim's result advances it by 1 | return the closure, calling `func` `iterations` times | high, not executed | Transformer.ShimDropsRepetition | Transformer.RepeatedCallsAdd |
| DeepReinforcementLearning/DLModels.py:164 | the gathered gradient `grad[:, idx]` is transposed before it is added to `W[:, idx]` | 2 inputs, 2 units, `idx = [0]`: a `1 x 2` increment for a `2 x 1` slice | add `grad[:, idx]` without `.T` | medium, not executed | DeepAutoencoder.TransposedGradientRejected | DeepAutoencoder.IndexedUpdateTouchesOnlyIdx |
| DeepReinforcementLearning/DLModels.py:166 | `b_prime` is replaced by `-lr * grad` | zero gradient, `b_prime = [1]`: becomes `[0]` | `b_prime - lr * grad` | high, not executed | DeepAutoencoder.BiasPrimeOverwritten | DeepAutoencoder.IndexedUpdate |

## Left out

- ReplayPool.Pool.Add: requires `|x| <= max_size`. The branch for larger batches (`DLModels.py:276-278`) indexes a single row instead of slicing, and it is not modelled. The explicit `rows` argument is taken to be the batch length.
- ReplayPool.Pool.constructor: requires `max_size > 0`, because every ring add takes the position modulo `max_size`. The source passes `row_size` where numpy expects a dtype (`DLModels.py:259`). The model allocates the intended `max_size x row_size` storage and fills it with zeros.
- Surgery.MergeNet: `init` is a parameter. The source computes it from `layer_weights.shape()` (`DLModels.py:391`), which calls a tuple and would raise. Random draws are the input `draw`: row `t` is the `t`-th row of the uniform draw at :442.
- Surgery.MergeNet: negative percentages are excluded (`mergePct >= 0.0`, `incPct >= 0.0`).
- Surgery.MergeNet: the retraining loops after the resize (`DLModels.py:455-460`, `474-484`) only call compiled Theano functions, and they are not modelled. `pool_indexes` is used only there.
- Matrices.ResizeRows: the next layer's flat `resize` (`DLModels.py:467`) keeps rows only when the row width already equals `initial_size[1]`. `Surgery.Wired` requires that width.
- MergeRanking.RankMerges: ties among equal scores come out in index order here. Theano's argsort promises no tie order, so under ties the model's matching is one of the possible outcomes.
- MergeRanking.MaskedScores: the cosine similarities (`DLModels.py:326-328`) are the input `score`, and `CosineBounded` requires them to lie in [-1, 1]. This excludes a unit whose incoming weights are all zero. For such a unit the norm at :326 is 0, so :328 computes 0/0 = NaN across its row and column. Argsort puts NaN last, so the slice at :333 keeps masked indices on or below the diagonal and drops the lowest-scored upper pairs. If the scan at :402 reaches a kept diagonal index, it decodes at :408 to `x_i == y_i`. When that unit is unused, the loop at :411-418 merges it with itself and frees it. The model does not capture this; `RankMerges` and `RankedMembers` hold only for scores in [-1, 1]. Float32 rounding of `score - finfo.max` is not modelled either.
- DeepAutoencoder.IndexedUpdate: the gradient is an input. The cost, `T.grad` and the compiled Theano function are not modelled.
- DeepAutoencoder.HardExampleIndexes: only the selected indices are modelled, not the compiled function that returns `x[indexes]` and `y[indexes]`.
- `mi_updates` and the merge-increment training function (`DLModels.py:343-369`) are Theano graph construction, and they are not modelled.
- `Transformer.make_func`, the `process`/`train_func`/`validate_func` builders of `DeepAutoencoder`, `StackedAutoencoder`, `Softmax` and `CombinedObjective`, and their constructors are not modelled. The constructors call `super.__init__` without `()`. Of these, only `chained_output` and `iterations_shim` are modelled, with `layer.output` abstract.
- `train_pool`, `moving_average`, `pool_relevant` and `compare` (`DLModels.py:567-597`) are unfinished code with undefined names, and they are not modelled.
- EarlyStopping.TrainModel: requires `n_train_batches >= 1`. With no batches the source divides by zero at `StackedAutoencoderGPU.py:201`, before the loop.
- EarlyStopping.TrainModel: the validation loss is the input `loss(iter)`. The fine-tuning cost list, `test_score`, the timers and all printing are left out.
- EarlyStopping.TrainModel: patience is a `nat`. After `max(patience, iter * 2.)` the source holds a float, but its value is always a whole number.
- Everything else in `com/dl/gpu/StackedAutoencoderGPU.py` (data loading, pre-training, Theano builders, visualisation, command-line parsing) is not part of this model. Neither are `autoencoder2.py` and `com/dl/gpu/SparseAutoencoderGPU.py`.
- Weights are exact reals. Floating-point rounding is not modelled.
