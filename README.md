# pyfoal, modelled in Dafny

pyfoal is a forced aligner: given speech audio and its transcript, it
returns when each phoneme is spoken. This project models its core:

- the monotonic Viterbi decoder that turns per-frame phoneme scores into
  an alignment;
- the list, string and arithmetic logic around the decoder:
  - symbol and index maps, and frames to timed segments;
  - the concatenated dataset, length buckets, batch samplers and batch
    padding;
  - the evaluation metrics;
  - duration interpolation;
  - the train/valid/test partitions;
  - post-processing of the downloaded corpora;
  - the text and duration helpers of the two P2FA (HTK) aligners.

The model is written in the source's own form.

- **Viterbi matrices** are `array2`s, and the loops that fill them are
  `method`s with loop invariants. Each method is proved against a pure
  specification on `seq<seq<_>>`.
- **Mutated metric objects** are `class`es.
- **Pure lookups and comprehensions** are functions.
- **Scores** are extended reals: `NegInf` or `Fin(real)`. Durations and
  times are `real`s.
- **Python exceptions** become `Result` values (`Err(KeyError)`,
  `Err(IndexError)`, …).

Several things are parameters, because the source takes them from
configuration or code outside the core:

- the configuration constants: `ALLOW_SKIP_SPACE`, `ALLOW_LOUD_SILENCE`,
  `SILENCE_THRESHOLD`, `MAX_FRAMES`, `BUCKETS` and `RANDOM_SEED`;
- the natural logarithm applied to the transition weights;
- the permutations drawn by `torch.randperm` and `random.shuffle`;
- the phoneme vocabulary;
- `samples_to_frames`, `normalize_numbers`, float parsing, and the
  training loss value.

Modules:

| module | file | models |
|---|---|---|
| `Common` | common.dfy | errors, `Result`, `Option`, phones/segments, sums, permutations |
| `Scores` | scores.dfy | extended-real scores, `+`, ordering, `torch.argmax` (lowest maximal index) |
| `Runs` | runs.dfy | `itertools.groupby` / `torch.unique_consecutive` as run-length encoding |
| `Order` | order.dfy | Python string order and `sorted` |
| `Viterbi` | viterbi.dfy | pyfoal/viterbi.py |
| `Convert` | convert.dfy | pyfoal/convert.py |
| `Dataset` | dataset.dfy | pyfoal/data/dataset.py |
| `Sampler` | sampler.dfy | pyfoal/data/sampler.py |
| `Collate` | collate.dfy | pyfoal/data/collate.py |
| `Evaluate` | metrics.dfy | pyfoal/evaluate/metrics.py |
| `Interpolate` | interpolate.dfy | pyfoal/interpolate.py |
| `Partition` | partition.dfy | pyfoal/partition/core.py |
| `Download` | download.dfy | pyfoal/data/download/core.py |
| `P2fa` | p2fa.dfy | pyfoal/p2fa.py |
| `BaselineP2fa` | baseline_p2fa.dfy | pyfoal/baselines/p2fa.py |

Three facts about decoding, as the code has them:

- **Transition orientation.** The transition matrix is indexed
  [destination][source] (pyfoal/viterbi.py:31-33, 45 and 141).
- **No infeasibility error.** decode raises no error when the last
  phoneme is unreachable: the last posterior row is overwritten
  (pyfoal/viterbi.py:72-73). So the decoding properties are stated for
  every input, and the feasibility ones are conditioned on a complete
  alignment existing.
- **Missing loudness.** When skipping is enabled, loud silences are
  disallowed and no loudness is given, decode fails with AttributeError
  (pyfoal/viterbi.py:56).

## Model

| member | source | states |
|---|---|---|
| `Scores.ArgMax` | pyfoal/viterbi.py:109 | the result is a maximal position and lies before every other maximal one; an all-−∞ row gives 0 |
| `Scores.ArgMaxUnique` | pyfoal/viterbi.py:145 | the argmax position is determined by the row |
| `Scores.ArgMaxFinite` | pyfoal/viterbi.py:145 | if any entry is finite the argmax entry is finite and at least as large |
| `Scores.Add` | pyfoal/viterbi.py:141 | the sum is finite exactly when both scores are, and then adds them |
| `Scores.AddMonotone` | pyfoal/viterbi.py:141-145 | adding a score preserves the order |
| `Scores.LeTotal` | pyfoal/viterbi.py:145 | any two scores are ordered |
| `Scores.LeTransitive` | pyfoal/viterbi.py:145 | the order is transitive |
| `Order.Sort` | pyfoal/p2fa.py:163 | `sorted` returns a permutation of its input |
| `Order.SortSorted` | pyfoal/p2fa.py:163 | `sorted` returns its input in Python's string order |
| `Order.SortedUnique` | pyfoal/p2fa.py:163 | two sorted lists with the same elements are equal |
| `Viterbi.Initial` | pyfoal/viterbi.py:20-24 | log 1 at phoneme 0 and −∞ at every other phoneme |
| `Viterbi.BuildAdjacency` | pyfoal/viterbi.py:27-45 | entry [j][i] is 1 exactly for the self loop, the advance from j-1, and (skip enabled, j-1 an interior silence) the skip from j-2, else 0 |
| `Viterbi.AdjacencyRowSum` | pyfoal/viterbi.py:30-45 | every row holds its diagonal, so its sum is its in-degree, between 1 and 3, never 0 |
| `Viterbi.AllowedBelowClosed` | pyfoal/viterbi.py:30-45 | the in-degree of j counts the diagonal, the sub-diagonal when j ≥ 1 and the skip edge when present |
| `Viterbi.NormaliseRows` | pyfoal/viterbi.py:65 | each entry is divided by its row's sum taken before any division; nothing else changes |
| `Viterbi.NormaliseAndLog` | pyfoal/viterbi.py:65-66 | after normalising and taking logs the matrix equals `TransitionMatrix` |
| `Viterbi.TransitionMatrix` | pyfoal/viterbi.py:27-45 | an entry is finite exactly where the edge is allowed (log(1/k) on the k allowed sources of a row, −∞ elsewhere) |
| `Viterbi.MaskLoudSilence` | pyfoal/viterbi.py:47-58 | `distribution` is the unmasked clone; `observation[t][p]` becomes −∞ exactly when frame t is louder than the threshold and p is an interior silence, and is unchanged otherwise |
| `Viterbi.MaskedCopy` | pyfoal/viterbi.py:36-62 | the decoded observation is masked only when skipping is on and loud silences are off |
| `Viterbi.Step` | pyfoal/viterbi.py:139-147 | for every j, `memory[t][j]` is the lowest source maximising `posterior[t-1][i] + transition[j][i]` and `posterior[t][j]` adds `observation[t][j]` to that maximum; rows other than t are unchanged |
| `Viterbi.SetRow` | pyfoal/viterbi.py:146-147 | row r takes the given values and every other row is unchanged |
| `Viterbi.Forward` | pyfoal/viterbi.py:120-136 | `posterior[0] = observation[0] + initial`, and every later row satisfies the step recurrence |
| `Viterbi.ForwardFromArrays` | pyfoal/viterbi.py:120-136 | the array result of the forward pass satisfies the recurrence on plain matrices |
| `Viterbi.FirstRowFinite` | pyfoal/viterbi.py:20-24 | posterior row 0 is finite at most at phoneme 0 |
| `Viterbi.NoSkipReach` | pyfoal/viterbi.py:27-33 | without skip edges, `posterior[t][j]` is −∞ whenever j > t |
| `Viterbi.FinitePredecessor` | pyfoal/viterbi.py:139-147 | a finite posterior cell's back-link is an allowed predecessor with a finite posterior, and the cell's observation is finite |
| `Viterbi.PosteriorIsMaximum` | pyfoal/viterbi.py:139-147 | no path ending at (t, j) scores more than `posterior[t][j]` |
| `Viterbi.BackScore` | pyfoal/viterbi.py:114-147 | the back-link path from (t, j) scores exactly `posterior[t][j]` |
| `Viterbi.FinalArgMax` | pyfoal/viterbi.py:72-109 | the argmax of the forced last row is the last phoneme |
| `Viterbi.ForceFinal` | pyfoal/viterbi.py:72-73 | the last posterior row becomes `Final`; earlier rows are unchanged |
| `Viterbi.Backward` | pyfoal/viterbi.py:104-117 | the path has one in-range entry per frame, ends at the argmax of the last row, and each entry is the back-link of the next |
| `Viterbi.BackwardIsBacktrack` | pyfoal/viterbi.py:104-117 | the array result of the backward pass is a backtrack through `memory` |
| `Viterbi.MemoryArrayInRange` | pyfoal/viterbi.py:145 | back-links are phoneme positions |
| `Viterbi.ForwardMemoryInRange` | pyfoal/viterbi.py:145 | the forward pass writes only phoneme positions into `memory` |
| `Viterbi.BacktrackIsBack` | pyfoal/viterbi.py:114-115 | a backtrack from the last phoneme is the back-link path from there |
| `Viterbi.BacktrackScore` | pyfoal/viterbi.py:72-76 | the backtracked path scores `posterior[M-1][N-1]` before the override |
| `Viterbi.BacktrackPrefixScore` | pyfoal/viterbi.py:114-147 | every prefix of the backtracked path scores the posterior of the cell it ends on |
| `Viterbi.BacktrackOptimal` | pyfoal/viterbi.py:69-76 | the backtracked path scores at least as much as every path that ends on the last phoneme |
| `Viterbi.FiniteIffValid` | pyfoal/viterbi.py:27-45 | under the decoder's transitions and initial vector, a path scores finitely exactly when it starts at phoneme 0, takes only allowed steps and crosses finite observations |
| `Viterbi.ValidPathSnoc` | pyfoal/viterbi.py:141-147 | a path is valid exactly when its prefix is, and its last step and frame are |
| `Viterbi.BacktrackFeasible` | pyfoal/viterbi.py:72-76 | the backtracked path is a complete alignment exactly when the final posterior was finite before the override |
| `Viterbi.DecodedPathFeasible` | pyfoal/viterbi.py:69-76 | if any complete alignment exists, the decoded path is one |
| `Viterbi.FeasibleSteps` | pyfoal/viterbi.py:31-45 | along a complete alignment each frame stays, advances by one, or advances by two across an interior silence with skipping on |
| `Viterbi.ValidPathMonotone` | pyfoal/viterbi.py:31-45 | along a valid path the phoneme position never decreases |
| `Viterbi.ValidPathCovers` | pyfoal/viterbi.py:36-45 | a valid path visits every phoneme up to where it has reached, except interior silences it may skip |
| `Viterbi.BestPath` | pyfoal/viterbi.py:69-76 | forward, override and backward give a best alignment: one entry per frame, ending on the last phoneme, scoring at least every such path, and complete whenever any complete alignment exists; and it is the path the forward back-links give from the last phoneme at the last frame |
| `Viterbi.ForwardRowsAgree` | pyfoal/viterbi.py:69-70 | two runs of the forward recurrence on the same inputs have the same posterior rows and the same back-links |
| `Viterbi.BacktrackAgree` | pyfoal/viterbi.py:74-76 | two back-link paths through agreeing memories from the same last entry coincide frame by frame |
| `Viterbi.SelectedUnique` | pyfoal/viterbi.py:69-76 | forward and backward passes select exactly one path |
| `Viterbi.MaskedObservation` | pyfoal/viterbi.py:47-58 | the observation is −∞ exactly at the masked cells (loud frame, interior silence, mask enabled) and unchanged elsewhere |
| `Viterbi.BacktrackIsBest` | pyfoal/viterbi.py:69-76 | the path backtracked from the last phoneme is a best alignment |
| `Viterbi.Decode` | pyfoal/viterbi.py:11-80 | no phonemes: IndexError; missing loudness when needed: AttributeError; loudness that cannot form the mask (a single value, or another length than the frames): IndexError; no frames: IndexError; otherwise the (index, count) pairs are the canonical run-length encoding of a best alignment of the masked observation, and expand to the one path the forward back-links select |
| `Viterbi.RunLengths` | pyfoal/viterbi.py:79-80 | the output has no equal neighbours, every count is at least 1, and expanding it gives the frame path back |
| `Runs.Runs` | pyfoal/convert.py:38-40 | at most one run per element, none for empty input, the first run holds the first element |
| `Runs.RunsCanonical` | pyfoal/viterbi.py:79 | runs have counts ≥ 1 and neighbouring runs differ |
| `Runs.ExpandRuns` | pyfoal/convert.py:38-40 | expanding the runs reproduces the input |
| `Runs.RunsExpand` | pyfoal/viterbi.py:79 | a canonical encoding is the encoding of its expansion |
| `Runs.RunsTotal` | pyfoal/viterbi.py:79-80 | the counts add up to the number of frames |
| `Runs.TotalCountCounts` | pyfoal/viterbi.py:79-80 | the total of the runs is the sum of the count list |
| `Convert.IndexMap` | pyfoal/convert.py:16-18 | the map holds exactly the vocabulary symbols, each at a position holding it, and no later position holds it |
| `Convert.PhonemeToIndex` | pyfoal/convert.py:13-21 | succeeds exactly for vocabulary symbols, giving the last position holding the symbol; else KeyError |
| `Convert.IndexToPhoneme` | pyfoal/convert.py:24-32 | succeeds exactly for positions inside the vocabulary; else KeyError |
| `Convert.SymbolRoundTrip` | pyfoal/convert.py:16-32 | index then symbol gives every vocabulary symbol back |
| `Convert.IndexRoundTrip` | pyfoal/convert.py:17-29 | for a vocabulary without repeats, symbol then index gives every position back |
| `Convert.LaterPositionWins` | pyfoal/convert.py:17-18 | with a repeated symbol the later position is the one found |
| `Convert.RunsInVocab` | pyfoal/convert.py:38-47 | every frame index names a symbol exactly when every group's index does |
| `Convert.GroupingLaws` | pyfoal/convert.py:38-40 | groups have counts ≥ 1, neighbouring groups differ, and expanding them gives the frames back |
| `Convert.IndicesToAlignmentAsWritten` | pyfoal/convert.py:35-53 | as written every input raises: KeyError when the first index is outside the vocabulary, TypeError otherwise |
| `Convert.AsWrittenRejectsValidFrames` | pyfoal/convert.py:46-49 | the frames [0, 0] over ["a"] are all valid, yet the code as written raises TypeError |
| `Convert.TimeIsProduct` | pyfoal/convert.py:39 | the duration of n frames is hopsize × n |
| `Convert.TimeAdd` | pyfoal/convert.py:50 | durations of consecutive frame counts add up |
| `Convert.IndicesToAlignment` | pyfoal/convert.py:35-53 | succeeds exactly when every index names a symbol (else KeyError); segment k is group k's symbol, starting after all earlier groups' frames and ending after its own |
| `Convert.TimedRunsTile` | pyfoal/convert.py:39-50 | the first segment starts at 0, each starts where the previous ends, each lasts hopsize × count, and the last ends at hopsize × the number of frames |
| `Dataset.Len` | pyfoal/data/dataset.py:50-52 | the length is the number of items of the concatenation |
| `Dataset.FlattenLength` | pyfoal/data/dataset.py:50-52 | that number is the sum of the per-dataset lengths |
| `Dataset.Locate` | pyfoal/data/dataset.py:74-87 | a found dataset is one of the list; past the end the lookup raises IndexError |
| `Dataset.GetDataset` | pyfoal/data/dataset.py:74-87 | the while loop computes exactly `Locate` |
| `Dataset.LocateSucceeds` | pyfoal/data/dataset.py:79-81 | the lookup succeeds exactly for a non-empty list and an index below the total length |
| `Dataset.LocateFirst` | pyfoal/data/dataset.py:76-85 | the dataset found is the first whose cumulative length exceeds the index, and the local index is the index minus the lengths before it |
| `Dataset.LocateLocal` | pyfoal/data/dataset.py:85 | for a non-negative index the local index lies inside the dataset found |
| `Dataset.LocateInverse` | pyfoal/data/dataset.py:76-85 | item j of dataset i, at global index (lengths before i) + j, is found there |
| `Dataset.LocateFlatten` | pyfoal/data/dataset.py:60-63 | the item found for a global index is that index of the concatenation |
| `Dataset.ItemLengths` | pyfoal/data/dataset.py:60-63 | the lengths loop yields the concatenated length list |
| `Dataset.Chunks` | pyfoal/data/dataset.py:67 | every chunk holds between 1 and `size` indices |
| `Dataset.ChunksLaws` | pyfoal/data/dataset.py:67 | the chunks concatenate back to the list, and all but the last hold exactly `size` |
| `Dataset.Tagged` | pyfoal/data/dataset.py:70 | a bucket keeps its chunk's indices, tagged with the length of its last item |
| `Dataset.TaggedChunks` | pyfoal/data/dataset.py:67-70 | one bucket per chunk, holding that chunk |
| `Dataset.ChunkLastLongest` | pyfoal/data/dataset.py:64-70 | in a length-sorted order no item of a chunk is longer than its last |
| `Dataset.ChunkTagsGrow` | pyfoal/data/dataset.py:64-70 | the tags of neighbouring chunks never decrease |
| `Dataset.Buckets` | pyfoal/data/dataset.py:54-72 | BUCKETS of 0: ZeroDivisionError; a chunk size of 0: ValueError; otherwise the tagged chunks of the length order |
| `Dataset.BucketsLaws` | pyfoal/data/dataset.py:57-70 | the buckets concatenate to the argsort, a permutation of the items; all but the last hold exactly `size`; each tag bounds its bucket's lengths; tags never decrease |
| `Sampler.BatchSize` | pyfoal/data/sampler.py:70-74 | a positive size whose multiple of the tag fits `MAX_FRAMES` when 0 < tag ≤ `MAX_FRAMES`; ZeroDivisionError for a tag of 0; ValueError for a tag above `MAX_FRAMES` |
| `Sampler.ErrorPersists` | pyfoal/data/sampler.py:63-74 | once a bucket has failed, later buckets do not change the error |
| `Sampler.BucketBatchesCover` | pyfoal/data/sampler.py:62-74 | the batches of the first n buckets hold exactly those buckets' items |
| `Sampler.BatchesCover` | pyfoal/data/sampler.py:62-79 | every bucket item lands in exactly one batch of `batch()` |
| `Sampler.BucketBatchesOrigin` | pyfoal/data/sampler.py:66-74 | every batch before the final shuffle is a shuffled chunk of one bucket |
| `Sampler.ChunksFromBucket` | pyfoal/data/sampler.py:66-74 | the chunks of a shuffled bucket hold between 1 and `MAX_FRAMES // tag` of its items |
| `Sampler.BatchesOrigin` | pyfoal/data/sampler.py:62-79 | every batch returned came from one bucket and respects its batch size |
| `Sampler.WithinBudget` | pyfoal/data/sampler.py:70-74 | a batch of a bucket whose items are no longer than its tag totals at most `MAX_FRAMES` frames |
| `Sampler.BatchFits` | pyfoal/data/sampler.py:70-74 | a batch of a correctly tagged bucket indexes items and totals at most `MAX_FRAMES` frames |
| `Sampler.SampledDataset` | pyfoal/data/sampler.py:62-79 | over the dataset's buckets every item lands in exactly one batch and every batch stays within the budget |
| `Sampler.Sampler.constructor` | pyfoal/data/sampler.py:44-47 | epoch 0, length `len(dataset)` and the buckets the dataset computes from its length order; the sampler is valid |
| `Sampler.NewSampler` | pyfoal/data/sampler.py:44-47 | construction raises the ZeroDivisionError or ValueError of `dataset.buckets()`; otherwise a fresh valid sampler at epoch 0 with the dataset's length and exactly `Dataset.Buckets`' buckets |
| `Sampler.BucketItemCount` | pyfoal/data/sampler.py:46-47 | the dataset's buckets hold as many items as the dataset has |
| `Sampler.Sampler.Len` | pyfoal/data/sampler.py:52-53 | for a valid sampler, the dataset's item count, which is also the number of bucketed items (not the number of batches) |
| `Sampler.Sampler.SetEpoch` | pyfoal/data/sampler.py:81-82 | only the epoch changes |
| `Sampler.Sampler.Batch` | pyfoal/data/sampler.py:55-79 | the batches are a function of `RANDOM_SEED + epoch` and the buckets alone |
| `Sampler.Strided` | pyfoal/data/sampler.py:96 | `s[start:stop:step]`: element j sits at start + j·step, and the slice runs to the stop or the end |
| `Sampler.StridedShares` | pyfoal/data/sampler.py:96 | a position rank + j·num_replicas below the bound is element j of the rank's share |
| `Sampler.DistributedSampler.constructor` | pyfoal/data/sampler.py:85-92 | the corrected constructor: the dataset's buckets, length ⌈len(dataset) / num_replicas⌉, total size length × num_replicas ≥ len(dataset); the sampler is valid |
| `Sampler.NewDistributedSampler` | pyfoal/data/sampler.py:44-92 | construction raises the errors of `dataset.buckets()`; otherwise a fresh valid sampler for this rank with exactly `Dataset.Buckets`' buckets |
| `Sampler.DistributedSampler.Len` | pyfoal/data/sampler.py:52-91 | for a valid sampler, ⌈len(dataset) / num_replicas⌉: the least per-process count whose shares cover every bucketed item |
| `Sampler.DistributedSampler.SetEpoch` | pyfoal/data/sampler.py:81-82 | only the epoch changes |
| `Sampler.DistributedSampler.Iter` | pyfoal/data/sampler.py:94-96 | this rank's share: positions rank, rank + num_replicas, … below the total size of the epoch's batches |
| `Sampler.DistributedSamplerAsWritten` | pyfoal/data/sampler.py:87-88 | as written construction always raises TypeError |
| `Sampler.SamplerFor` | pyfoal/data/sampler.py:13-34 | train gives the distributed sampler when distributed, else the bucket sampler; valid the bucket sampler; test sequential batches; anything else ValueError |
| `Sampler.SequentialCovers` | pyfoal/data/sampler.py:27-31 | the test batches list every item once, in order |
| `Common.CeilDiv` | pyfoal/data/sampler.py:91 | the least r with r × b ≥ a |
| `Collate.Max` | pyfoal/data/collate.py:17-26 | the maximum is at least every length and equals one of them |
| `Collate.Zeros` | pyfoal/data/collate.py:33-42 | a fresh tensor of the given shape, zero everywhere |
| `Collate.FillLine` | pyfoal/data/collate.py:59-62 | row i starts with the values; every other cell is unchanged |
| `Collate.FillBlock` | pyfoal/data/collate.py:65-68 | the block is written to the top-left corner of slice i; every other cell is unchanged |
| `Collate.PlaceLine` | pyfoal/data/collate.py:59-62 | after item i, rows up to i hold their items followed by zeros |
| `Collate.PlacePrior` | pyfoal/data/collate.py:65 | after item i, prior slices up to i hold their priors on frames × phonemes and zeros elsewhere |
| `Collate.PlaceMask` | pyfoal/data/collate.py:68 | after item i, mask slices up to i are true exactly inside frames × phonemes |
| `Collate.Pad` | pyfoal/data/collate.py:33-68 | the four tensors have the batch's dimensions; phonemes and audio hold each item then zeros; priors hold each prior on its rectangle and zeros elsewhere; the mask is true exactly on each item's rectangle |
| `Collate.ShapedFits` | pyfoal/data/collate.py:29-65 | the prior slice assignment succeeds exactly when every item fits the tensors sized by the maxima |
| `Collate.Collate` | pyfoal/data/collate.py:11-79 | empty batch: ValueError; a prior of the wrong shape: RuntimeError; otherwise the padded tensors, the lengths and the per-item stems, alignments and text, in output order |
| `Collate.PlacedOutput` | pyfoal/data/collate.py:70-79 | the placed tensors and the copied fields make up the collated output |
| `Evaluate.Spoken` | pyfoal/evaluate/metrics.py:66-72 | only phonemes other than `<silent>` contribute durations |
| `Evaluate.SpokenAppend` | pyfoal/evaluate/metrics.py:66-72 | the filter distributes over concatenation |
| `Evaluate.SpokenAll` | pyfoal/evaluate/metrics.py:66-72 | without silences every duration is kept |
| `Evaluate.Subtract` | pyfoal/evaluate/metrics.py:77-105 | succeeds exactly on broadcastable lengths (else RuntimeError); equal lengths subtract elementwise |
| `Evaluate.Hits` | pyfoal/evaluate/metrics.py:76-77 | at most one hit per difference |
| `Evaluate.HitsMonotone` | pyfoal/evaluate/metrics.py:76-77 | a wider tolerance never counts fewer hits |
| `Evaluate.AbsSum` | pyfoal/evaluate/metrics.py:105 | the summed absolute differences are non-negative |
| `Evaluate.Zip` | pyfoal/evaluate/metrics.py:64-94 | pairs up to the shorter list |
| `Evaluate.ZeroTotals` | pyfoal/evaluate/metrics.py:82 | one zero total per level |
| `Evaluate.AddHits` | pyfoal/evaluate/metrics.py:75-77 | the level loop keeps the set of levels |
| `Evaluate.AddHitsEffect` | pyfoal/evaluate/metrics.py:75-77 | with distinct levels each level's total grows by its hits exactly once |
| `Evaluate.AccuracyPair` | pyfoal/evaluate/metrics.py:63-78 | one pair keeps the levels, and raises exactly when there are levels and the lengths do not broadcast |
| `Evaluate.AccuracyRun` | pyfoal/evaluate/metrics.py:63-78 | the pairs processed in order keep the levels |
| `Evaluate.PairKeeps` | pyfoal/evaluate/metrics.py:75-78 | a matched pair raises nothing and keeps each total times the scale below the count, and tighter levels' totals below looser ones' |
| `Evaluate.HitsKeep` | pyfoal/evaluate/metrics.py:75-78 | the level loop keeps both invariants |
| `Evaluate.HitsKeepBound` | pyfoal/evaluate/metrics.py:75-78 | the level loop keeps the totals bounded by the count |
| `Evaluate.HitsKeepOrder` | pyfoal/evaluate/metrics.py:75-77 | the level loop keeps tighter totals at most looser ones |
| `Evaluate.RunKeeps` | pyfoal/evaluate/metrics.py:58-78 | over matched pairs nothing raises and the invariants hold; as written, total × len(levels) ≤ count, so each reported accuracy is at most 1/len(levels) |
| `Evaluate.LevelsKeyed` | pyfoal/evaluate/metrics.py:54-82 | totals keyed by the levels have a total for each level |
| `Evaluate.TensorRunCounts` | pyfoal/evaluate/metrics.py:75-78 | a run that turns the totals into tensors has counted at least one predicted duration |
| `Evaluate.RunKeepsCount` | pyfoal/evaluate/metrics.py:75-78 | the corrected count never falls over a run |
| `Evaluate.EmptyDifferenceKeepsFloats` | pyfoal/evaluate/metrics.py:75-78 | one spoken predicted phoneme against no spoken target phoneme adds 1 to the count but leaves the totals floats |
| `Evaluate.AsWrittenUndercounts` | pyfoal/evaluate/metrics.py:75-78 | one exact prediction with the default levels gives count 4 as written and 1 when corrected, with total 1 either way |
| `Evaluate.OneExactPair` | pyfoal/evaluate/metrics.py:66-78 | one exact prediction counts 4 frames as written and 1 when corrected, and one hit at level 0.01 either way |
| `Evaluate.LevelLoop` | pyfoal/evaluate/metrics.py:75-77 | the per-level loop over one pair yields `AddHits`: each level, in order, gains its hits; the levels stay keyed |
| `Evaluate.Fractions` | pyfoal/evaluate/metrics.py:58-61 | one entry per total, each the fraction of the count (value × count = total), in [0, 1] when no total exceeds the count |
| `Evaluate.Accuracy.constructor` | pyfoal/evaluate/metrics.py:54-56 | the levels given, count 0, every total the float 0 |
| `Evaluate.Accuracy.Reset` | pyfoal/evaluate/metrics.py:80-82 | count 0 and every level's total the float 0 |
| `Evaluate.Accuracy.UpdatePair` | pyfoal/evaluate/metrics.py:66-78 | the counters become `AccuracyPair` of the old ones, corrected count; the totals become tensors exactly when the pair has levels and a non-empty difference (`PairTensor`) |
| `Evaluate.Accuracy.Update` | pyfoal/evaluate/metrics.py:63-78 | the counters become `AccuracyRun` of the old ones over the zipped pairs, corrected count; the totals are tensors afterwards exactly when they were or some processed pair made them so (`TensorRun`) |
| `Evaluate.Accuracy.Report` | pyfoal/evaluate/metrics.py:58-61 | no levels: the empty dictionary; float totals: ZeroDivisionError at count 0, AttributeError otherwise; tensor totals: one entry per level whose value times the count is the level's total; with the corrected invariant every accuracy lies in [0, 1] |
| `Evaluate.Divide` | pyfoal/evaluate/metrics.py:90-91 | a tensor total over a positive count is the number that times the count gives the total; over a zero count not-a-number for a zero total, else an infinity of the total's sign |
| `Evaluate.L1Step` | pyfoal/evaluate/metrics.py:96-106 | one pair raises exactly when the non-silent durations do not broadcast; otherwise it adds the absolute differences, never lowering the total, and the predicted count, makes the total a tensor and keeps the counters consistent |
| `Evaluate.L1RunGrows` | pyfoal/evaluate/metrics.py:93-106 | the total and the count never decrease; matched pairs raise nothing; a total that is non-negative, a tensor once something is counted and zero while nothing is stays so |
| `Evaluate.L1.constructor` | pyfoal/evaluate/metrics.py:87-88 | total the float 0 and count 0 |
| `Evaluate.L1.Reset` | pyfoal/evaluate/metrics.py:108-110 | total the float 0 and count 0 |
| `Evaluate.L1.Update` | pyfoal/evaluate/metrics.py:93-106 | the counters become `L1Run` of the old ones over the zipped pairs, the total a tensor once a pair is added, and the accumulator stays consistent |
| `Evaluate.L1.Report` | pyfoal/evaluate/metrics.py:90-91 | ZeroDivisionError exactly while no pair has been added; then the tensor quotient: a non-negative mean once a duration is counted, not-a-number while none is |
| `Evaluate.Loss.constructor` | pyfoal/evaluate/metrics.py:115-116 | total the float 0 and count 0 |
| `Evaluate.Loss.Reset` | pyfoal/evaluate/metrics.py:125-127 | total the float 0 and count 0 |
| `Evaluate.Loss.Update` | pyfoal/evaluate/metrics.py:121-123 | adds the loss to the total, which becomes a tensor, and the batch size to the count |
| `Evaluate.Loss.Report` | pyfoal/evaluate/metrics.py:118-119 | ZeroDivisionError exactly while no loss has been added; then the tensor quotient, the mean once a batch item is counted |
| `Evaluate.Metrics.constructor` | pyfoal/evaluate/metrics.py:13-16 | three fresh accumulators, all zero with float totals, accuracy at the default levels |
| `Evaluate.Metrics.Update` | pyfoal/evaluate/metrics.py:26-39 | the loss always updates; accuracy and L1 change only when both alignments and targets are given (accuracy's counters by `AccuracyRun`, its tensor flag by `TensorRun`), and L1 only if accuracy did not raise |
| `Evaluate.Metrics.Reset` | pyfoal/evaluate/metrics.py:41-44 | all three accumulators return to zero with float totals |
| `Evaluate.Metrics.Report` | pyfoal/evaluate/metrics.py:18-24 | raises exactly until a loss is added (ZeroDivisionError) or when accuracy has a positive count, levels and float totals (AttributeError); otherwise `loss` with the loss accumulator's value, `l1` exactly when its count > 0 with L1's finite mean, and the accuracy keys exactly when accuracy's count > 0, each with that level's accuracy |
| `Interpolate.Phonemes` | pyfoal/interpolate.py:11-16 | same symbols, each duration times the ratio gives the original; a zero ratio raises ZeroDivisionError exactly when there is a phoneme to scale, and an empty alignment comes back empty |
| `Interpolate.PhonemesTotal` | pyfoal/interpolate.py:14-15 | the total duration times the ratio is the original total |
| `Interpolate.Lookup` | pyfoal/interpolate.py:80-87 | true exactly for a non-empty cell; an unknown phoneme raises KeyError |
| `Interpolate.Flags` | pyfoal/interpolate.py:25-53 | one lookup per phoneme, in order; any unknown phoneme raises KeyError |
| `Interpolate.SumSplit` | pyfoal/interpolate.py:30-60 | the total is the flagged plus the unflagged duration |
| `Interpolate.StretchedSums` | pyfoal/interpolate.py:36-67 | the stretched flagged durations sum to the factor times the original flagged sum, and the unflagged sum is kept |
| `Interpolate.FactorScales` | pyfoal/interpolate.py:33-61 | the factor turns the flagged duration into the target minus the unflagged duration |
| `Interpolate.StretchTotal` | pyfoal/interpolate.py:28-39 | when the durations add up to the alignment's duration, the stretched ones add up to the target duration |
| `Interpolate.StretchDurations` | pyfoal/interpolate.py:36-67 | flagged durations times the factor, the others unchanged |
| `Interpolate.Stretch` | pyfoal/interpolate.py:19-72 | `voiced`/`vowels`: KeyError for an unknown phoneme; ZeroDivisionError exactly when the flagged duration is 0; else same symbols, unflagged kept, flagged scaled by one factor, and the total becomes ratio × duration |
| `Partition.SplitPoints` | pyfoal/partition/core.py:51-73 | ⌊0.9n⌋ ≤ ⌊0.95n⌋ ≤ n |
| `Partition.Shuffle` | pyfoal/partition/core.py:48-67 | a shuffle is a permutation of the list |
| `Partition.ArcticLaws` | pyfoal/partition/core.py:39-57 | train empty; test gets ⌊0.9n⌋ stems and valid the rest (test the larger from two stems on); both sorted; together exactly the stems; disjoint for distinct stems |
| `Partition.UniqueDisjoint` | pyfoal/partition/core.py:39-57 | two lists that share out a list of distinct stems have no stem in common |
| `Partition.UniqueOnce` | pyfoal/partition/core.py:66 | in a list without repeats each element occurs at most once |
| `Partition.SpeakerOf` | pyfoal/partition/core.py:82-84 | the speaker part is no longer than the stem |
| `Partition.SpeakerOfStem` | pyfoal/partition/core.py:70-84 | the speaker of `speaker/name` is `speaker` |
| `Partition.Filter` | pyfoal/partition/core.py:82-84 | the filter keeps at most the stems |
| `Partition.FilterMember` | pyfoal/partition/core.py:82-84 | a stem is kept exactly when it is a stem and its speaker is in the group |
| `Partition.FilterSorted` | pyfoal/partition/core.py:70-84 | filtering a sorted list keeps it sorted |
| `Partition.FilterCover` | pyfoal/partition/core.py:76-84 | three groups splitting the speakers share out the stems exactly |
| `Partition.ShuffleUnique` | pyfoal/partition/core.py:66-67 | shuffling keeps the speakers distinct |
| `Partition.SpeakerListed` | pyfoal/partition/core.py:66-67 | every listed speaker is among the shuffled ones |
| `Partition.SlicesSplit` | pyfoal/partition/core.py:73-78 | a speaker of a list without repeats lies in exactly one of the three slices |
| `Partition.LibrittsSplits` | pyfoal/partition/core.py:66-78 | the three slices of the shuffled speakers split the stems' speakers |
| `Partition.LibrittsLaws` | pyfoal/partition/core.py:60-84 | every stem lands in exactly one part; each part is sorted; a stem is in a part exactly when its speaker is in that part's slice |
| `Partition.PartitionDataset` | pyfoal/partition/core.py:17-25 | arctic and libritts give their partitions; any other name raises ValueError |
| `Partition.Datasets` | pyfoal/partition/core.py:12-31 | each known name is partitioned and saved in order; the first unknown one raises ValueError after the earlier ones are saved |
| `Download.TokenLength` | pyfoal/data/download/core.py:177 | the longest whitespace-free prefix |
| `Download.Words` | pyfoal/data/download/core.py:177 | `split()` gives non-empty whitespace-free words |
| `Download.WordsToken` | pyfoal/data/download/core.py:177 | a word followed by whitespace is split off whole |
| `Download.WordsJoin` | pyfoal/data/download/core.py:177 | splitting undoes joining non-empty words with single spaces |
| `Download.HeaderEnd` | pyfoal/data/download/core.py:176 | the first `#` line, or none when there is none (the ValueError of `index`) |
| `Download.Long` | pyfoal/data/download/core.py:177 | exactly the lines longer than four characters |
| `Download.Rows` | pyfoal/data/download/core.py:177 | each long line split on whitespace |
| `Download.Shortest` | pyfoal/data/download/core.py:180 | the fewest fields of any row, 0 for no rows |
| `Download.Lab` | pyfoal/data/download/core.py:175-180 | succeeds exactly when a `#` line exists and the kept rows all have at least three fields with the shortest having three; gives their first and third fields; else ValueError |
| `Download.MapToken` | pyfoal/data/download/core.py:183-190 | `pau` becomes `sp` (or `<unk>` if `sp` is unknown); other vocabulary symbols are kept; the rest become `<unk>` |
| `Download.MapTokenIdempotent` | pyfoal/data/download/core.py:183-190 | mapping twice maps nothing more |
| `Download.ParseTimes` | pyfoal/data/download/core.py:193 | succeeds exactly when every field parses (else ValueError), giving each parsed value |
| `Download.SetLast` | pyfoal/data/download/core.py:194 | the last end time becomes the audio duration and the others are kept; an empty list raises IndexError |
| `Download.CollapseStep` | pyfoal/data/download/core.py:197-203 | collapsing drops the first of two equal neighbours and keeps a first that differs |
| `Download.CollapseNoRepeats` | pyfoal/data/download/core.py:197-203 | after collapsing no two neighbours are equal |
| `Download.CollapseFrom` | pyfoal/data/download/core.py:197-203 | every phoneme left was in the input |
| `Download.RunEnds` | pyfoal/data/download/core.py:197-203 | one end time per collapsed phoneme, the last being the input's last |
| `Download.MergeNothing` | pyfoal/data/download/core.py:197-203 | a list without repeats is left unchanged |
| `Download.MergeFrom` | pyfoal/data/download/core.py:197-203 | the loop as written never shortens `endtimes` |
| `Download.MergeFromCollapse` | pyfoal/data/download/core.py:197-203 | as written the phonemes still collapse correctly |
| `Download.MergeDuplicatesAsWritten` | pyfoal/data/download/core.py:197-203 | as written the phonemes are collapsed but `endtimes` keeps its length |
| `Download.AsWrittenShiftsEndtimes` | pyfoal/data/download/core.py:201 | `[a, a, b]` ending at `[1, 2, 3]` leaves `[a, b]` paired with 2 and 2, where the blocks end at 2 and 3 |
| `Download.MergeDuplicates` | pyfoal/data/download/core.py:197-203 | the corrected loop: the phonemes become `Collapse` of the input (one per block of equal neighbours, no two neighbours equal) and the end times `RunEnds` (one per block, the last being the input's last) |
| `Download.AlignmentAsWritten` | pyfoal/data/download/core.py:207-212 | as written every phoneme runs from 0 to its end time |
| `Download.AsWrittenOverlaps` | pyfoal/data/download/core.py:212 | as written two phonemes overlap whenever the first ends after 0 |
| `Download.Alignment` | pyfoal/data/download/core.py:207-212 | the corrected loop: one segment per end time and phoneme, from 0, each starting where the previous ends |
| `Download.LabAlignment` | pyfoal/data/download/core.py:175-212 | a lab file gives ValueError exactly when it fails to parse; otherwise the collapsed mapped phonemes tile the audio from 0 to its duration, each a vocabulary symbol or `<unk>` |
| `Download.TimedAlignment` | pyfoal/data/download/core.py:193-212 | mapped phonemes and their end times give the collapsed phonemes tiling the audio |
| `Download.MergedLaws` | pyfoal/data/download/core.py:194-212 | a tiling of the collapsed phonemes ending at the last end time meets the lab laws |
| `Download.WithText` | pyfoal/data/download/core.py:151-160 | no more utterances than given, each with a sentence |
| `Download.WithTextMember` | pyfoal/data/download/core.py:151-160 | an utterance is kept exactly when it is one of the files and has a sentence |
| `Download.WithTextPrefix` | pyfoal/data/download/core.py:147-160 | filtering a prefix of the utterances gives a prefix of the filtered whole, so the loop meets the chosen ones in order |
| `Download.CopyUtterance` | pyfoal/data/download/core.py:151-212 | an utterance with text becomes example number `i` with its sentence and a converted lab file meeting the lab laws; a lab file that does not convert raises ValueError |
| `Download.NumberedAppend` | pyfoal/data/download/core.py:147-218 | writing the next chosen utterance with number `i` keeps the examples numbered 0, 1, 2, … |
| `Download.ArcticSpeaker` | pyfoal/data/download/core.py:147-218 | examples are written only for utterances with text, numbered consecutively from 0; a lab failure raises ValueError |
| `Download.ChosenStep` | pyfoal/data/download/core.py:151-160 | each utterance is either skipped or is the next one chosen |
| `Download.WithTextStep` | pyfoal/data/download/core.py:151-160 | one more utterance extends the chosen list by itself when it has a sentence and by nothing otherwise |
| `Download.FirstSeen` | pyfoal/data/download/core.py:277-278 | the speakers in order of first appearance, each once |
| `Download.Position` | pyfoal/data/download/core.py:278 | the first position of a speaker |
| `Download.FirstSeenAppend` | pyfoal/data/download/core.py:277-296 | one more utterance adds its speaker if new and raises only its count |
| `Download.CountStep` | pyfoal/data/download/core.py:276-296 | one utterance keeps `speaker_count` telling each speaker's first-seen index and utterance count |
| `Download.Visit` | pyfoal/data/download/core.py:276-296 | the stem of one utterance is (first-seen index, earlier utterances of the speaker), and the dictionary stays in step |
| `Download.LibrittsStems` | pyfoal/data/download/core.py:270-296 | utterance k gets the stem (first-seen index of its speaker, its count so far) |
| `Download.OccurrencesGrow` | pyfoal/data/download/core.py:296 | later utterances of a speaker have larger counts |
| `Download.StemsDistinct` | pyfoal/data/download/core.py:276-296 | no two utterances get the same stem |
| `Download.FirstUtterance` | pyfoal/data/download/core.py:277-279 | a speaker's first utterance is numbered by the speakers seen before and count 0 |
| `Download.FirstSeenPrefix` | pyfoal/data/download/core.py:277-278 | the speakers first seen in a prefix are a prefix of all first-seen speakers |
| `Download.DownloaderFor` | pyfoal/data/download/core.py:71-74 | arctic and libritts select their downloaders |
| `Download.Datasets` | pyfoal/data/download/core.py:68-77 | downloaders run in order; the first unknown name raises ValueError |
| `P2fa.ReplaceDoubleSpaces` | pyfoal/p2fa.py:109 | a pass never lengthens the text nor adds a character |
| `P2fa.ReplaceShrinks` | pyfoal/p2fa.py:108-109 | a pass shortens a text that still has a double space, so the loop ends |
| `P2fa.SqueezeReplace` | pyfoal/p2fa.py:108-109 | a pass does not change what the text squeezes to |
| `P2fa.SqueezeIdentity` | pyfoal/p2fa.py:108 | a text without double spaces is already squeezed |
| `P2fa.SqueezeNoDouble` | pyfoal/p2fa.py:108 | squeezing leaves no double space |
| `P2fa.CollapseWhitespace` | pyfoal/p2fa.py:106-109 | the loop ends with every run of spaces reduced to one, no double space, no line break and no tab |
| `P2fa.Translate` | pyfoal/p2fa.py:28-29 | no punctuation character and no hyphen remains |
| `P2fa.TranslateAppend` | pyfoal/p2fa.py:115 | translation works character by character, keeping order |
| `P2fa.TranslateClean` | pyfoal/p2fa.py:115 | text without punctuation or hyphens is kept |
| `P2fa.Lint` | pyfoal/p2fa.py:103-115 | whitespace collapsed, numbers normalised, punctuation removed: no punctuation character and no hyphen remains |
| `P2fa.PendingClose` | pyfoal/p2fa.py:123-125 | closing a non-empty word adds the separating `' '` |
| `P2fa.SplitStep` | pyfoal/p2fa.py:120-127 | one token keeps words non-empty with `' '` only first, and the tokens read so far are the closed words joined plus the open one |
| `P2fa.SplitPhonemes` | pyfoal/p2fa.py:117-133 | no word is empty and `' '` is only ever a word's first token; joining the words with `' '` gives the input back, up to a dropped trailing `' '` that closed a word |
| `P2fa.SplitLoneSpace` | pyfoal/p2fa.py:117-133 | a lone `' '` comes back as one word holding it, not as no words |
| `P2fa.WriteWords` | pyfoal/p2fa.py:168-184 | the two header lines, then `sp` before every upper-cased word, then a final `sp`: 2n+3 lines |
| `P2fa.Entries` | pyfoal/p2fa.py:156-157 | one `WORD  p1 p2 …` line per pair of the zip, stopping at the shorter list |
| `P2fa.DictionaryLines` | pyfoal/p2fa.py:157-164 | the entries plus `sp  sp`, sorted |
| `P2fa.WritePronunciation` | pyfoal/p2fa.py:150-166 | sorted lines that hold `sp  sp` plus one entry per upper-cased word zipped with a well-formed split of the phonemes |
| `P2fa.DictionaryDeterministic` | pyfoal/p2fa.py:163-164 | two sorted line lists holding the same lines are equal, so the written dictionary does not depend on the order of its entries |
| `P2fa.CorrectDurations` | pyfoal/p2fa.py:70-77 | empty: IndexError; else same count, each non-last duration (the first offset by 0.0125) times 11000/11025, and the last completes the sum to the audio duration |
| `P2fa.CorrectAlignment` | pyfoal/p2fa.py:64-82 | same symbols, corrected durations, total equal to the audio duration; no phonemes: IndexError |
| `BaselineP2fa.DefaultWorkers` | pyfoal/baselines/p2fa.py:71-72 | at least 1; 1 or at most half of both; one of the halves from two files and two CPUs on; no CPU count: TypeError |
| `BaselineP2fa.Spaced` | pyfoal/baselines/p2fa.py:118-121 | same length; no `<silent>` remains; a position holds `' '` exactly where the input held `<silent>` or `' '`; other tokens are kept |
| `BaselineP2fa.SilenceToSpace` | pyfoal/baselines/p2fa.py:118-121 | the in-place loop yields `Spaced` of its input: exactly the `<silent>` tokens become `' '`, nothing else changes |
| `BaselineP2fa.BaselineSplit` | pyfoal/baselines/p2fa.py:118-121 | the words are a split of the rewritten phonemes (they join back to them, up to a final word-closing `' '`), are well formed and hold no `<silent>` token |
| `BaselineP2fa.JoinedToken` | pyfoal/baselines/p2fa.py:195-211 | every token of a word is among the split input |
| `BaselineP2fa.StripDigits` | pyfoal/baselines/p2fa.py:168-169 | no digit remains, and only characters of the input |
| `BaselineP2fa.StripDigitsClean` | pyfoal/baselines/p2fa.py:168-169 | text without digits is kept |
| `BaselineP2fa.StripDigitsIdempotent` | pyfoal/baselines/p2fa.py:168-169 | stripping twice strips nothing more |
| `BaselineP2fa.SilenceKept` | pyfoal/baselines/p2fa.py:165-169 | the silence token survives stripping |
| `BaselineP2fa.PauseIsSilence` | pyfoal/baselines/p2fa.py:164-169 | an `sp` phoneme comes out as silence |
| `BaselineP2fa.Rename` | pyfoal/baselines/p2fa.py:160-169 | `sp` words become silence; each phoneme is renamed then stripped of digits, its duration kept; no digit remains |
| `BaselineP2fa.CorrectAlignment` | pyfoal/baselines/p2fa.py:140-171 | no phonemes: IndexError; else words renamed, phonemes renamed and stripped position by position, durations corrected as in the aligner, summing to the audio duration |

## Left out

- The baseline's `split_phonemes`, `write_words`, dictionary writing and duration arithmetic (pyfoal/baselines/p2fa.py:146-157, 195-259) are the aligner's line for line, so module BaselineP2fa reuses P2fa.SplitPhonemes, P2fa.WriteWords, P2fa.DictionaryLines and P2fa.CorrectDurations rather than modelling them twice.
- `log_softmax` on the logits (pyfoal/viterbi.py:14): decode takes its result as the observation. The decoder writes its mask into its own fresh copy.
- The softmax boundary interpolation (pyfoal/viterbi.py:83-94): its floats add nothing to the alignment logic.
- IEEE floating point throughout: scores are extended reals and durations are reals, so rounding, NaN and the `counts.to(torch.float)` cast are not modelled. The one place a NaN or an infinity is a result, a metric's tensor total divided by a zero count, is modelled by `Evaluate.Mean`.
- Viterbi.TransitionMatrix: the logarithm is an uninterpreted parameter, so only "finite exactly at the allowed edges" is proved. The values log(1/k) appear in its definition but are not bounded further.
- `int(.9 * n)` and `int(.95 * n)` are modelled as exact ⌊9n/10⌋ and ⌊95n/100⌋, not float products.
- File and process I/O:
  - audio and text reads and writes;
  - `pypar` alignment loading and saving (alignments are lists of (symbol, duration) or (symbol, start, end));
  - HTK and `HVite` subprocesses;
  - downloads, tar extraction, temporary directories;
  - multiprocessing pools and `DataLoader`.
- The source writes the arctic text and audio before a lab file can fail. The model returns the error without those writes.
- The regex sentence parse of the arctic text (pyfoal/data/download/core.py:123-127): the sentences are given as a map.
- The arctic speaker directories (`enumerate` of `ARCTIC_SPEAKERS`): the copy loop is modelled for one speaker.
- The word/phoneme nesting of `pypar` alignments and word times: `BaselineP2fa.CorrectAlignment` renames the word strings and phonemes but does not recompute word boundaries.
- G2P (`g2p_en`, `pyfoal.g2p.from_text`) and `normalize_numbers` are outside the core. `normalize_numbers` is a parameter of `P2fa.Lint`; the G2P output is a parameter of `P2fa.WritePronunciation`.
- P2fa.Lint: `normalize_numbers` and the translation can bring back double spaces. The contract therefore promises no double space only for `CollapseWhitespace`.
- `P2fa.Upper` and `BaselineP2fa.IsDigit` cover ASCII only. Unicode upper-casing and Unicode digits are not modelled.
- `Download.Words` counts only ASCII whitespace. Unicode whitespace in `str.split` is not modelled.
- BaselineP2fa.PhonemeSymbol: a phoneme such as `sp1` strips to `sp` and is not renamed to silence, because renaming happens before stripping, as in the source.
- `samples_to_frames`, `samples_to_seconds` and the training loss are parameters. `Collate.Collate` takes an arbitrary `samples_to_frames`.
- torch broadcasting in `collate`: a prior of the wrong shape is modelled as one RuntimeError. Broadcasting a smaller prior into the slot is not modelled.
- Evaluate.Subtract: broadcasting beyond 1-D tensors is not modelled.
- The memoised `map` attributes of `phoneme_to_index` and `index_to_phoneme` are not modelled: the vocabulary is a parameter read afresh.
- The libritts speaker list comes from `list(set(...))`, whose order depends on hashing, so it is a parameter. Stem parsing (`int(part)` of the file name) and the `{index:04d}/{count:06d}` formatting are left out: utterances are given by their speaker numbers and stems are number pairs.
- `random.seed` and `torch.Generator` are not modelled: each shuffle is a permutation given as a function of the seed and the length. Determinism is stated as the result being a function of those inputs.
- Sampler.DistributedSampler.constructor: `torch.distributed.get_rank` and `get_world_size` are parameters.
- Dataset.Buckets: numpy's `argsort` tie order is unspecified, so the order is any permutation that sorts by length.

## Findings

| source | as written | input that shows it | evidently intended | confidence | as-written member | corrected member |
|---|---|---|---|---|---|---|
| pyfoal/convert.py:46-49 | `phonemes.append(pypar.Phoneme(index_to_phoneme(index)), start, start + duration)`: the closing parenthesis passes three arguments to `append` and one to `Phoneme` | indices `[0, 0]` over vocabulary `["a"]` raise TypeError | append `Phoneme(symbol, start, start + duration)` | not executed | `Convert.IndicesToAlignmentAsWritten`, `Convert.AsWrittenRejectsValidFrames` | `Convert.IndicesToAlignment` |
| pyfoal/data/sampler.py:88 | `super().__init__()` omits the dataset | any distributed construction raises TypeError | `super().__init__(dataset)` | not executed | `Sampler.DistributedSamplerAsWritten` | `Sampler.DistributedSampler.constructor` |
| pyfoal/data/download/core.py:201 | `del phonemes[j]` deletes from the phonemes only, so later end times pair with the wrong phonemes | `[a, a, b]` ending at `[1, 2, 3]` gives `[a, b]` paired with `[2, 2]` | delete `endtimes[j + 1]` too, pairing `[a, b]` with `[2, 3]` | not executed | `Download.MergeDuplicatesAsWritten`, `Download.AsWrittenShiftsEndtimes` | `Download.MergeDuplicates` |
| pyfoal/data/download/core.py:212 | `end = start` never advances `start`, so every phoneme starts at 0 | end times `[1, 2]` give segments `[0, 1]` and `[0, 2]`, which overlap | `start = end` | not executed | `Download.AlignmentAsWritten`, `Download.AsWrittenOverlaps` | `Download.Alignment` |
| pyfoal/evaluate/metrics.py:78 | `self.count += predicted_durations.numel()` sits inside the level loop, adding n once per level | one exact prediction with the four default levels gives count 4, so accuracy 0.25 | add n once per pair, giving accuracy 1.0 | not executed | `Evaluate.AsWrittenUndercounts` | `Evaluate.Accuracy.Update` |
