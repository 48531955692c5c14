# Imprinted fine-tuning of the RFB detector: a Dafny model

`train_RFB_imprinted.py` trains the Context-Transformer RFB detector for
few-shot detection. Around the tensor work it contains some small pieces of
pure, sequential logic, and this project models them and proves properties
about them:

- **Resuming from a checkpoint.** When resuming, every checkpoint key that
  begins with `module.` (the key prefix a `DataParallel` wrapper writes) loses
  that prefix once. Every other key is kept. The entries are copied into a
  fresh `OrderedDict`. Modelled in `checkpoint.dfy`, on top of the string
  helpers in `strings.dfy`.
- **Parameter-name dispatch of `weights_init`.** The last dotted component
  and the `conv` / `bn` substrings of a parameter name decide whether it gets
  kaiming initialisation, is filled with ones, is filled with zeros, or is left
  alone. The script also sets batch-norm weights to one before imprinting.
  Modelled in `weights_init.dfy`.
- **The cascade of denselayers at shape level.** `composite` concatenates
  its inputs, then applies batch norm, the shared norm layer and, optionally,
  the previous stage's fc layer. As a result the three imprinting stages see
  rows 60, 80 and 100 wide. Modelled in `cascade.dfy`.
- **Per-class buckets.** In each stage, every support episode appends the
  embedding rows of class `c` to bucket `c - 1` of `n_way = 20` buckets.
  Modelled in `buckets.dfy`.
- **Imprinting.** Each bucket is averaged, the mean is divided by its norm,
  and the rows are stacked into the `[20, width]` fc weight of the stage.
  Modelled in `prototype.dfy`.
- **The fine-tuning loop's epoch bookkeeping.** This covers the epoch
  counter, the `first_or_not` flag, the loss accumulators and the checkpoint
  saves. Modelled in `schedule.dfy` as an imperative loop. It is proved equal
  to a reference run, built boundary by boundary.

`outcomes.dfy` holds the `Option` / `Result` types that the error paths use.

Things handled as inputs rather than modelled:

- Tensors, the norm function and per-iteration losses are parameters.
  Feature rows are `seq<real>`, checkpoint values are an opaque type
  parameter, and `torch.norm` is an abstract `Row -> real`.
- The unit-length result is proved for any such function that behaves as the
  Euclidean norm (`Prototype.IsL2Norm`).
- Prior matching (`match`, in utils/box_utils.py, which is not part of this
  model) is represented only by its per-prior results `(conf_t, obj_t)`.
- The losses of each iteration come from a function of the iteration number.

## Model

| member | source | states |
|---|---|---|
| Strings.ContainsIffOccurs | train_RFB_imprinted.py:110-112 | Python's `sub in s` (as used by `'conv' in key`) holds exactly when `sub` occurs at some position of `s` |
| Strings.Split | train_RFB_imprinted.py:109 | `key.split('.')` yields at least one piece, and no piece contains the separator |
| Strings.JoinSplit | train_RFB_imprinted.py:109 | joining the pieces of `split` with the separator gives back the original string |
| Strings.LastPiece | train_RFB_imprinted.py:109 | `key.split('.')[-1]` is a suffix of the key, free of dots, and maximal: it is the whole key or a dot precedes it |
| Checkpoint.Put | train_RFB_imprinted.py:142 | `new_state_dict[name] = v` keeps names unique, makes `name` map to `v`, leaves every other name's value alone, keeps an existing name in place and appends a new one at the end |
| Checkpoint.StripKey | train_RFB_imprinted.py:137-141 | the name a key loads under is a suffix of the key, either the whole key or the key less seven characters |
| Checkpoint.StripKeyMeaning | train_RFB_imprinted.py:137-141 | a key that starts with `module.` is that prefix followed by its loaded name; any other key loads under its own name |
| Checkpoint.StripAddedPrefix | train_RFB_imprinted.py:137-141 | the prefix is removed exactly once: `module.x` loads as `x`, `module.module.x` loads as `module.x` |
| Checkpoint.StripKeepsOthers | train_RFB_imprinted.py:137-141 | a key shorter than 7 characters, or whose first 7 characters are not `module.`, is unchanged |
| Checkpoint.RenameKeys | train_RFB_imprinted.py:135-142 | the renamed ordered dictionary never holds a name twice |
| Checkpoint.LastValueSome | train_RFB_imprinted.py:136-142 | the reference lookup (the last entry whose key strips to a name) finds a value exactly when some checkpoint key strips to that name |
| Checkpoint.RenameKeysContents | train_RFB_imprinted.py:135-142 | the renamed dictionary holds exactly the stripped names of the checkpoint, and each holds the value of the last entry that produced it |
| Checkpoint.RenameKeysNoCollisions | train_RFB_imprinted.py:135-142 | when no two keys strip to the same name, every entry is carried over in order, with its value, under its stripped name |
| Checkpoint.RoundTrip | train_RFB_imprinted.py:135-143 | a state dictionary saved through the data-parallel wrapper (every key prefixed) loads back to the same names, order and values |
| Checkpoint.UnprefixedUnchanged | train_RFB_imprinted.py:135-142 | a checkpoint whose keys carry no prefix loads unchanged |
| WeightsInit.Dispatch | train_RFB_imprinted.py:107-115 | kaiming init happens exactly for `.weight` names containing `conv`, and first. Filling with one happens exactly for `.weight` names containing `bn`, and last. Filling with zero happens exactly for `.bias` names, and alone. Any other name gets no action. No action is applied twice |
| WeightsInit.InitAll | train_RFB_imprinted.py:107-108 | `weights_init` takes each state-dictionary name in order and applies that name's dispatch |
| WeightsInit.ConvWeightIsKaiming | train_RFB_imprinted.py:109-111 | a `.weight` name with `conv` at any position is kaiming-initialised first |
| WeightsInit.LastComponentOfDotted | train_RFB_imprinted.py:109 | the dispatch looks only at the text after the last dot: `a.b.weight` dispatches on `weight` |
| WeightsInit.ForcedToOne | train_RFB_imprinted.py:213-216 | the batch-norm entries set to one are exactly those whose name contains `weight` |
| Cascade.Concat | train_RFB_imprinted.py:182 | `torch.cat(inputs, 1)` is defined exactly for a non-empty list of equal row counts, and then its width is the sum of the input widths |
| Cascade.Composite | train_RFB_imprinted.py:180-189 | `composite` keeps the row count. Without fc the width is the concatenated width, with fc it is the fc's row count. It fails exactly when the concatenation is undefined, has a single row (training-mode batch norm raises on one value per channel), or does not fit the batch norm or the fc |
| Cascade.StageEmbedding | train_RFB_imprinted.py:264-284 | a stage's embedding, when defined, has one row per selected feature and the width of the batch norm of the stage's last layer |
| Cascade.SetFcWeight | train_RFB_imprinted.py:286-291 | storing a stage's fc weight sets that layer's fc weight, keeps its batch norm and leaves the other layers untouched |
| Cascade.StageWidth | train_RFB_imprinted.py:264-284 | stage `k` sees `feature_dim + n_way * (k - 1)` columns |
| Cascade.ViewWidthsAreStageWidths | train_RFB_imprinted.py:264-284 | the literal widths 60, 80, 100 of the `view(-1, w)` calls are the cascade's stage widths |
| Cascade.StageEmbeddingShape | train_RFB_imprinted.py:264-284 | on a network prepared by the earlier stages, a stage's embedding is defined exactly for 60-wide feature rows when their number is not one, and is then one row per feature of the stage's width |
| Buckets.FlattenAligned | train_RFB_imprinted.py:244-263 | tensors indexed `[num, num_priors]` flatten to sequences of equal length, so one position names the same prior in `conf_t`, `obj_t` and `conf_data` |
| Buckets.MatchedIndices | train_RFB_imprinted.py:262-263 | the positions a boolean mask `obj_t` selects are strictly increasing, each names a matched prior, and every matched prior is among them |
| Buckets.Select | train_RFB_imprinted.py:262-263 | `xs[obj_t]` has one entry per matched prior: its `k`-th entry is the entry of `xs` at the `k`-th matched position |
| Buckets.Positives | train_RFB_imprinted.py:262 | `conf_t[obj_t]` has one class id per matched prior, in prior order: entry `k` is the id of the `k`-th matched prior. So an id occurs exactly when some prior is matched with it |
| Buckets.EpisodeRows | train_RFB_imprinted.py:261-284 | the episode yields one tagged row per matched prior. Row `k` carries the class id of the `k`-th matched prior, and it is row `k` of the cascade applied to the feature rows of exactly the matched priors, in the same order. The ids and the rows come from the same mask |
| Buckets.EmptyBuckets | train_RFB_imprinted.py:226-228 | a stage starts with `n` buckets, all empty |
| Buckets.StageBuckets | train_RFB_imprinted.py:218-230 | a stage ends with exactly `n_way` buckets, whatever the episodes hold |
| Buckets.RowsOfConcat | train_RFB_imprinted.py:267 | selecting a class from two concatenated lists keeps the rows of the first ahead of the second |
| Buckets.RowsOfMembers | train_RFB_imprinted.py:267 | a row is selected for class `c` exactly when some entry carries it with tag `c` |
| Buckets.AddEpisode | train_RFB_imprinted.py:267 | one episode keeps every bucket's rows in front, and every row bucket `i` gains was tagged `i + 1` in the episode |
| Buckets.Accumulate | train_RFB_imprinted.py:230-284 | over a stage's episodes, no bucket loses a row and every row bucket `i` gains was tagged `i + 1` in some episode |
| Buckets.AccumulateContents | train_RFB_imprinted.py:230-284 | bucket `i` grows, episode after episode, by the rows tagged `i + 1` |
| Buckets.BucketHoldsClass | train_RFB_imprinted.py:262-284 | after a stage, bucket `i` holds exactly the rows tagged `i + 1`, in episode order and selection order |
| Buckets.OutOfRangeIgnored | train_RFB_imprinted.py:267 | rows tagged 0 or above `n_way` reach no bucket: dropping them changes no bucket |
| Buckets.TotalRows | train_RFB_imprinted.py:262-284 | the buckets together hold as many rows as the stage selected with an id in `1..n_way` |
| Buckets.BucketRowWidths | train_RFB_imprinted.py:267 | buckets filled from rows of the stage's width hold only rows of that width |
| Prototype.Mean | train_RFB_imprinted.py:285 | `item.mean(0)` of a non-empty bucket: as many copies of the mean as there are rows add up to the rows' sum |
| Prototype.Normalize | train_RFB_imprinted.py:287 | `item / n` for non-zero `n`: multiplying back by `n` recovers `item` |
| Prototype.UnitLength | train_RFB_imprinted.py:287 | dividing a vector by its Euclidean norm gives a vector whose squares sum to one |
| Prototype.Imprint | train_RFB_imprinted.py:285-291 | the stacked matrix exists exactly when every bucket is non-empty with a non-zero mean norm. Its row `i` is then bucket `i`'s mean divided by that mean's norm. Otherwise the error names the first bad bucket and says whether it was empty |
| Prototype.ImprintedRowsAreUnit | train_RFB_imprinted.py:285-291 | under a Euclidean norm, every row of the imprinted matrix has unit length |
| Prototype.MeanOfCopies | train_RFB_imprinted.py:285 | a bucket of copies of one vector has that vector as its mean |
| Prototype.CopiesOfUnitVector | train_RFB_imprinted.py:285-287 | a bucket of copies of a unit vector imprints that very vector (`[1, 0]` repeated gives the row `[1, 0]`) |
| Prototype.StageWeights | train_RFB_imprinted.py:218-291 | a stage's imprinted matrix has `n_way` rows of the stage's width |
| Prototype.ImprintFeedsNextStage | train_RFB_imprinted.py:286-291 | storing a stage's imprinted matrix as its fc weight prepares the network for the next stage's cascade |
| Schedule.BoundaryTest | train_RFB_imprinted.py:322-323 | between two consecutive boundaries, only the later one satisfies `iteration % epoch_size == 0` |
| Schedule.CloseEpoch | train_RFB_imprinted.py:327-333 | at a boundary other than the first, the finished epoch is reported with its accumulated losses and saved when even; the first boundary emits nothing |
| Schedule.Iterate | train_RFB_imprinted.py:322-385 | one pass of the loop body keeps the loop state. Afterwards `first_or_not` is cleared, the counter has advanced exactly when the iteration is a boundary, and only a boundary appends reports or saves (at most two) |
| Schedule.FineTune | train_RFB_imprinted.py:301-387 | the epoch counter advances once per boundary and ends at `max_epoch` for `0 <= resume_epoch <= max_epoch` and a positive epoch size. The emitted reports and saves are exactly those of the reference run, ending in one final save |
| Schedule.CheckpointPolicy | train_RFB_imprinted.py:317-336 | before the final save there is no final save. Saves are of even epochs. Every report and save concerns an epoch after the resumed one and before the last |
| Schedule.ReportsCoverOneEpoch | train_RFB_imprinted.py:327-368 | each epoch report carries the losses of exactly the iterations of that epoch, since the accumulators were reset at the previous boundary |

## Left out

- Loading and saving files (`torch.load`, `torch.save`), argument parsing,
  printing and the `Logger`: I/O. A save is an event carrying the epoch; a
  report carries the accumulated sums.
- The printed report divides the sums by `epoch_size` in floating point, and
  that division is not modelled.
- `net.load_state_dict(..., strict=False)`: its matching of names to modules
  belongs to code that is not part of this model.
- Forward passes, batch norm, the norm layer, kaiming/xavier numerics and
  `torch.norm`: tensor numerics. The cascade is modelled at shape level and
  the norm is an abstract function.
- Prior matching (`match`), `PriorBox`, `EpisodicBatchSampler`, `DataLoader`
  and the loss criterion live in files that are not part of this model. They
  appear only through their results: matched `(conf_t, obj_t)` per prior,
  the feature row `conf_data` holds for each prior, losses per iteration.
- The cascade's numerics on the selected feature matrix: in `EpisodeRows` it
  is a function parameter that keeps one output row per input row. Batch norm
  runs in training mode (line 192), so an output row may depend on the whole
  matrix, and the model does not assume a row-by-row map. The one failure of
  that mode that depends on shape, a single selected row, is modelled in
  `Cascade.Composite`.
- The optimiser, `MultiStepLR`, `loss.backward`, `net.normalize()`,
  `DataParallel` and CUDA transfers: library internals and devices.
- The progress log every 10 iterations (lines 370-383): output only. The
  timers it reads are left out with it.
- `nn.Module.apply`, which visits each submodule: `InitAll` models
  `weights_init` on one module's list of names.
- `adjust_learning_rate`, `vis_picture` and `vis_picture_1`: never part of
  the training path, or plotting only.
- Prototype.Imprint: a bucket whose mean has zero norm is reported as an
  error. The script instead divides by zero and stores a NaN row. An empty
  bucket is an error here too. In the script every episode extends every
  bucket, and `torch.cat` skips the initial 1-D `torch.empty(0)`. So after at
  least one episode, a bucket that never received a row has shape
  `[0, width]`. Its `mean(0)` is a row of NaN, normalising keeps it NaN, and
  `torch.stack` succeeds and stores that NaN row. With zero support episodes
  (line 39 accepts 0) every bucket stays the 1-D `torch.empty(0)`. Each mean
  is then a 0-dimensional NaN, and the stored weight is a 1-D NaN tensor of
  `n_way` entries rather than a `[n_way, width]` matrix. The model stops at the first bad bucket in both cases.
- The list comprehensions at lines 267, 274 and 284 are read with Python 3
  scoping: their loop variable `i` does not rebind the stage index `i` read at
  lines 264, 268 and 286. Under Python 2 the stage index would be left at 19
  after the first episode, and the model does not cover that.
- Schedule.FineTune: the epoch size is a natural number. A negative
  `train_episodes` is not modelled.
- Checkpoint.RenameKeys: when two checkpoint keys strip to the same name, the
  model states which value wins. The position the name takes (that of its
  first occurrence) is stated only through `Put`.
- WeightsInit.ForcedToOne: the selection is stated by membership, not by
  order.
