# SHREC / DHG hand-gesture data pipeline, modelled in Dafny

This project models the data side of a leave-one-subject-out evaluation of
hand-gesture recognisers on the DHG-14/28 dataset. A trial is one row of
integers in a data list:

- columns 0-3 are gesture, finger, subject and essai (the trial number);
- columns 4 and 5 are the 14-class and 28-class labels, counted from 1;
- column 6 is the number of frames.

The model covers three parts of that pipeline.

- **Frame loading** (`utils/load_utils.py`). It chooses which frame indices
  to sample, normalises a depth image to 0..255, reads skeleton joints and
  re-centres them on the palm of the first frame, and loads a resized,
  preprocessed image per sampled frame.
- **The dataset** (`utils/load_data.py`). The dataset wraps the data list.
  It loads a trial, builds an item with its label and zero padding to `T`
  frames, and can serve the trial data from an in-memory cache built in
  advance.
- **The evaluation driver** (`eval_DHG.py`). It tags every row with its
  position in the data list. It selects the rows of a held-out subject and
  loops over the distinct subjects. It then stacks the predictions and
  labels of all folds into a two-column table.

Modules:

| file | module | contents |
|---|---|---|
| `Support.dfy` | `Support` | the exceptions as `Error`, `Result`/`Option`, Python subscripts (`PyIndex`), a loop that stops at the first failure (`Collect`) |
| `Text.dfy` | `Text` | `str()` of an integer and its parser, POSIX `os.path.join` |
| `LoadUtils.dfy` | `LoadUtils` | `normalize`, `get_samples`, `load_joints`, `load_image_sequence` |
| `LoadData.dfy` | `LoadData` | the dataset record and its constructor, `__len__`, `get_image_joint`, `__getitem__`, `init_cache` |
| `EvalDHG.dfy` | `EvalDHG` | row tagging, the held-out filter, `np.unique` of the subjects, the fold loop and the final table |

The loops of the source are Dafny methods, each proved equal to a function
that specifies it:

- `LoadImageSequence`, through the generic `FillSlots`, is proved equal to
  `ImageSequence` (the frame loop of `load_image_sequence`);
- `InitCache`, through `AppendAll`, is proved equal to `BuildCache` (the
  loop over `pool.imap`);
- `CrossValidate` is proved equal to `CrossValidation` (the caching step,
  through `AppendAll`, and the loop over the subjects in `main`).

`get_image_joint` has no loop of its own. It is the function `ImageJoint`.
The method `GetImageJoint` exists only because it calls the method
`LoadImageSequence`, which a function cannot do; its contract says it
computes `ImageJoint`.

The properties are lemmas about those functions.

The file system is a value of type `LoadUtils.FileSystem`. It has two
parts:

- a partial map from a path to the parsed numeric table;
- a partial map from a path and a target size to the already resized
  image.

Grayscale variation, augmentation and the trained model's evaluation
(`evaluate_stats` with `training_pipeline`) are function-valued parameters.

Where a docstring and the code disagree, the model follows the code.

- **Sequence lengths.** The `load_joints` docstring promises shape
  `(T, 22 * D)` (`utils/load_utils.py:47`), and the `load_image_sequence`
  docstring promises `(T, 1, H, W)` (`utils/load_utils.py:71`). Both
  functions return one row or frame per sampled index, so they return
  `min(T, N)` of them (`LoadJoints`, `ImageSequence`). Only `__getitem__`
  pads to `T` (`GetItemPadding`).

Three further choices follow the code.

- **A constant image.** For a constant image the denominator of `normalize`
  is 1 (`utils/load_utils.py:17`), so every pixel becomes 0
  (`NormalizeConstant`), which is within the documented 0 to 255.
- **Padding.** Padding counts the joint rows and pads the images by the
  same amount (`utils/load_data.py:85-89`); `PadImages` does the same.
- **The import.** The driver imports `get_loader` and `init_cache` from
  `utils.load_DHG` (`eval_DHG.py:5`). The model takes them from
  `utils/load_data.py`, the module that defines them.

## Model

| member | source | states |
|---|---|---|
| `Support.PyIndex` | utils/load_data.py:72 | a list subscript succeeds iff `-n <= i < n`; the resolved position is below `n` and congruent to `i` modulo `n` |
| `Support.Collect` | utils/load_utils.py:78-90 | a loop over steps succeeds iff every step succeeds, and then yields every step's value in order |
| `Support.CollectFirstError` | utils/load_utils.py:78-90 | when step `i` is the first to fail, the loop fails with that step's error |
| `Text.IntToString` | utils/load_data.py:39 | `str()` of an integer: non-empty, a leading minus sign exactly for a negative value, digits everywhere else |
| `Text.NatToStringNoLeadingZero` | utils/load_data.py:39 | the decimal digits of a natural number start with `0` only for 0 |
| `Text.IntToStringCanonical` | utils/load_data.py:39 | `str()` has no leading zero: the first character is `0` only for 0, and no `0` follows the minus sign |
| `Text.ParseIntToString` | utils/load_utils.py:79 | the decimal rendering of any integer reads back to the same integer |
| `Text.IntToStringInjective` | utils/load_utils.py:79 | distinct frame indices render to distinct strings |
| `Text.Join` | utils/load_utils.py:79 | an absolute component replaces the directory; otherwise a `/` is inserted exactly when the directory is non-empty and does not already end in one |
| `Text.JoinEnds` | utils/load_utils.py:79 | `os.path.join(a, b)` ends with `b`; when `b` is relative it starts with `a` |
| `Text.JoinAfterSlash` | utils/load_data.py:42-48 | joining a relative name onto a directory ending in `/` is plain concatenation |
| `LoadUtils.GridMin` | utils/load_utils.py:16 | `image.min()`: below or equal to every pixel, and attained by one |
| `LoadUtils.GridMax` | utils/load_utils.py:16 | `image.max()`: above or equal to every pixel, and attained by one |
| `LoadUtils.Rescale` | utils/load_utils.py:17-18 | one rescaled pixel lies in 0..255 |
| `LoadUtils.Normalize` | utils/load_utils.py:7-18 | normalising keeps the image's shape and puts every pixel in 0..255 |
| `LoadUtils.NormalizeConstant` | utils/load_utils.py:16-18 | a constant image (denominator 1) normalises to all zeros |
| `LoadUtils.NormalizeExtremes` | utils/load_utils.py:16-18 | for a non-constant image the darkest pixels map to 0 and the brightest to 255, and both values occur |
| `LoadUtils.NormalizeMonotone` | utils/load_utils.py:16-18 | normalising keeps the order of any two pixels (non-strictly) |
| `LoadUtils.TruncDiv` | utils/load_utils.py:35 | division followed by the `int32` cast; its rounding is stated by `TruncDivBounds`, `TruncDivMonotone` and `TruncDivExact` |
| `LoadUtils.TruncDivBounds` | utils/load_utils.py:35 | the `int32` cast truncates toward zero: down for a non-negative value, up for a negative one, by less than one unit |
| `LoadUtils.TruncDivMonotone` | utils/load_utils.py:35 | truncation keeps the order of the values it truncates |
| `LoadUtils.TruncDivExact` | utils/load_utils.py:35 | a whole number is unchanged by truncation |
| `LoadUtils.GetSamples` | utils/load_utils.py:21-35 | never more than `T` indices, and `min(T, N)` of them for a non-empty range of `N = end - start + 1` frames |
| `LoadUtils.SamplesShortRange` | utils/load_utils.py:33-34 | when `N < T` the samples are exactly `start, start+1, ..., end` |
| `LoadUtils.SamplesEndpoints` | utils/load_utils.py:34 | `linspace` sampling starts at `start` and ends at `end` (at `start` when `T == 1`) |
| `LoadUtils.SamplesInRange` | utils/load_utils.py:34-35 | every sample lies in `[start, end]` |
| `LoadUtils.SamplesStrictlyIncreasing` | utils/load_utils.py:34-35 | for a non-negative start the samples strictly increase, so no frame is taken twice |
| `LoadUtils.Recentre` | utils/load_utils.py:50-56 | selection and recentring succeed iff every index is a valid subscript and the width reshapes to 22 joints; the result has one row per index and the table's width |
| `LoadUtils.RecentreRows` | utils/load_utils.py:50-56 | each output entry is the selected row's entry minus the palm joint's coordinate of the first selected row |
| `LoadUtils.RecentrePalmIsOrigin` | utils/load_utils.py:52-56 | the palm joint of the first selected frame becomes the origin |
| `LoadUtils.RecentrePreservesOffsets` | utils/load_utils.py:55-56 | recentring keeps every difference between two entries of the same coordinate axis |
| `LoadUtils.LoadJoints` | utils/load_utils.py:38-58 | a missing file raises, a ragged table is a parse error, and a loaded sequence has one row per sampled index |
| `LoadUtils.FrameFileName` | utils/load_utils.py:76-79 | a frame's file name is a single `.png` path component with no separator |
| `LoadUtils.FramePath` | utils/load_utils.py:79 | a frame's path starts with the trial directory and ends with the frame's file name |
| `LoadUtils.FrameFileNameInjective` | utils/load_utils.py:76-79 | distinct frame indices name distinct image files, in either naming mode |
| `LoadUtils.Process` | utils/load_utils.py:84-88 | without `gvar` the image is normalised, which fails only on an empty image |
| `LoadUtils.ToUint8` | utils/load_utils.py:90 | storing into the `uint8` block keeps the shape and reduces each value modulo 256 |
| `LoadUtils.ToUint8OfBytes` | utils/load_utils.py:90 | values already in 0..255 are stored unchanged |
| `LoadUtils.ZeroGrid` | utils/load_utils.py:75 | the initial block has the requested height and width |
| `LoadUtils.LoadFrame` | utils/load_utils.py:79-90 | a loaded frame has the target height and width and byte-valued pixels |
| `LoadUtils.FrameImage` | utils/load_utils.py:79-90 | frame `idx` is read from its formatted path in the directory; a missing file raises with that path, and a loaded frame has the target size |
| `LoadUtils.FrameLoader` | utils/load_utils.py:78-90 | the loop body as a value: on every index it loads that frame of the directory |
| `LoadUtils.LoadFrameIsNormalized` | utils/load_utils.py:80-90 | without `gvar`, the stored frame is exactly the normalised resized image |
| `LoadUtils.ImageSequence` | utils/load_utils.py:74-92 | a loaded sequence has one frame per index, each of the target size |
| `LoadUtils.FillSlots` | utils/load_utils.py:75-90 | the slot-filling loop over a pre-allocated array yields exactly what loading every index in order yields, or the first error |
| `LoadUtils.LoadImageSequence` | utils/load_utils.py:61-92 | the method computes `ImageSequence` |
| `LoadData.NewDataset` | utils/load_data.py:17-29 | construction succeeds iff the class count is 14 or 28, otherwise it raises, and it stores every argument |
| `LoadData.Length` | utils/load_data.py:31-32 | `len(dataset)` is the number of data-list rows, the bound `GetItemOutOfRange` checks subscripts against |
| `LoadData.Cell` | utils/load_data.py:36 | reading a column succeeds iff the column exists, and yields it |
| `LoadData.FrameIndices` | utils/load_data.py:36-37 | with the intended call, at most `T` frame indices, and `min(n, T)` of them for a trial of `n >= 1` frames |
| `LoadData.FrameIndicesInTrial` | utils/load_data.py:36-37 | with the intended call, a trial of `n` frames yields `min(n, T)` strictly increasing indices, all in `[0, n)` |
| `LoadData.FrameIndicesAsWritten` | utils/load_data.py:37 | the call as written omits a required argument and always raises |
| `LoadData.LoadTrial` | utils/load_data.py:39-49 | a loaded trial has as many joint rows as frames as sampled indices, every frame of the target size |
| `LoadData.ImageJoint` | utils/load_data.py:35-51 | a row without column 6 raises an index error; a loaded trial has `min(frames, T)` joint rows and images of the target size |
| `LoadData.ImageJointAsWritten` | utils/load_data.py:35-51 | a row without column 6 raises an index error, as written |
| `LoadData.ImageJointAsWrittenFails` | utils/load_data.py:36-37 | as written, loading any trial fails, with the missing-argument error once column 6 exists |
| `LoadData.GetImageJoint` | utils/load_data.py:35-51 | the method computes `ImageJoint` |
| `LoadData.ImageJointReadsColumns` | utils/load_data.py:36-49 | a trial's data depends only on columns 0-3 and 6 of its row |
| `LoadData.TrialDir` | utils/load_data.py:39 | the trial directory formatted from columns 0-3; its shape and injectivity are stated by `TrialDirIsRelativeDirectory` and `TrialDirInjective` |
| `LoadData.TrialDirIsRelativeDirectory` | utils/load_data.py:39 | the formatted trial path is relative and ends in `/` |
| `LoadData.JointFileName` | utils/load_data.py:43 | image coordinates exactly when `D == 2`, world coordinates otherwise; a single path component |
| `LoadData.SegmentShape` | utils/load_data.py:39 | each path segment is a slash-free head followed by `/` |
| `LoadData.SegmentHeadInjective` | utils/load_data.py:39 | a segment determines its number |
| `LoadData.TrialDirInjective` | utils/load_data.py:39 | distinct (gesture, finger, subject, essai) tuples name distinct trial directories |
| `LoadData.TrialFilesInTrialDir` | utils/load_data.py:39-48 | the skeleton file and every frame image lie directly inside the trial directory |
| `LoadData.LabelColumn` | utils/load_data.py:63-66 | the label column is 4 for 14 classes and 5 for 28 |
| `LoadData.CacheEntry` | utils/load_data.py:70-72 | a cache lookup succeeds iff the key is a valid subscript of both cached lists, and yields `cache["joint"][key]` with `cache["image"][key]` |
| `LoadData.Fetch` | utils/load_data.py:70-76 | with a cache, fetching succeeds iff the row has a column 7 naming a cache entry; without one, a row lacking column 6 raises and a loaded trial has equally many joint rows and frames, at most `T` |
| `LoadData.Augment` | utils/load_data.py:78-79 | without an augmentation the trial data passes unchanged |
| `LoadData.PadJoints` | utils/load_data.py:85-88 | joint padding reaches `max(T, k)` rows, keeps the original rows first, and appends zero rows of the same width |
| `LoadData.PadImages` | utils/load_data.py:85-89 | image padding appends `T - k` zero frames when `k < T`, keeping the original frames first |
| `LoadData.GetItem` | utils/load_data.py:54-95 | an item exists only for a valid subscript, and its joint sequence has at least `T` rows |
| `LoadData.ItemFrom` | utils/load_data.py:63-89 | an item built from a row has at least `T` joint rows |
| `LoadData.GetItemOutOfRange` | utils/load_data.py:31-32 | a subscript outside `[-len, len)` raises an index error |
| `LoadData.GetItemLabel` | utils/load_data.py:63-66 | the label is column 4 minus 1 for 14 classes and column 5 minus 1 for 28 |
| `LoadData.GetItemFromCache` | utils/load_data.py:70-89 | with a cache the file system is never read; without augmentation the joints and images are the padded entries of both cached lists named by column 7 |
| `LoadData.GetItemByFetch` | utils/load_data.py:70-76 | the item depends on the cache only through the trial data it fetches |
| `LoadData.GetItemPadding` | utils/load_data.py:54-89 | an item loaded without a cache and without augmentation has exactly `T` joint rows and `T` frames, the shapes the docstring promises: the trial's joints and images first, then zero padding |
| `LoadData.TrialLoader` | utils/load_data.py:104-110 | the partial application loads any row exactly as `get_image_joint` does |
| `LoadData.CacheOf` | utils/load_data.py:114-116 | the cache holds one joint and one image entry per trial, in trial order |
| `LoadData.BuildCache` | utils/load_data.py:99-121 | caching succeeds iff every trial loads, and entry `i` holds trial `i`'s data |
| `LoadData.CacheHoldsRow` | utils/load_data.py:114-116 | looking up key `i` in the cache gives the same result as loading row `i` |
| `LoadData.CacheServesRow` | utils/load_data.py:114-116 | the cache entry of a row also serves any extension of that row, such as the tagged row |
| `LoadData.AppendAll` | utils/load_data.py:114-116 | the appending loop stops at the first failing trial with its error, otherwise it builds the cache of all loaded trials |
| `LoadData.InitCache` | utils/load_data.py:99-121 | the method computes `BuildCache` |
| `EvalDHG.TagRows` | eval_DHG.py:44-45 | tagging keeps every row and appends its position as a final column |
| `EvalDHG.TagRowsIncrease` | eval_DHG.py:45 | the appended tags strictly increase down the list |
| `EvalDHG.Filter` | eval_DHG.py:47 | the boolean-mask selection never grows the list |
| `EvalDHG.FilterMembers` | eval_DHG.py:47 | a row is held out iff it is in the list and its subject column equals the subject |
| `EvalDHG.HeldOut` | eval_DHG.py:47 | selection succeeds iff every row has a subject column, and keeps exactly the subject's rows |
| `EvalDHG.FilterConcat` | eval_DHG.py:47 | selecting from a concatenation is the concatenation of the selections |
| `EvalDHG.FilterKeepsOrder` | eval_DHG.py:45-47 | the held-out rows keep the data list's order |
| `EvalDHG.Insert` | eval_DHG.py:103 | inserting into a sorted duplicate-free list keeps it so and adds exactly the value |
| `EvalDHG.Unique` | eval_DHG.py:103 | `np.unique` is strictly increasing and has exactly the input's values |
| `EvalDHG.SubjectColumn` | eval_DHG.py:103 | the subject column has one entry per row, taken from column 2 |
| `EvalDHG.Subjects` | eval_DHG.py:103 | for a two-dimensional data list, the subject list exists iff every row has column 2, is strictly increasing, and holds exactly the subjects that occur |
| `EvalDHG.CountDistinct` | eval_DHG.py:103-105 | each subject occurs once in the list of distinct subjects |
| `EvalDHG.FoldsCoverList` | eval_DHG.py:103-106 | the folds of all subjects together have exactly as many rows as the data list, empty list included |
| `EvalDHG.FoldsPartition` | eval_DHG.py:103-106 | the folds partition the data list: their sizes sum to its length, and each row is held out in exactly its own subject's fold |
| `EvalDHG.TaggedFoldsPartition` | eval_DHG.py:45-47 | the same partition holds for the tagged list the loop filters |
| `EvalDHG.HeldOutRowOrigin` | eval_DHG.py:44-47 | a held-out row is an original row plus its position, which names that row, and its subject is the held-out one |
| `EvalDHG.CachedTrialAgrees` | eval_DHG.py:44-47 | the cache entry named by a held-out row's tag holds the data that loading that row gives |
| `EvalDHG.FetchAgrees` | utils/load_data.py:70-76 | a cache entry equal to the loaded trial makes the cached and uncached fetches agree |
| `EvalDHG.CachedItemsAgree` | eval_DHG.py:86-97 | for a held-out subject, every item served from the cache equals the item loaded from disk |
| `EvalDHG.ExperimentName` | eval_DHG.py:107 | the experiment name is `sub_` followed by the subject, a single path component |
| `EvalDHG.ExperimentNameInjective` | eval_DHG.py:106-107 | distinct subjects get distinct experiment names |
| `EvalDHG.Flatten` | eval_DHG.py:130-131 | `np.hstack` of the fold arrays; its length and entries are stated by `FlattenLength` and `FlattenIndex` |
| `EvalDHG.FlattenLength` | eval_DHG.py:130-131 | `np.hstack` of the fold arrays is as long as all of them together |
| `EvalDHG.FlattenIndex` | eval_DHG.py:130-131 | after `np.hstack`, entry `j` of fold `k` sits at that fold's offset plus `j` |
| `EvalDHG.PredictionTable` | eval_DHG.py:130-132 | stacking succeeds iff there is a fold and the predictions and labels have equal total lengths; with no fold it raises; each table row has two columns |
| `EvalDHG.PredictionTableRows` | eval_DHG.py:127-132 | when each fold has as many predictions as labels, the table row for entry `j` of fold `k` is that prediction beside its label |
| `EvalDHG.FoldRunner` | eval_DHG.py:105-125 | one fold evaluates the subject on that subject's tagged held-out rows |
| `EvalDHG.Folds` | eval_DHG.py:105-128 | the folds succeed iff every subject's evaluation succeeds, and then give one result per subject in subject order |
| `EvalDHG.FoldsFirstError` | eval_DHG.py:105-128 | a fold that raises ends the loop with its error once every earlier fold has completed |
| `EvalDHG.Rectangular` | eval_DHG.py:86 | the rows of a file `np.loadtxt` can load all have the width of the first |
| `EvalDHG.LoadsAsTable` | eval_DHG.py:86 | `np.loadtxt` yields a two-dimensional table only from a file of at least two rows |
| `EvalDHG.CacheStep` | eval_DHG.py:88-97 | with caching off no cache exists; with caching on, a one-row file raises an index error, and otherwise the cache exists exactly when every row loads, entry `i` holding row `i`'s data |
| `EvalDHG.CacheStepBuildsCache` | eval_DHG.py:88-97 | with the `get_image_joint` loader, the caching step succeeds exactly when `init_cache` does and yields its cache |
| `EvalDHG.CacheStepAsWrittenFails` | eval_DHG.py:88-97 | with `get_image_joint` as written, caching any non-empty data list raises |
| `EvalDHG.CrossValidation` | eval_DHG.py:86-132 | a ragged data-list file raises a parse error at line 86; a failing cache build ends `main` with its error before line 103; then a file of fewer than two rows (squeezed to one dimension) or without a subject column raises an index error at line 103; a fold that raises ends the run with its error; a table exists only when every fold, run with the built cache, completed |
| `EvalDHG.CrossValidate` | eval_DHG.py:86-132 | the caching step and the fold loop compute `CrossValidation`, each error included |

## Left out

- Image decoding and LANCZOS resizing (`utils/load_utils.py:80-82`) are given by the file-system value. Whether the decoder fails on a path is part of that value.
- `grayscale_variation` (`utils/load_utils.py:85`), `apply_augs` (`utils/load_data.py:79`) and `evaluate_stats` with the model behind it (`eval_DHG.py:51-68`) are function-valued parameters. Their code is not part of this model. `grayscale_variation` and `apply_augs` draw random transforms; each parameter stands for one fixed draw, so every property that mentions them holds per draw, and the model does not capture that two calls may draw differently.
- Joint values are exact reals, so `float32` rounding (`utils/load_utils.py:50`, `utils/load_data.py:82`) is not modelled.
- The division by 255 of the images (`utils/load_data.py:83`) is not modelled; images stay byte valued.
- `torch.from_numpy` (`utils/load_data.py:92-93`) is left out because it does not change the values.
- The channel axis of length 1 in the image blocks (`utils/load_utils.py:75`, `:90`) is dropped.
- `LoadUtils.GetSamples`: `T` is a natural number, so a negative `T` is not modelled. The `int32` cast is modelled as truncation toward zero of exact rationals, without 32-bit wrap-around.
- `LoadUtils.GetSamples`: `np.linspace` works in float64, whose rounding can land just below a whole number and truncate one lower than exact arithmetic. For 31 frames and `T = 23`, position 11 is 14.999999999999998 in float64, so the program takes frame 14, while the model takes frame 15.
- `LoadUtils.SamplesStrictlyIncreasing` is stated only for a non-negative start. With a negative start, truncation toward zero can repeat an index (start -3, end 2, `T` 5 gives -3, -1, 0, 0, 2), but every call in the pipeline starts at 0.
- `LoadUtils.LoadJoints`: the one-row file that `np.loadtxt` returns as a 1-D array is treated like any other table.
- `LoadUtils.LoadJoints`: indexing by a NumPy index array is modelled with Python's subscript rule.
- `LoadUtils.Process`: `gvar` is opaque, so its contract speaks only of the path without `gvar`.
- `LoadUtils.LoadFrame`: a processed frame of any shape other than `H_new` by `W_new` raises `BadShape`. NumPy would broadcast a 1 by `W_new`, `H_new` by 1 or 1 by 1 frame into the slot instead of raising. The model does not capture that broadcast.
- `LoadUtils.FrameFileName`: the `mode` string is a two-valued `NamingMode`, because any string other than `"shrec"` selects the DHG naming.
- `multiprocessing.Pool.imap` and `tqdm` (`utils/load_data.py:112-119`) are modelled as a sequential loop. `imap` yields results in input order, so the sequential loop gives the same cache. Worker failures other than a raised exception are not modelled.
- `get_loader` and `DataLoader` (`utils/load_data.py:124-143`) are not modelled, so batching, shuffling and worker processes are not part of the model.
- The configuration, directory creation, settings file, checkpoint restore and logging (`eval_DHG.py:26-37`, `:51-60`, `:69-73`) are not modelled.
- The wandb login and run context (`eval_DHG.py:109-121`) are not modelled.
- Writing the table with `np.savetxt` (`eval_DHG.py:135`) is not modelled; `CrossValidation` returns the table instead.
- `training_pipeline` reads the data list again from the same file (`eval_DHG.py:44`). The model passes in the list that `main` read (`eval_DHG.py:86`).
- `EvalDHG.CachedItemsAgree`: with an augmentation its equality holds for one fixed draw of `apply_augs` (and of `grayscale_variation` in `EvalDHG.CachedTrialAgrees`). The program draws anew on every `__getitem__`, and the cache keeps the draw made when it was built, so cached and uncached items agree in distribution, not value. Without augmentation and without `gvar` the equality holds outright.
- `EvalDHG.CachedItemsAgree` assumes the cache and the held-out dataset use the same preprocessing. `main` builds the cache with the `"train"` transforms (`eval_DHG.py:95`). The held-out loader uses the `"eval"` transforms (`utils/load_data.py:131`). When those differ, the cached images are the training-time ones.
- `LoadData.ImageJoint` models `get_image_joint` with the corrected sampler call `get_samples(0, num_frames - 1, T)`. The code as written raises `TypeError` at `utils/load_data.py:37` (see Findings; `ImageJointAsWritten`). The same corrected call is used by `LoadData.GetImageJoint`, by `LoadData.GetItem` without a cache, by `LoadData.BuildCache` and `LoadData.InitCache`, and by `EvalDHG.CachedTrialAgrees` and `EvalDHG.CachedItemsAgree`.
- `EvalDHG.Subjects` takes the data list as a two-dimensional table. The one-dimensional array `np.loadtxt` returns for a file of fewer than two rows is handled by `EvalDHG.CrossValidation` instead, which raises an index error for it.
- `EvalDHG.CrossValidation` takes the rows of the data-list file. Of `np.loadtxt` it models the ValueError for a ragged file and the squeeze of a file of fewer than two rows, not the parsing of text into integers. The empty-table stacking error of line 130 cannot arise from a file, so the model never reports it.
- `EvalDHG.CrossValidation`: the cache loader is a parameter (`None` when caching is off). `CacheStepBuildsCache` ties it to `init_cache` with the corrected sampler call, and `CacheStepAsWrittenFails` shows that as written the cache build raises for every non-empty list. The worker pool is not modelled; results are taken in row order, as `imap` returns them.
- `EvalDHG.CrossValidation`: a fold's evaluation is a parameter, given the built cache, that may fail, and any failure ends the run with its error. What makes `training_pipeline` raise is not modelled. That covers a missing checkpoint (`eval_DHG.py:56`) and an item that fails to load (as written, every uncached item).
- `LoadData.GetItem` requires a class count of 14 or 28, which `NewDataset` guarantees. The source would raise a `NameError` on `label` for any other count.
- `LoadData.Width`: the padded joint row of an empty joint table has width 0.
- `LoadData.PadFrame`: the padding frame of an empty image block is empty, because no frame fixes its size.

## Findings

| source | as written | input that shows it | evidently intended | confidence | as-written member | corrected member |
|---|---|---|---|---|---|---|
| utils/load_data.py:37 | `get_samples(num_frames, T)` passes two arguments to the three-parameter `get_samples(start, end, T)` (`utils/load_utils.py:21`), so every uncached trial load raises `TypeError`, and with caching on so does `init_cache` at `eval_DHG.py:90` | any row with a column 6, e.g. `[1, 1, 1, 1, 1, 1, 30]` with `T = 8` | `get_samples(0, num_frames - 1, T)`: `min(num_frames, T)` increasing frame indices in `[0, num_frames)` | high; not executed | `LoadData.ImageJointAsWrittenFails` | `LoadData.FrameIndicesInTrial` |
