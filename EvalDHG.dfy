/** Leave-one-subject-out bookkeeping of eval_DHG.py: tagging rows with their
    position, selecting a subject's rows, the list of subjects, and the
    prediction/label table assembled from the per-subject evaluations. */
module EvalDHG {
  import opened Support
  import opened Text
  import opened LoadUtils
  import opened LoadData

  // ---------------------------------------------------------------------------
  // Row tagging and the subject filter

  /** `np.hstack([data_list, np.arange(len(data_list)).reshape(-1, 1)])`:
      every row keeps its columns and gains its position as a last column. */
  function TagRows(list: seq<Row>): (r: seq<Row>)
    ensures |r| == |list|
    ensures forall i :: 0 <= i < |list| ==>
      |r[i]| == |list[i]| + 1 && r[i][..|list[i]|] == list[i] && r[i][|list[i]|] == i
  {
    seq(|list|, i requires 0 <= i < |list| => list[i] + [i])
  }

  /** Every row has column `c`; NumPy's `data_list[:, c]` raises otherwise. */
  predicate HasColumn(list: seq<Row>, c: nat)
  {
    forall i :: 0 <= i < |list| ==> c < |list[i]|
  }

  /** The rows whose subject column (2) equals `sub`, in their original order. */
  function Filter(list: seq<Row>, sub: int): (r: seq<Row>)
    requires HasColumn(list, 2)
    ensures |r| <= |list|
    decreases |list|
  {
    if list == [] then []
    else
      var rest := Filter(list[1..], sub);
      if list[0][2] == sub then [list[0]] + rest else rest
  }

  /** The held-out rows are exactly the rows of subject `sub`. */
  lemma {:induction false} FilterMembers(list: seq<Row>, sub: int)
    requires HasColumn(list, 2)
    ensures forall row :: row in Filter(list, sub) <==> row in list && row[2] == sub
    decreases |list|
  {
    if list != [] {
      FilterMembers(list[1..], sub);
      assert list == [list[0]] + list[1..];
    }
  }

  /** `data_list[data_list[:, 2] == val_sub]`. */
  function HeldOut(list: seq<Row>, sub: int): (r: Result<seq<Row>>)
    ensures r.Ok? <==> HasColumn(list, 2)
    ensures r.Ok? ==> forall row :: row in r.value <==> row in list && row[2] == sub
  {
    if HasColumn(list, 2) then
      FilterMembers(list, sub);
      Ok(Filter(list, sub))
    else Err(IndexOutOfRange)
  }

  /** Selecting rows commutes with splitting the list: the filter keeps the
      rows' relative order. */
  lemma {:induction false} FilterConcat(a: seq<Row>, b: seq<Row>, sub: int)
    requires HasColumn(a, 2) && HasColumn(b, 2)
    ensures HasColumn(a + b, 2)
    ensures Filter(a + b, sub) == Filter(a, sub) + Filter(b, sub)
    decreases |a|
  {
    if a == [] {
      assert a + b == b;
    } else {
      assert (a + b)[0] == a[0];
      assert (a + b)[1..] == a[1..] + b;
      FilterConcat(a[1..], b, sub);
      var head := if a[0][2] == sub then [a[0]] else [];
      assert Filter(a + b, sub) == head + (Filter(a[1..], sub) + Filter(b, sub));
      assert Filter(a, sub) == head + Filter(a[1..], sub);
    }
  }

  /** The position column of a tagged row. */
  function Tag(row: Row): int
    requires |row| > 0
  {
    row[|row| - 1]
  }

  predicate TagsIncrease(list: seq<Row>)
  {
    forall i, j :: 0 <= i < j < |list| ==> |list[i]| > 0 && |list[j]| > 0 && Tag(list[i]) < Tag(list[j])
  }

  /** Tagging numbers the rows in increasing order. */
  lemma TagRowsIncrease(list: seq<Row>)
    ensures TagsIncrease(TagRows(list))
  {
    var t := TagRows(list);
    forall i, j | 0 <= i < j < |t| ensures |t[i]| > 0 && |t[j]| > 0 && Tag(t[i]) < Tag(t[j]) {
      assert Tag(t[i]) == t[i][|list[i]|] == i;
      assert Tag(t[j]) == t[j][|list[j]|] == j;
    }
  }

  /** The held-out rows appear in their original order: their positions increase. */
  lemma {:induction false} FilterKeepsOrder(list: seq<Row>, sub: int)
    requires HasColumn(list, 2) && TagsIncrease(list)
    ensures TagsIncrease(Filter(list, sub))
    decreases |list|
  {
    if list != [] {
      var rest := list[1..];
      assert TagsIncrease(rest) by {
        forall i, j | 0 <= i < j < |rest| ensures |rest[i]| > 0 && |rest[j]| > 0 && Tag(rest[i]) < Tag(rest[j]) {
          assert rest[i] == list[i + 1] && rest[j] == list[j + 1];
        }
      }
      FilterKeepsOrder(rest, sub);
      FilterMembers(rest, sub);
      var f := Filter(rest, sub);
      if list[0][2] == sub {
        forall j | 0 <= j < |f| ensures |f[j]| > 0 && Tag(list[0]) < Tag(f[j]) {
          assert f[j] in rest;
          var m :| 0 <= m < |rest| && rest[m] == f[j];
          assert list[m + 1] == f[j];
        }
        assert Filter(list, sub) == [list[0]] + f;
      }
    }
  }

  // ---------------------------------------------------------------------------
  // np.unique of the subject column

  predicate StrictlyIncreasing(s: seq<int>)
  {
    forall i, j :: 0 <= i < j < |s| ==> s[i] < s[j]
  }

  /** Inserts `x` into a strictly increasing list unless it is already there. */
  function Insert(s: seq<int>, x: int): (r: seq<int>)
    requires StrictlyIncreasing(s)
    ensures StrictlyIncreasing(r)
    ensures forall y :: y in r <==> y in s || y == x
  {
    if s == [] then [x]
    else if x < s[0] then [x] + s
    else if x == s[0] then s
    else
      var tail := s[1..];
      assert forall k :: 0 <= k < |tail| ==> tail[k] == s[k + 1];
      assert StrictlyIncreasing(tail);
      var rest := Insert(tail, x);
      assert forall y :: y in rest ==> s[0] < y;
      var r := [s[0]] + rest;
      assert StrictlyIncreasing(r) by {
        forall i, j | 0 <= i < j < |r| ensures r[i] < r[j] {
          assert r[j] == rest[j - 1] && r[j] in rest;
          if i > 0 {
            assert r[i] == rest[i - 1];
          }
        }
      }
      r
  }

  /** The sorted distinct values of a list. */
  function Unique(xs: seq<int>): (r: seq<int>)
    ensures StrictlyIncreasing(r)
    ensures forall y :: y in r <==> y in xs
  {
    if xs == [] then []
    else
      var r := Insert(Unique(xs[1..]), xs[0]);
      assert forall y :: y in xs <==> y == xs[0] || y in xs[1..];
      r
  }

  /** Column 2 of every row. */
  function SubjectColumn(list: seq<Row>): (r: seq<int>)
    requires HasColumn(list, 2)
    ensures |r| == |list| && forall i :: 0 <= i < |list| ==> r[i] == list[i][2]
  {
    seq(|list|, i requires 0 <= i < |list| => list[i][2])
  }

  /** `np.unique(data_list[:, 2]).tolist()`. */
  function Subjects(list: seq<Row>): (r: Result<seq<int>>)
    ensures r.Ok? <==> HasColumn(list, 2)
    ensures r.Ok? ==> StrictlyIncreasing(r.value)
    ensures r.Ok? ==> forall s :: s in r.value <==> exists i :: 0 <= i < |list| && list[i][2] == s
  {
    if HasColumn(list, 2) then
      var u := Unique(SubjectColumn(list));
      assert forall s :: s in u <==> s in SubjectColumn(list);
      Ok(u)
    else Err(IndexOutOfRange)
  }

  // ---------------------------------------------------------------------------
  // The folds partition the data list

  /** How often `v` occurs in `s`. */
  function Count(s: seq<int>, v: int): nat
  {
    if s == [] then 0 else (if s[0] == v then 1 else 0) + Count(s[1..], v)
  }

  /** The sizes of the folds of the listed subjects, added up. */
  function FoldSizes(list: seq<Row>, subs: seq<int>): nat
    requires HasColumn(list, 2)
  {
    if subs == [] then 0 else |Filter(list, subs[0])| + FoldSizes(list, subs[1..])
  }

  lemma {:induction false} CountDistinct(s: seq<int>, v: int)
    requires StrictlyIncreasing(s)
    ensures Count(s, v) == if v in s then 1 else 0
  {
    if s != [] {
      assert StrictlyIncreasing(s[1..]) by {
        forall i, j | 0 <= i < j < |s[1..]| ensures s[1..][i] < s[1..][j] {
          assert s[1..][i] == s[i + 1] && s[1..][j] == s[j + 1];
        }
      }
      CountDistinct(s[1..], v);
      if s[0] == v {
        assert v !in s[1..];
      }
    }
  }

  /** Adding one row in front adds one to the fold of its subject. */
  lemma {:induction false} FoldSizesCons(row: Row, list: seq<Row>, subs: seq<int>)
    requires |row| > 2 && HasColumn(list, 2)
    ensures HasColumn([row] + list, 2)
    ensures FoldSizes([row] + list, subs) == FoldSizes(list, subs) + Count(subs, row[2])
  {
    if subs != [] {
      assert ([row] + list)[1..] == list;
      FoldSizesCons(row, list, subs[1..]);
    }
  }

  /** The folds of a strictly increasing list of subjects covering every row
      have sizes adding up to the row count. */
  lemma {:induction false} FoldSizesCover(list: seq<Row>, subs: seq<int>)
    requires HasColumn(list, 2) && StrictlyIncreasing(subs)
    requires forall i :: 0 <= i < |list| ==> list[i][2] in subs
    ensures FoldSizes(list, subs) == |list|
    decreases |list|
  {
    if list == [] {
      FoldSizesEmpty(subs);
    } else {
      FoldSizesCover(list[1..], subs);
      assert list == [list[0]] + list[1..];
      FoldSizesCons(list[0], list[1..], subs);
      CountDistinct(subs, list[0][2]);
    }
  }

  lemma {:induction false} FoldSizesEmpty(subs: seq<int>)
    ensures FoldSizes([], subs) == 0
  {
    if subs != [] {
      FoldSizesEmpty(subs[1..]);
    }
  }

  /** The folds of all subjects together have as many rows as the data list. */
  lemma FoldsCoverList(list: seq<Row>)
    requires HasColumn(list, 2)
    ensures FoldSizes(list, Subjects(list).value) == |list|
  {
    FoldSizesCover(list, Subjects(list).value);
  }

  /** The per-subject folds partition the data list: their sizes add up to
      the row count and each row lies in the fold of exactly one listed subject. */
  lemma FoldsPartition(list: seq<Row>, i: nat)
    requires HasColumn(list, 2) && i < |list|
    ensures FoldSizes(list, Subjects(list).value) == |list|
    ensures list[i][2] in Subjects(list).value
    ensures forall s :: s in Subjects(list).value ==> (list[i] in Filter(list, s) <==> s == list[i][2])
  {
    var subs := Subjects(list).value;
    FoldsCoverList(list);
    FilterMembers(list, list[i][2]);
    forall s | s in subs
      ensures list[i] in Filter(list, s) <==> s == list[i][2]
    {
      FilterMembers(list, s);
    }
  }

  /** The same partition holds for the tagged list the loop filters: tagging
      changes no subject, so every tagged row lies in its own subject's fold only. */
  lemma TaggedFoldsPartition(list: seq<Row>, i: nat)
    requires HasColumn(list, 2) && i < |list|
    ensures HasColumn(TagRows(list), 2) && Subjects(TagRows(list)) == Subjects(list)
    ensures FoldSizes(TagRows(list), Subjects(list).value) == |list|
    ensures forall s :: s in Subjects(list).value ==>
      (TagRows(list)[i] in Filter(TagRows(list), s) <==> s == list[i][2])
  {
    assert SubjectColumn(TagRows(list)) == SubjectColumn(list);
    FoldsPartition(TagRows(list), i);
  }

  // ---------------------------------------------------------------------------
  // Held-out rows and the cache

  /** A held-out row of the tagged list is a data-list row plus its position,
      so column 7 of a seven-column row names that row's cache entry. */
  lemma HeldOutRowOrigin(list: seq<Row>, sub: int, j: nat)
    requires forall i :: 0 <= i < |list| ==> |list[i]| == 7
    requires j < |Filter(TagRows(list), sub)|
    ensures var row := Filter(TagRows(list), sub)[j];
      |row| == 8 && 0 <= row[7] < |list| && row[..7] == list[row[7]] && row[2] == sub
  {
    var t := TagRows(list);
    var row := Filter(t, sub)[j];
    FilterMembers(t, sub);
    assert row in t;
    var i :| 0 <= i < |t| && t[i] == row;
    assert row[7] == i;
  }

  /** Column 7 of a held-out row fetches from the cache exactly what
      reading the row's trial files yields. */
  lemma CachedTrialAgrees(list: seq<Row>, sub: int, j: nat, baseDir: string, T: nat, D: int,
                          pre: Preprocess, c: Cache, fs: FileSystem)
    requires forall i :: 0 <= i < |list| ==> |list[i]| == 7
    requires j < |Filter(TagRows(list), sub)|
    requires BuildCache(list, baseDir, T, D, pre, fs) == Ok(c)
    ensures var row := Filter(TagRows(list), sub)[j];
      |row| == 8 && CacheEntry(c, row[7]) == ImageJoint(row, baseDir, T, D, pre, fs)
  {
    var row := Filter(TagRows(list), sub)[j];
    HeldOutRowOrigin(list, sub, j);
    CacheServesRow(list, baseDir, T, D, pre, fs, c, row[7], row);
  }

  /** Fetching with or without the cache gives the same trial data when the
      cache entry named by column 7 is what the files hold. */
  lemma FetchAgrees(ds: Dataset, c: Cache, fs: FileSystem, row: Row)
    requires |row| > 7
    requires CacheEntry(c, row[7]) == ImageJoint(row, ds.baseDir, ds.T, ds.D, ds.transform.pre, fs)
    ensures Fetch(ds.(cache := Some(c)), fs, row) == Fetch(ds.(cache := None), fs, row)
  {
  }

  /** Evaluating a held-out subject with the cache built over the whole data
      list gives the same items as reading the trial files, provided the
      cache was built with the same preprocessing. */
  lemma CachedItemsAgree(list: seq<Row>, sub: int, j: nat, ds: Dataset, c: Cache, fs: FileSystem)
    requires forall i :: 0 <= i < |list| ==> |list[i]| == 7
    requires ValidClassCount(ds.numClasses)
    requires ds.dataList == Filter(TagRows(list), sub) && j < |ds.dataList|
    requires BuildCache(list, ds.baseDir, ds.T, ds.D, ds.transform.pre, fs) == Ok(c)
    ensures GetItem(ds.(cache := Some(c)), fs, j) == GetItem(ds.(cache := None), fs, j)
  {
    HeldOutRowOrigin(list, sub, j);
    CachedTrialAgrees(list, sub, j, ds.baseDir, ds.T, ds.D, ds.transform.pre, c, fs);
    FetchAgrees(ds, c, fs, ds.dataList[j]);
    GetItemByFetch(ds.(cache := Some(c)), None, fs, j);
  }

  // ---------------------------------------------------------------------------
  // The cross-validation loop and the prediction table

  /** What `training_pipeline` reports for one subject: predictions and labels. */
  datatype FoldStats = FoldStats(preds: seq<int>, labels: seq<int>)

  /** `f"sub_{sub}"`: the experiment name, and so the checkpoint directory, of a fold. */
  function ExperimentName(sub: int): (r: string)
    ensures |r| > 4 && r[..4] == "sub_" && '/' !in r
  {
    "sub_" + IntToString(sub)
  }

  /** Distinct subjects restore distinct checkpoints. */
  lemma ExperimentNameInjective(a: int, b: int)
    requires ExperimentName(a) == ExperimentName(b)
    ensures a == b
  {
    DropCommonPrefix("sub_", IntToString(a), IntToString(b));
    IntToStringInjective(a, b);
  }

  /** `np.hstack` of a list of one-dimensional arrays. */
  function Flatten(xss: seq<seq<int>>): seq<int>
  {
    if xss == [] then [] else xss[0] + Flatten(xss[1..])
  }

  /** Total length of the arrays before position `k`. */
  function Offset(xss: seq<seq<int>>, k: nat): nat
    requires k <= |xss|
  {
    if k == 0 then 0 else Offset(xss, k - 1) + |xss[k - 1]|
  }

  /** The concatenation is as long as all the arrays together. */
  lemma {:induction false} FlattenLength(xss: seq<seq<int>>)
    ensures |Flatten(xss)| == Offset(xss, |xss|)
    decreases |xss|
  {
    if xss != [] {
      FlattenLength(xss[1..]);
      OffsetTail(xss, |xss|);
    }
  }

  /** Element `j` of array `k` sits at `Offset(k) + j` of the concatenation. */
  lemma {:induction false} FlattenIndex(xss: seq<seq<int>>, k: nat, j: nat)
    requires k < |xss| && j < |xss[k]|
    ensures |Flatten(xss)| == Offset(xss, |xss|)
    ensures Offset(xss, k) + j < |Flatten(xss)|
    ensures Flatten(xss)[Offset(xss, k) + j] == xss[k][j]
    decreases |xss|
  {
    FlattenLength(xss);
    if k == 0 {
      assert Flatten(xss) == xss[0] + Flatten(xss[1..]);
    } else {
      FlattenIndex(xss[1..], k - 1, j);
      OffsetTail(xss, k);
      assert Flatten(xss) == xss[0] + Flatten(xss[1..]);
    }
  }

  /** Offsets in the list without its first array are shorter by that array's length. */
  lemma {:induction false} OffsetTail(xss: seq<seq<int>>, k: nat)
    requires 0 < k <= |xss|
    ensures Offset(xss, k) == |xss[0]| + Offset(xss[1..], k - 1)
  {
    if k > 1 {
      OffsetTail(xss, k - 1);
    }
  }

  function PredsOf(folds: seq<FoldStats>): (r: seq<seq<int>>)
    ensures |r| == |folds| && forall k :: 0 <= k < |folds| ==> r[k] == folds[k].preds
  {
    seq(|folds|, k requires 0 <= k < |folds| => folds[k].preds)
  }

  function LabelsOf(folds: seq<FoldStats>): (r: seq<seq<int>>)
    ensures |r| == |folds| && forall k :: 0 <= k < |folds| ==> r[k] == folds[k].labels
  {
    seq(|folds|, k requires 0 <= k < |folds| => folds[k].labels)
  }

  /** Lines 130-132: concatenate predictions and labels and pair them up as
      two columns; no folds at all, or columns of unequal length, raise. */
  function PredictionTable(folds: seq<FoldStats>): (r: Result<seq<seq<int>>>)
    ensures r.Ok? <==> |folds| > 0 && |Flatten(PredsOf(folds))| == |Flatten(LabelsOf(folds))|
    ensures folds == [] ==> r == Err(EmptyConcatenation)
    ensures r.Ok? ==> |r.value| == |Flatten(PredsOf(folds))| && forall n :: 0 <= n < |r.value| ==> |r.value[n]| == 2
  {
    if folds == [] then Err(EmptyConcatenation)
    else
      var p, l := Flatten(PredsOf(folds)), Flatten(LabelsOf(folds));
      if |p| != |l| then Err(LengthMismatch)
      else Ok(seq(|p|, n requires 0 <= n < |p| => [p[n], l[n]]))
  }

  /** When every fold reports as many labels as predictions, the table lists
      the folds in order and each fold's rows in order: row `Offset(k) + j`
      is prediction j of fold k next to label j of fold k. */
  lemma PredictionTableRows(folds: seq<FoldStats>, k: nat, j: nat)
    requires |folds| > 0
    requires forall m :: 0 <= m < |folds| ==> |folds[m].preds| == |folds[m].labels|
    requires k < |folds| && j < |folds[k].preds|
    ensures PredictionTable(folds).Ok?
    ensures Offset(PredsOf(folds), k) + j < |PredictionTable(folds).value|
    ensures PredictionTable(folds).value[Offset(PredsOf(folds), k) + j] == [folds[k].preds[j], folds[k].labels[j]]
  {
    var ps, ls := PredsOf(folds), LabelsOf(folds);
    SameOffsets(ps, ls, |folds|);
    SameOffsets(ps, ls, k);
    FlattenIndex(ps, k, j);
    FlattenIndex(ls, k, j);
    var p, l := Flatten(ps), Flatten(ls);
    assert |p| == |l|;
    assert PredictionTable(folds) == Ok(seq(|p|, n requires 0 <= n < |p| => [p[n], l[n]]));
  }

  /** Lists of arrays with pairwise equal lengths have the same offsets. */
  lemma {:induction false} SameOffsets(ps: seq<seq<int>>, ls: seq<seq<int>>, k: nat)
    requires |ps| == |ls| && k <= |ps|
    requires forall m :: 0 <= m < |ps| ==> |ps[m]| == |ls[m]|
    ensures Offset(ps, k) == Offset(ls, k)
    ensures k == |ps| ==> |Flatten(ps)| == |Flatten(ls)|
  {
    if k > 0 {
      SameOffsets(ps, ls, k - 1);
    }
    if k == |ps| {
      FlattenLength(ps);
      FlattenLength(ls);
    }
  }

  /** The run of one fold: `training_pipeline` for subject `sub` on the
      tagged rows of that subject; it may raise (a missing checkpoint, an
      item that fails to load). */
  function FoldRunner(list: seq<Row>, evaluate: (int, seq<Row>) -> Result<FoldStats>): (run: int -> Result<FoldStats>)
    requires HasColumn(list, 2)
    ensures forall sub :: run(sub) == evaluate(sub, Filter(TagRows(list), sub))
  {
    sub => evaluate(sub, Filter(TagRows(list), sub))
  }

  /** What the folds report, subject by subject in order, or the error of
      the first fold that raises. */
  function Folds(list: seq<Row>, subs: seq<int>, evaluate: (int, seq<Row>) -> Result<FoldStats>): (r: Result<seq<FoldStats>>)
    requires HasColumn(list, 2)
    ensures r.Ok? <==> forall k :: 0 <= k < |subs| ==> evaluate(subs[k], Filter(TagRows(list), subs[k])).Ok?
    ensures r.Ok? ==> |r.value| == |subs|
    ensures r.Ok? ==> forall k :: 0 <= k < |subs| ==> r.value[k] == evaluate(subs[k], Filter(TagRows(list), subs[k])).value
  {
    Collect(Steps(subs, FoldRunner(list, evaluate)))
  }

  /** A fold that raises ends the run with its error once every earlier
      fold has completed. */
  lemma FoldsFirstError(list: seq<Row>, subs: seq<int>, evaluate: (int, seq<Row>) -> Result<FoldStats>, k: nat)
    requires HasColumn(list, 2) && k < |subs|
    requires evaluate(subs[k], Filter(TagRows(list), subs[k])).Err?
    requires forall m :: 0 <= m < k ==> evaluate(subs[m], Filter(TagRows(list), subs[m])).Ok?
    ensures Folds(list, subs, evaluate) == Err(evaluate(subs[k], Filter(TagRows(list), subs[k])).error)
  {
    CollectFirstError(Steps(subs, FoldRunner(list, evaluate)), k);
  }

  /** `np.loadtxt` squeezes a file of fewer than two rows to a one-dimensional
      array, which has no column 2 to select. */
  predicate LoadsAsTable(list: seq<Row>)
  {
    |list| >= 2
  }

  /** The rows of a file `np.loadtxt` can read: all of the same width; a
      ragged file raises ValueError. */
  predicate Rectangular(list: seq<Row>)
  {
    forall i :: 0 <= i < |list| ==> |list[i]| == |list[0]|
  }

  /** The single-time caching of `main`: nothing when caching is off, else
      `init_cache` over the loaded rows with `loader` as its `loader_fn`. The
      entries of a one-row file's array are scalars, so reading column 6 of
      the first raises IndexError. */
  function CacheStep(list: seq<Row>, loader: Option<Row -> Result<Recording>>): (r: Result<Option<Cache>>)
    ensures loader.None? ==> r == Ok(None)
    ensures loader.Some? && |list| == 1 ==> r == Err(IndexOutOfRange)
    ensures loader.Some? && |list| != 1 ==>
      (r.Ok? <==> forall i :: 0 <= i < |list| ==> loader.value(list[i]).Ok?)
    ensures loader.Some? && r.Ok? ==>
      r.value.Some? && |r.value.value.joint| == |list| && |r.value.value.image| == |list| &&
      forall i :: 0 <= i < |list| ==>
        Recording(r.value.value.joint[i], r.value.value.image[i]) == loader.value(list[i]).value
  {
    match loader
    case None => Ok(None)
    case Some(load) =>
      if |list| == 1 then Err(IndexOutOfRange)
      else
        var recs :- Collect(Steps(list, load));
        Ok(Some(CacheOf(recs)))
  }

  /** With the trial loader of `get_image_joint`, the caching step of a table
      builds exactly the cache of `init_cache`. */
  lemma CacheStepBuildsCache(list: seq<Row>, baseDir: string, T: nat, D: int, pre: Preprocess, fs: FileSystem)
    requires |list| != 1
    ensures CacheStep(list, Some(TrialLoader(baseDir, T, D, pre, fs))).Ok? <==> BuildCache(list, baseDir, T, D, pre, fs).Ok?
    ensures BuildCache(list, baseDir, T, D, pre, fs).Ok? ==>
      CacheStep(list, Some(TrialLoader(baseDir, T, D, pre, fs))) == Ok(Some(BuildCache(list, baseDir, T, D, pre, fs).value))
  {
  }

  /** As written, caching any non-empty data list raises: a one-row file at
      the column read, any other file at the sampler call of its first row
      (or at its column read when that row is short). */
  lemma CacheStepAsWrittenFails(list: seq<Row>, baseDir: string, T: nat, D: int, pre: Preprocess, fs: FileSystem)
    requires |list| > 0
    ensures CacheStep(list, Some(row => ImageJointAsWritten(row, baseDir, T, D, pre, fs))).Err?
  {
    var load := (row: Row) => ImageJointAsWritten(row, baseDir, T, D, pre, fs);
    ImageJointAsWrittenFails(list[0], baseDir, T, D, pre, fs);
    assert load(list[0]).Err?;
  }

  /** The outcome of `main` for the rows of the data-list file: load the
      table, build the cache when `loader` is given, then one evaluation per
      subject (`training_pipeline` with that cache) and the prediction/label
      table. */
  function CrossValidation(list: seq<Row>, loader: Option<Row -> Result<Recording>>,
                           evaluate: Option<Cache> -> (int, seq<Row>) -> Result<FoldStats>): (r: Result<seq<seq<int>>>)
    ensures !Rectangular(list) ==> r == Err(ParseError)
    ensures Rectangular(list) && CacheStep(list, loader).Err? ==> r == CacheStep(list, loader).PropagateFailure()
    ensures Rectangular(list) && CacheStep(list, loader).Ok? && (!LoadsAsTable(list) || !HasColumn(list, 2)) ==>
      r == Err(IndexOutOfRange)
    ensures r.Ok? ==>
      (Rectangular(list) && CacheStep(list, loader).Ok? && LoadsAsTable(list) && HasColumn(list, 2) &&
       Folds(list, Subjects(list).value, evaluate(CacheStep(list, loader).value)).Ok?)
    ensures (Rectangular(list) && CacheStep(list, loader).Ok? && LoadsAsTable(list) && HasColumn(list, 2) &&
             Folds(list, Subjects(list).value, evaluate(CacheStep(list, loader).value)).Err?) ==>
      r == Folds(list, Subjects(list).value, evaluate(CacheStep(list, loader).value)).PropagateFailure()
  {
    if !Rectangular(list) then Err(ParseError)
    else
      var cache :- CacheStep(list, loader);
      if !LoadsAsTable(list) then Err(IndexOutOfRange)
      else
        var subs :- Subjects(list);
        var folds :- Folds(list, subs, evaluate(cache));
        PredictionTable(folds)
  }

  /** `main` from the loaded table on: the caching step, then the loop over
      the subjects, which evaluates the held-out rows of each subject,
      appends its predictions and labels, and finally builds the table; a
      step that raises ends the run. */
  method CrossValidate(list: seq<Row>, loader: Option<Row -> Result<Recording>>,
                       evaluate: Option<Cache> -> (int, seq<Row>) -> Result<FoldStats>)
    returns (r: Result<seq<seq<int>>>)
    ensures r == CrossValidation(list, loader, evaluate)
  {
    if !Rectangular(list) {
      return Err(ParseError);
    }
    var cache: Option<Cache> := None;
    if loader.Some? {
      if |list| == 1 {
        return Err(IndexOutOfRange);
      }
      var built := AppendAll(list, loader.value);
      if built.Err? {
        return Err(built.error);
      }
      cache := Some(built.value);
    }
    assert CacheStep(list, loader) == Ok(cache);
    if !LoadsAsTable(list) {
      return Err(IndexOutOfRange);
    }
    var subjects := Subjects(list);
    if subjects.Err? {
      return Err(subjects.error);
    }
    var subs := subjects.value;
    var run := evaluate(cache);
    ghost var steps := Steps(subs, FoldRunner(list, run));
    var allPreds: seq<seq<int>> := [];
    var allLabels: seq<seq<int>> := [];
    for k := 0 to |subs|
      invariant |allPreds| == k && |allLabels| == k
      invariant forall m :: 0 <= m < k ==>
        steps[m].Ok? && allPreds[m] == steps[m].value.preds && allLabels[m] == steps[m].value.labels
    {
      var tagged := TagRows(list);
      var valList := HeldOut(tagged, subs[k]);
      assert valList == Ok(Filter(tagged, subs[k]));
      var stats := run(subs[k], valList.value);
      if stats.Err? {
        CollectFirstError(steps, k);
        return Err(stats.error);
      }
      allPreds := allPreds + [stats.value.preds];
      allLabels := allLabels + [stats.value.labels];
    }
    ghost var folds := Collect(steps).value;
    assert allPreds == PredsOf(folds) && allLabels == LabelsOf(folds);
    if |subs| == 0 {
      return Err(EmptyConcatenation);
    }
    var p, l := Flatten(allPreds), Flatten(allLabels);
    if |p| != |l| {
      return Err(LengthMismatch);
    }
    r := Ok(seq(|p|, n requires 0 <= n < |p| => [p[n], l[n]]));
  }
}
