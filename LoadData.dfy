/** The SHREC-DHG dataset wrapper of utils/load_data.py: construction, the
    trial-directory layout, sample assembly (label, cache lookup, padding)
    and the cache built over a whole data list. */
module LoadData {
  import opened Support
  import opened Text
  import opened LoadUtils

  /** One data-list row: gesture, finger, subject, essai, 14-class label,
      28-class label, frame count and, once tagged, the row's position. */
  type Row = seq<int>

  /** `transform_dict`: the image preprocessing entries it shares with
      `load_image_sequence` and the optional augmentation. */
  datatype Transform = Transform(pre: Preprocess, aug: Option<(Joints, seq<Grid>) -> (Joints, seq<Grid>)>)

  /** The joint table and image block of one trial. */
  datatype Recording = Recording(joints: Joints, images: seq<Grid>)

  /** The cache dictionary: a "joint" list and an "image" list. */
  datatype Cache = Cache(joint: seq<Joints>, image: seq<seq<Grid>>)

  /** A `SHREC_DHG_Dataset` object; no field changes after construction. */
  datatype Dataset = Dataset(
    dataList: seq<Row>,
    baseDir: string,
    D: int,
    T: nat,
    numClasses: int,
    transform: Transform,
    cache: Option<Cache>)

  /** One item: padded joints, padded images and the class label. */
  datatype Sample = Sample(joints: Joints, images: seq<Grid>, target: int)

  predicate ValidClassCount(n: int) { n == 14 || n == 28 }

  /** The constructor: the class count must be 14 or 28. */
  function NewDataset(dataList: seq<Row>, baseDir: string, D: int, T: nat, numClasses: int,
                      transform: Transform, cache: Option<Cache>): (r: Result<Dataset>)
    ensures r.Ok? <==> ValidClassCount(numClasses)
    ensures r.Err? ==> r.error == InvalidClassCount
    ensures r.Ok? ==> (r.value.dataList == dataList && r.value.numClasses == numClasses
      && r.value.T == T && r.value.D == D && r.value.baseDir == baseDir
      && r.value.transform == transform && r.value.cache == cache)
  {
    if ValidClassCount(numClasses) then Ok(Dataset(dataList, baseDir, D, T, numClasses, transform, cache))
    else Err(InvalidClassCount)
  }

  /** `__len__`: the number of data-list rows. */
  function Length(ds: Dataset): (n: nat)
    ensures n == |ds.dataList|
  {
    |ds.dataList|
  }

  /** Column `c` of a row; a missing column raises IndexError. */
  function Cell(row: Row, c: nat): (r: Result<int>)
    ensures r.Ok? <==> c < |row|
    ensures r.Ok? ==> r.value == row[c]
  {
    if c < |row| then Ok(row[c]) else Err(IndexOutOfRange)
  }

  // ---------------------------------------------------------------------------
  // get_image_joint

  /** One `name_{value}/` component of the trial path. */
  function Segment(name: string, v: int): string
  {
    SegmentHead(name, v) + "/"
  }

  /** `"gesture_{}/finger_{}/subject_{}/essai_{}/"` formatted with the first four columns. */
  function TrialDir(g: int, f: int, s: int, e: int): string
  {
    Segment("gesture", g) + (Segment("finger", f) + (Segment("subject", s) + Segment("essai", e)))
  }

  /** The trial path is relative and ends in a separator, so the files of a
      trial are joined directly under it. */
  lemma TrialDirIsRelativeDirectory(g: int, f: int, s: int, e: int)
    ensures var r := TrialDir(g, f, s, e); |r| > 0 && r[0] != '/' && r[|r| - 1] == '/'
  {
    var r := TrialDir(g, f, s, e);
    assert r[0] == Segment("gesture", g)[0] == 'g';
  }

  /** The joint table's file name: image coordinates for D = 2, world coordinates otherwise. */
  function JointFileName(D: int): (r: string)
    ensures r == "skeletons_image.txt" <==> D == 2
    ensures r == "skeletons_world.txt" <==> D != 2
    ensures '/' !in r
  {
    if D == 2 then "skeletons_image.txt" else "skeletons_world.txt"
  }

  /** The frame numbers of a trial with `numFrames` frames: the call
      `get_samples(0, numFrames - 1, T)` the sampler's signature calls for. */
  function FrameIndices(numFrames: int, T: nat): (r: seq<int>)
    ensures |r| <= T
    ensures numFrames >= 1 ==> |r| == if numFrames < T then numFrames else T
  {
    GetSamples(0, numFrames - 1, T)
  }

  /** The sampled frames of a trial are at most T existing frame numbers, in
      increasing order; a trial with at least T frames yields exactly T. */
  lemma FrameIndicesInTrial(numFrames: int, T: nat)
    requires numFrames >= 1
    ensures |FrameIndices(numFrames, T)| == if numFrames < T then numFrames else T
    ensures forall k :: 0 <= k < |FrameIndices(numFrames, T)| ==> 0 <= FrameIndices(numFrames, T)[k] < numFrames
    ensures forall i, j :: 0 <= i < j < |FrameIndices(numFrames, T)| ==> FrameIndices(numFrames, T)[i] < FrameIndices(numFrames, T)[j]
  {
    SamplesInRange(0, numFrames - 1, T);
    SamplesStrictlyIncreasing(0, numFrames - 1, T);
  }

  /** The call as written, `get_samples(num_frames, T)`: two arguments for
      the three parameters `(start, end, T)`, so Python raises TypeError. */
  function FrameIndicesAsWritten(numFrames: int, T: nat): (r: Result<seq<int>>)
    ensures r == Err(MissingArgument)
  {
    Err(MissingArgument)
  }

  /** Loading the joint table and the image block of the trial named by the
      row at the given frames. */
  function LoadTrial(row: Row, idxs: seq<int>, baseDir: string, D: int, pre: Preprocess, fs: FileSystem): (r: Result<Recording>)
    requires |row| >= 4
    ensures r.Ok? ==> |r.value.joints| == |r.value.images| == |idxs|
    ensures r.Ok? ==> forall k :: 0 <= k < |r.value.images| ==> IsGrid(r.value.images[k], pre.hNew, pre.wNew)
  {
    var dir := Join(baseDir, TrialDir(row[0], row[1], row[2], row[3]));
    var joints :- LoadJoints(fs, Join(dir, JointFileName(D)), idxs);
    var images :- ImageSequence(dir, idxs, pre, fs, Shrec);
    Ok(Recording(joints, images))
  }

  /** `get_image_joint`: the joints and the image block of the trial named
      by the row, both at the frames sampled from its frame count. */
  function ImageJoint(row: Row, baseDir: string, T: nat, D: int, pre: Preprocess, fs: FileSystem): (r: Result<Recording>)
    ensures |row| <= 6 ==> r == Err(IndexOutOfRange)
    ensures r.Ok? ==> |r.value.joints| == |r.value.images| == |FrameIndices(row[6], T)|
    ensures r.Ok? ==> forall k :: 0 <= k < |r.value.images| ==> IsGrid(r.value.images[k], pre.hNew, pre.wNew)
  {
    var numFrames :- Cell(row, 6);
    LoadTrial(row, FrameIndices(numFrames, T), baseDir, D, pre, fs)
  }

  /** `get_image_joint` with the sampler call as written: the frame count is
      read, then the call raises before any file is opened. */
  function ImageJointAsWritten(row: Row, baseDir: string, T: nat, D: int, pre: Preprocess, fs: FileSystem): (r: Result<Recording>)
    ensures |row| <= 6 ==> r == Err(IndexOutOfRange)
  {
    var numFrames :- Cell(row, 6);
    FrameIndicesAsWritten(numFrames, T).PropagateFailure()
  }

  /** As written, `get_image_joint` never returns: every row either lacks a
      frame count or reaches the sampler call that raises TypeError. */
  lemma ImageJointAsWrittenFails(row: Row, baseDir: string, T: nat, D: int, pre: Preprocess, fs: FileSystem)
    ensures ImageJointAsWritten(row, baseDir, T, D, pre, fs).Err?
    ensures |row| > 6 ==> ImageJointAsWritten(row, baseDir, T, D, pre, fs) == Err(MissingArgument)
  {
  }

  /** `get_image_joint` as the program runs it, through the frame-filling loop. */
  method GetImageJoint(row: Row, baseDir: string, T: nat, D: int, pre: Preprocess, fs: FileSystem)
    returns (r: Result<Recording>)
    ensures r == ImageJoint(row, baseDir, T, D, pre, fs)
  {
    if |row| <= 6 {
      return Err(IndexOutOfRange);
    }
    var idxs := FrameIndices(row[6], T);
    var dir := Join(baseDir, TrialDir(row[0], row[1], row[2], row[3]));
    var joints := LoadJoints(fs, Join(dir, JointFileName(D)), idxs);
    if joints.Err? {
      return Err(joints.error);
    }
    var images := LoadImageSequence(dir, idxs, pre, fs, Shrec);
    if images.Err? {
      return Err(images.error);
    }
    r := Ok(Recording(joints.value, images.value));
  }

  /** A trial's data depends only on its first four columns and its frame count. */
  lemma ImageJointReadsColumns(a: Row, b: Row, baseDir: string, T: nat, D: int, pre: Preprocess, fs: FileSystem)
    requires |a| > 6 && |b| > 6
    requires a[..4] == b[..4] && a[6] == b[6]
    ensures ImageJoint(a, baseDir, T, D, pre, fs) == ImageJoint(b, baseDir, T, D, pre, fs)
  {
    assert a[0] == a[..4][0] && a[1] == a[..4][1] && a[2] == a[..4][2] && a[3] == a[..4][3];
    assert b[0] == b[..4][0] && b[1] == b[..4][1] && b[2] == b[..4][2] && b[3] == b[..4][3];
  }

  /** The part of a segment before its slash. */
  function SegmentHead(name: string, v: int): string
  {
    name + "_" + IntToString(v)
  }

  lemma SegmentShape(name: string, v: int)
    requires '/' !in name
    ensures Segment(name, v) == SegmentHead(name, v) + "/"
    ensures '/' !in SegmentHead(name, v)
  {
    IntToStringHasNoSlash(v);
  }

  /** Equal segment heads with the same name carry the same value. */
  lemma SegmentHeadInjective(name: string, a: int, b: int)
    requires SegmentHead(name, a) == SegmentHead(name, b)
    ensures a == b
  {
    DropCommonPrefix(name + "_", IntToString(a), IntToString(b));
    IntToStringInjective(a, b);
  }

  /** Distinct (gesture, finger, subject, essai) quadruples name distinct trial directories. */
  lemma TrialDirInjective(g: int, f: int, s: int, e: int, g': int, f': int, s': int, e': int)
    requires TrialDir(g, f, s, e) == TrialDir(g', f', s', e')
    ensures g == g' && f == f' && s == s' && e == e'
  {
    SegmentShape("gesture", g); SegmentShape("gesture", g');
    var r1, r1' := Segment("finger", f) + (Segment("subject", s) + Segment("essai", e)),
                   Segment("finger", f') + (Segment("subject", s') + Segment("essai", e'));
    SplitAtSlash(SegmentHead("gesture", g), r1, SegmentHead("gesture", g'), r1');
    SegmentHeadInjective("gesture", g, g');
    SegmentShape("finger", f); SegmentShape("finger", f');
    var r2, r2' := Segment("subject", s) + Segment("essai", e), Segment("subject", s') + Segment("essai", e');
    SplitAtSlash(SegmentHead("finger", f), r2, SegmentHead("finger", f'), r2');
    SegmentHeadInjective("finger", f, f');
    SegmentShape("subject", s); SegmentShape("subject", s');
    SplitAtSlash(SegmentHead("subject", s), Segment("essai", e), SegmentHead("subject", s'), Segment("essai", e'));
    SegmentHeadInjective("subject", s, s');
    DropCommonSuffix(SegmentHead("essai", e), SegmentHead("essai", e'), "/");
    SegmentHeadInjective("essai", e, e');
  }

  /** The joint table and every frame image of a trial lie directly in the
      trial directory `os.path.join(base_dir, path_identifier)`. */
  lemma TrialFilesInTrialDir(baseDir: string, g: int, f: int, s: int, e: int, D: int, idx: int)
    ensures var dir := Join(baseDir, TrialDir(g, f, s, e));
      Join(dir, JointFileName(D)) == dir + JointFileName(D)
      && FramePath(dir, Shrec, idx) == dir + FrameFileName(Shrec, idx)
  {
    var t := TrialDir(g, f, s, e);
    var dir := Join(baseDir, t);
    assert t[0] == 'g';
    assert t[|t| - 1] == '/';
    JoinEnds(baseDir, t);
    assert dir[|dir| - 1] == '/';
    JoinAfterSlash(dir, JointFileName(D));
    assert IntToString(idx)[0] != '/';
    assert FrameFileName(Shrec, idx)[0] == IntToString(idx)[0];
    JoinAfterSlash(dir, FrameFileName(Shrec, idx));
  }

  // ---------------------------------------------------------------------------
  // __getitem__

  /** The label column: column 4 for 14 classes, column 5 for 28. */
  function LabelColumn(numClasses: int): (c: nat)
    ensures numClasses == 14 ==> c == 4
    ensures numClasses == 28 ==> c == 5
  {
    if numClasses == 14 then 4 else 5
  }

  /** `cache["joint"][c_idx], cache["image"][c_idx]` with Python subscripts. */
  function CacheEntry(c: Cache, key: int): (r: Result<Recording>)
    ensures r.Ok? <==> PyIndex(|c.joint|, key).Ok? && PyIndex(|c.image|, key).Ok?
    ensures r.Ok? ==> r.value == Recording(c.joint[PyIndex(|c.joint|, key).value], c.image[PyIndex(|c.image|, key).value])
  {
    var j :- PyIndex(|c.joint|, key);
    var m :- PyIndex(|c.image|, key);
    Ok(Recording(c.joint[j], c.image[m]))
  }

  /** The trial data of a row: the cache entry named by column 7 when a cache
      is present, otherwise the files of the trial. */
  function Fetch(ds: Dataset, fs: FileSystem, row: Row): (r: Result<Recording>)
    ensures ds.cache.Some? ==> (r.Ok? <==> |row| > 7 && CacheEntry(ds.cache.value, row[7]).Ok?)
    ensures ds.cache.None? && |row| <= 6 ==> r == Err(IndexOutOfRange)
    ensures ds.cache.None? && r.Ok? ==> |r.value.joints| == |r.value.images| <= ds.T
  {
    match ds.cache
    case Some(c) =>
      var key :- Cell(row, 7);
      CacheEntry(c, key)
    case None => ImageJoint(row, ds.baseDir, ds.T, ds.D, ds.transform.pre, fs)
  }

  /** `apply_augs` when an augmentation is configured. */
  function Augment(aug: Option<(Joints, seq<Grid>) -> (Joints, seq<Grid>)>, rec: Recording): (r: Recording)
    ensures aug.None? ==> r == rec
  {
    match aug
    case None => rec
    case Some(f) => var (j, i) := f(rec.joints, rec.images); Recording(j, i)
  }

  /** The column count of a joint table (zero for a table without rows). */
  function Width(j: Joints): nat
  {
    if |j| > 0 then |j[0]| else 0
  }

  function ZeroRow(w: nat): seq<real>
  {
    seq(w, _ => 0.0)
  }

  /** A zero image of the same shape as `g`. */
  function ZeroLike(g: Grid): Grid
  {
    seq(|g|, i requires 0 <= i < |g| => seq(|g[i]|, _ => 0))
  }

  /** The zero frame `np.pad` appends to an image block. */
  function PadFrame(imgs: seq<Grid>): Grid
  {
    if |imgs| > 0 then ZeroLike(imgs[0]) else []
  }

  /** `np.pad` of the joint table with zero rows up to T rows. */
  function PadJoints(j: Joints, T: nat): (r: Joints)
    ensures |r| == if |j| < T then T else |j|
    ensures r[..|j|] == j
    ensures forall k :: |j| <= k < |r| ==> r[k] == ZeroRow(Width(j))
  {
    if |j| < T then j + seq(T - |j|, _ => ZeroRow(Width(j))) else j
  }

  /** `np.pad` of the image block by `T - k` zero frames, where `k` is the
      number of joint rows. */
  function PadImages(imgs: seq<Grid>, k: nat, T: nat): (r: seq<Grid>)
    ensures |r| == if k < T then |imgs| + (T - k) else |imgs|
    ensures r[..|imgs|] == imgs
    ensures forall m :: |imgs| <= m < |r| ==> r[m] == PadFrame(imgs)
  {
    if k < T then imgs + seq(T - k, _ => PadFrame(imgs)) else imgs
  }

  /** `__getitem__(idx)`: resolve the row, read its label and frame count,
      fetch the trial (cache or files), augment, then pad both sequences. */
  function GetItem(ds: Dataset, fs: FileSystem, idx: int): (r: Result<Sample>)
    requires ValidClassCount(ds.numClasses)
    ensures r.Ok? ==> -(Length(ds) as int) <= idx < Length(ds)
    ensures r.Ok? ==> |r.value.joints| >= ds.T
  {
    var i :- PyIndex(|ds.dataList|, idx);
    var row := ds.dataList[i];
    ItemFrom(row, ds.numClasses, ds.T, ds.transform.aug, Fetch(ds, fs, row))
  }

  /** The rest of `__getitem__` once the row is known: the label and frame
      count are read first, then the fetched trial is augmented and padded. */
  function ItemFrom(row: Row, numClasses: int, T: nat, aug: Option<(Joints, seq<Grid>) -> (Joints, seq<Grid>)>,
                    fetched: Result<Recording>): (r: Result<Sample>)
    ensures r.Ok? ==> |r.value.joints| >= T
  {
    var labelCell :- Cell(row, LabelColumn(numClasses));
    var _ :- Cell(row, 6);
    var rec' :- fetched;
    var rec := Augment(aug, rec');
    Ok(Sample(PadJoints(rec.joints, T), PadImages(rec.images, |rec.joints|, T), labelCell - 1))
  }

  /** `__len__` bounds the subscripts: anything outside `[-len, len)` raises IndexError. */
  lemma GetItemOutOfRange(ds: Dataset, fs: FileSystem, idx: int)
    requires ValidClassCount(ds.numClasses)
    requires !(-(Length(ds) as int) <= idx < Length(ds))
    ensures GetItem(ds, fs, idx) == Err(IndexOutOfRange)
  {
  }

  /** The label is column 4 minus one for 14 classes, column 5 minus one for 28. */
  lemma GetItemLabel(ds: Dataset, fs: FileSystem, idx: int)
    requires ValidClassCount(ds.numClasses)
    requires GetItem(ds, fs, idx).Ok?
    ensures var row := ds.dataList[PyIndex(|ds.dataList|, idx).value];
      GetItem(ds, fs, idx).value.target == (if ds.numClasses == 14 then row[4] else row[5]) - 1
  {
  }

  /** With a cache, the item is built from the cache entry named by column 7
      of the row, whatever the file system holds. */
  lemma GetItemFromCache(ds: Dataset, fs: FileSystem, fs': FileSystem, idx: int)
    requires ValidClassCount(ds.numClasses) && ds.cache.Some?
    ensures GetItem(ds, fs, idx) == GetItem(ds, fs', idx)
    ensures GetItem(ds, fs, idx).Ok? && ds.transform.aug.None? ==>
      var row := ds.dataList[PyIndex(|ds.dataList|, idx).value];
      var c := ds.cache.value;
      GetItem(ds, fs, idx).value.joints == PadJoints(c.joint[PyIndex(|c.joint|, row[7]).value], ds.T)
      && GetItem(ds, fs, idx).value.images ==
           PadImages(c.image[PyIndex(|c.image|, row[7]).value], |c.joint[PyIndex(|c.joint|, row[7]).value]|, ds.T)
  {
  }

  /** Two datasets that differ only in their cache give the same item when
      they fetch the same trial data for the row. */
  lemma GetItemByFetch(ds: Dataset, other: Option<Cache>, fs: FileSystem, idx: int)
    requires ValidClassCount(ds.numClasses) && PyIndex(|ds.dataList|, idx).Ok?
    requires var row := ds.dataList[PyIndex(|ds.dataList|, idx).value];
      Fetch(ds, fs, row) == Fetch(ds.(cache := other), fs, row)
    ensures GetItem(ds, fs, idx) == GetItem(ds.(cache := other), fs, idx)
  {
  }

  /** Padding: a trial loads at most T frames, so both sequences of an
      uncached, unaugmented item have exactly T frames, the shapes
      `(T, 22*D)` and `(T, 1, H, W)` the docstring promises; the original
      frames come first and the appended ones are zero. */
  lemma GetItemPadding(ds: Dataset, fs: FileSystem, idx: int)
    requires ValidClassCount(ds.numClasses) && ds.cache.None? && ds.transform.aug.None?
    requires GetItem(ds, fs, idx).Ok?
    ensures var row := ds.dataList[PyIndex(|ds.dataList|, idx).value];
      var rec := ImageJoint(row, ds.baseDir, ds.T, ds.D, ds.transform.pre, fs).value;
      var s := GetItem(ds, fs, idx).value;
      var k := |rec.joints|;
      |s.joints| == |s.images| == ds.T && k <= ds.T
      && s.joints[..k] == rec.joints && s.images[..k] == rec.images
      && (forall m :: k <= m < |s.joints| ==> s.joints[m] == ZeroRow(Width(rec.joints)))
      && (forall m :: k <= m < |s.images| ==> s.images[m] == PadFrame(rec.images))
  {
  }

  // ---------------------------------------------------------------------------
  // init_cache

  /** `get_image_joint` with everything but the row fixed (the `functools.partial`). */
  function TrialLoader(baseDir: string, T: nat, D: int, pre: Preprocess, fs: FileSystem): (load: Row -> Result<Recording>)
    ensures forall row :: load(row) == ImageJoint(row, baseDir, T, D, pre, fs)
  {
    row => ImageJoint(row, baseDir, T, D, pre, fs)
  }

  /** The two cache lists made from the recordings of the rows. */
  function CacheOf(recs: seq<Recording>): (c: Cache)
    ensures |c.joint| == |recs| && |c.image| == |recs|
    ensures forall i :: 0 <= i < |recs| ==> Recording(c.joint[i], c.image[i]) == recs[i]
  {
    Cache(seq(|recs|, i requires 0 <= i < |recs| => recs[i].joints),
          seq(|recs|, i requires 0 <= i < |recs| => recs[i].images))
  }

  /** The cache of a data list: entry i holds the joints and images of row i,
      or the error of the first row that fails. */
  function BuildCache(rows: seq<Row>, baseDir: string, T: nat, D: int, pre: Preprocess, fs: FileSystem): (r: Result<Cache>)
    ensures r.Ok? <==> forall i :: 0 <= i < |rows| ==> ImageJoint(rows[i], baseDir, T, D, pre, fs).Ok?
    ensures r.Ok? ==> |r.value.joint| == |rows| && |r.value.image| == |rows|
    ensures r.Ok? ==> forall i :: 0 <= i < |rows| ==>
      Recording(r.value.joint[i], r.value.image[i]) == ImageJoint(rows[i], baseDir, T, D, pre, fs).value
  {
    var recs :- Collect(Steps(rows, TrialLoader(baseDir, T, D, pre, fs)));
    Ok(CacheOf(recs))
  }

  /** Entry i of a built cache, looked up by the row's position, is what
      loading row i yields. */
  lemma CacheHoldsRow(rows: seq<Row>, baseDir: string, T: nat, D: int, pre: Preprocess, fs: FileSystem, c: Cache, i: nat)
    requires BuildCache(rows, baseDir, T, D, pre, fs) == Ok(c) && i < |rows|
    ensures CacheEntry(c, i) == ImageJoint(rows[i], baseDir, T, D, pre, fs)
  {
  }

  /** A row that extends row i of the data list with further columns finds
      its trial data at entry i of the cache. */
  lemma CacheServesRow(rows: seq<Row>, baseDir: string, T: nat, D: int, pre: Preprocess, fs: FileSystem,
                       c: Cache, i: nat, row: Row)
    requires BuildCache(rows, baseDir, T, D, pre, fs) == Ok(c) && i < |rows|
    requires |rows[i]| > 6 && |rows[i]| <= |row| && row[..|rows[i]|] == rows[i]
    ensures CacheEntry(c, i) == ImageJoint(row, baseDir, T, D, pre, fs)
  {
    ExtendedRowColumns(rows[i], row);
    CacheHoldsRow(rows, baseDir, T, D, pre, fs, c, i);
    ImageJointReadsColumns(row, rows[i], baseDir, T, D, pre, fs);
  }

  /** A row extended with further columns keeps the columns a trial is read from. */
  lemma ExtendedRowColumns(short: Row, long: Row)
    requires |short| > 6 && |short| <= |long| && long[..|short|] == short
    ensures long[..4] == short[..4] && long[6] == short[6]
  {
    assert long[..4] == long[..|short|][..4];
    assert long[6] == long[..|short|][6];
  }

  /** The loop over `pool.imap(loader_fn, data_list)`: results arrive in row
      order and each one is appended to both lists; a failing row ends it. */
  method AppendAll(rows: seq<Row>, loader: Row -> Result<Recording>) returns (r: Result<Cache>)
    ensures r.Err? <==> Collect(Steps(rows, loader)).Err?
    ensures r.Err? ==> r.error == Collect(Steps(rows, loader)).error
    ensures r.Ok? ==> r.value == CacheOf(Collect(Steps(rows, loader)).value)
  {
    ghost var steps := Steps(rows, loader);
    var joint: seq<Joints> := [];
    var image: seq<seq<Grid>> := [];
    for i := 0 to |rows|
      invariant |joint| == i && |image| == i
      invariant forall k :: 0 <= k < i ==> steps[k].Ok? && Recording(joint[k], image[k]) == steps[k].value
    {
      var rec := loader(rows[i]);
      if rec.Err? {
        CollectFirstError(steps, i);
        return Err(rec.error);
      }
      joint := joint + [rec.value.joints];
      image := image + [rec.value.images];
    }
    ghost var recs := Collect(steps).value;
    assert joint == CacheOf(recs).joint;
    assert image == CacheOf(recs).image;
    r := Ok(Cache(joint, image));
  }

  /** `init_cache`: fix every argument of `get_image_joint` but the row, then
      collect the results for all rows in order. */
  method InitCache(rows: seq<Row>, baseDir: string, T: nat, D: int, pre: Preprocess, fs: FileSystem)
    returns (r: Result<Cache>)
    ensures r == BuildCache(rows, baseDir, T, D, pre, fs)
  {
    r := AppendAll(rows, TrialLoader(baseDir, T, D, pre, fs));
  }
}
