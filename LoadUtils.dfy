/** Per-trial preprocessing of utils/load_utils.py: frame sampling, min-max
    normalisation of depth images, joint re-centring on the palm and the
    loop that fills the block of processed frames. */
module LoadUtils {
  import opened Support
  import opened Text

  /** A single-channel image as rows of integer pixels. */
  type Grid = seq<seq<int>>

  /** A table of joint coordinates: one row per frame, 22 joints of D coordinates each. */
  type Joints = seq<seq<real>>

  predicate IsGrid(g: Grid, h: nat, w: nat)
  {
    |g| == h && forall i :: 0 <= i < h ==> |g[i]| == w
  }

  predicate HasPixels(g: Grid)
  {
    |g| > 0 && forall i :: 0 <= i < |g| ==> |g[i]| > 0
  }

  // ---------------------------------------------------------------------------
  // Integer arithmetic helpers

  lemma MulMonotone(d: nat, x: int, y: int)
    requires x <= y
    ensures d * x <= d * y
  {
    assert d * y - d * x == d * (y - x);
  }

  /** Euclidean division is determined by its quotient-remainder equation. */
  lemma DivUnique(n: int, d: int, q: int, r: int)
    requires d > 0 && 0 <= r < d && n == d * q + r
    ensures n / d == q
  {
    var q' := n / d;
    assert d * (q - q') == n % d - r;
    if q - q' >= 1 {
      MulMonotone(d, 1, q - q');
    } else if q - q' <= -1 {
      MulMonotone(d, q - q', -1);
    }
  }

  lemma DivMonotone(a: int, b: int, d: int)
    requires a <= b && d > 0
    ensures a / d <= b / d
  {
    var qa, qb := a / d, b / d;
    if qa > qb {
      MulMonotone(d, qb + 1, qa);
    }
  }

  lemma DivSelf(k: int, d: int)
    requires d > 0
    ensures (k * d) / d == k
  {
    DivUnique(k * d, d, k, 0);
  }

  /** Adding the divisor raises the quotient by exactly one. */
  lemma DivAddDivisor(n: int, d: int)
    requires d > 0
    ensures (n + d) / d == n / d + 1
  {
    DivUnique(n + d, d, n / d + 1, n % d);
  }

  // ---------------------------------------------------------------------------
  // normalize

  function SeqMin(s: seq<int>): (m: int)
    requires |s| > 0
    ensures forall k :: 0 <= k < |s| ==> m <= s[k]
    ensures exists k :: 0 <= k < |s| && s[k] == m
  {
    if |s| == 1 then s[0]
    else
      var m' := SeqMin(s[1..]);
      assert forall k :: 1 <= k < |s| ==> s[k] == s[1..][k - 1];
      if s[0] <= m' then s[0] else m'
  }

  function SeqMax(s: seq<int>): (m: int)
    requires |s| > 0
    ensures forall k :: 0 <= k < |s| ==> s[k] <= m
    ensures exists k :: 0 <= k < |s| && s[k] == m
  {
    if |s| == 1 then s[0]
    else
      var m' := SeqMax(s[1..]);
      assert forall k :: 1 <= k < |s| ==> s[k] == s[1..][k - 1];
      if s[0] >= m' then s[0] else m'
  }

  /** `image.min()`: the least pixel, attained somewhere. */
  function GridMin(g: Grid): (m: int)
    requires HasPixels(g)
    ensures forall i, j :: 0 <= i < |g| && 0 <= j < |g[i]| ==> m <= g[i][j]
    ensures exists i, j :: 0 <= i < |g| && 0 <= j < |g[i]| && g[i][j] == m
  {
    if |g| == 1 then SeqMin(g[0])
    else
      var m' := GridMin(g[1..]);
      assert forall i :: 1 <= i < |g| ==> g[i] == g[1..][i - 1];
      var m0 := SeqMin(g[0]);
      if m0 <= m' then m0 else m'
  }

  /** `image.max()`: the greatest pixel, attained somewhere. */
  function GridMax(g: Grid): (m: int)
    requires HasPixels(g)
    ensures forall i, j :: 0 <= i < |g| && 0 <= j < |g[i]| ==> g[i][j] <= m
    ensures exists i, j :: 0 <= i < |g| && 0 <= j < |g[i]| && g[i][j] == m
  {
    if |g| == 1 then SeqMax(g[0])
    else
      var m' := GridMax(g[1..]);
      assert forall i :: 1 <= i < |g| ==> g[i] == g[1..][i - 1];
      var m0 := SeqMax(g[0]);
      if m0 >= m' then m0 else m'
  }

  /** One pixel of `normalize`: `255 * (p - lo) / denom` truncated, where the
      denominator is 1 when the image is constant. */
  function Rescale(p: int, lo: int, hi: int): (v: int)
    requires lo <= p <= hi
    ensures 0 <= v <= 255
  {
    var denom := if hi > lo then hi - lo else 1;
    var v := (255 * (p - lo)) / denom;
    assert v <= 255 by {
      MulMonotone(255, p - lo, denom);
      DivMonotone(255 * (p - lo), 255 * denom, denom);
      DivSelf(255, denom);
    }
    v
  }

  /** `normalize(image)`: min-max rescaling of every pixel into 0..255. */
  function Normalize(g: Grid): (r: Grid)
    requires HasPixels(g)
    ensures |r| == |g| && forall i :: 0 <= i < |g| ==> |r[i]| == |g[i]|
    ensures forall i, j :: 0 <= i < |r| && 0 <= j < |r[i]| ==> 0 <= r[i][j] <= 255
  {
    var lo, hi := GridMin(g), GridMax(g);
    seq(|g|, i requires 0 <= i < |g| =>
      seq(|g[i]|, j requires 0 <= j < |g[i]| => Rescale(g[i][j], lo, hi)))
  }

  /** A constant image normalises to all zeros (the denominator is 1 and every
      difference from the minimum is 0); it is not returned unchanged. */
  lemma NormalizeConstant(g: Grid)
    requires HasPixels(g)
    requires forall i, j :: 0 <= i < |g| && 0 <= j < |g[i]| ==> g[i][j] == g[0][0]
    ensures forall i, j :: 0 <= i < |g| && 0 <= j < |g[i]| ==> Normalize(g)[i][j] == 0
  {
    var lo, hi := GridMin(g), GridMax(g);
    assert lo == g[0][0] && hi == g[0][0];
  }

  /** The least value of the range maps to 0 and, for a proper range, the
      greatest to 255. */
  lemma RescaleEnds(lo: int, hi: int)
    requires lo < hi
    ensures Rescale(lo, lo, hi) == 0 && Rescale(hi, lo, hi) == 255
  {
    DivSelf(255, hi - lo);
  }

  /** On a non-constant image the darkest pixels map to 0 and the brightest to 255. */
  lemma NormalizeExtremes(g: Grid)
    requires HasPixels(g)
    requires GridMin(g) < GridMax(g)
    ensures forall i, j :: 0 <= i < |g| && 0 <= j < |g[i]| && g[i][j] == GridMin(g) ==> Normalize(g)[i][j] == 0
    ensures forall i, j :: 0 <= i < |g| && 0 <= j < |g[i]| && g[i][j] == GridMax(g) ==> Normalize(g)[i][j] == 255
    ensures exists i, j :: 0 <= i < |g| && 0 <= j < |g[i]| && Normalize(g)[i][j] == 0
    ensures exists i, j :: 0 <= i < |g| && 0 <= j < |g[i]| && Normalize(g)[i][j] == 255
  {
    var lo, hi := GridMin(g), GridMax(g);
    var n := Normalize(g);
    RescaleEnds(lo, hi);
    assert forall i, j :: 0 <= i < |g| && 0 <= j < |g[i]| ==> n[i][j] == Rescale(g[i][j], lo, hi);
    var i0, j0 :| 0 <= i0 < |g| && 0 <= j0 < |g[i0]| && g[i0][j0] == lo;
    var i1, j1 :| 0 <= i1 < |g| && 0 <= j1 < |g[i1]| && g[i1][j1] == hi;
    assert n[i0][j0] == 0;
    assert n[i1][j1] == 255;
  }

  /** Normalisation never reverses the order of two pixels. */
  lemma NormalizeMonotone(g: Grid, i: nat, j: nat, k: nat, l: nat)
    requires HasPixels(g)
    requires i < |g| && j < |g[i]| && k < |g| && l < |g[k]|
    requires g[i][j] <= g[k][l]
    ensures Normalize(g)[i][j] <= Normalize(g)[k][l]
  {
    var lo, hi := GridMin(g), GridMax(g);
    var denom := if hi > lo then hi - lo else 1;
    MulMonotone(255, g[i][j] - lo, g[k][l] - lo);
    DivMonotone(255 * (g[i][j] - lo), 255 * (g[k][l] - lo), denom);
  }

  // ---------------------------------------------------------------------------
  // get_samples

  /** Conversion of the exact rational `n / d` to an integer the way
      `astype(np.int32)` does it: truncation toward zero. */
  function TruncDiv(n: int, d: int): int
    requires d > 0
  {
    if n >= 0 then n / d else -((-n) / d)
  }

  /** TruncDiv rounds toward zero: down for a non-negative dividend, up for a
      negative one, never by a whole divisor. */
  lemma TruncDivBounds(n: int, d: int)
    requires d > 0
    ensures var q := TruncDiv(n, d); n >= 0 ==> q * d <= n < q * d + d
    ensures var q := TruncDiv(n, d); n < 0 ==> q * d - d < n <= q * d
  {
    var m := if n >= 0 then n else -n;
    DivUnique(m, d, m / d, m % d);
    assert m == d * (m / d) + m % d;
  }

  lemma TruncDivMonotone(a: int, b: int, d: int)
    requires a <= b && d > 0
    ensures TruncDiv(a, d) <= TruncDiv(b, d)
  {
    if a >= 0 {
      DivMonotone(a, b, d);
    } else if b < 0 {
      DivMonotone(-b, -a, d);
    } else {
      DivMonotone(0, b, d);
      DivMonotone(0, -a, d);
    }
  }

  lemma TruncDivExact(k: int, d: int)
    requires d > 0
    ensures TruncDiv(k * d, d) == k
  {
    if k >= 0 {
      DivSelf(k, d);
    } else {
      assert -(k * d) == (-k) * d;
      DivSelf(-k, d);
    }
  }

  /** `get_samples(start, end, T)`: every frame of a range shorter than T
      (`np.arange`), otherwise T points of `np.linspace(start, end, T)`
      truncated to integers. Never more than T indices, and `min(T, N)` of
      them for a non-empty range of N frames. */
  function GetSamples(start: int, end: int, T: nat): (r: seq<int>)
    ensures |r| <= T
    ensures start <= end ==> |r| == if end - start + 1 < T then end - start + 1 else T
  {
    var N := end - start + 1;
    if N < T then seq(if N > 0 then N else 0, i => start + i)
    else if T == 0 then []
    else if T == 1 then [start]
    else seq(T, i => TruncDiv(start * (T - 1) + i * (end - start), T - 1))
  }

  /** A range with fewer than T frames is returned whole, in order. */
  lemma SamplesShortRange(start: int, end: int, T: nat)
    requires start <= end && end - start + 1 < T
    ensures GetSamples(start, end, T) == seq(end - start + 1, i => start + i)
  {
  }

  /** When the range has at least T frames the first index is `start` and the last `end`. */
  lemma SamplesEndpoints(start: int, end: int, T: nat)
    requires T >= 1 && end - start + 1 >= T
    ensures GetSamples(start, end, T)[0] == start
    ensures GetSamples(start, end, T)[T - 1] == (if T == 1 then start else end)
  {
    if T >= 2 {
      var d := T - 1;
      TruncDivExact(start, d);
      assert start * d + d * (end - start) == end * d;
      TruncDivExact(end, d);
    }
  }

  /** Every sampled index lies in the inclusive range `[start, end]`. */
  lemma SamplesInRange(start: int, end: int, T: nat)
    ensures forall k :: 0 <= k < |GetSamples(start, end, T)| ==>
      start <= GetSamples(start, end, T)[k] <= end
  {
    var r := GetSamples(start, end, T);
    if end - start + 1 >= T >= 2 {
      var d := T - 1;
      forall k | 0 <= k < T ensures start <= r[k] <= end {
        var n := start * d + k * (end - start);
        MulMonotone(end - start, 0, k);
        MulMonotone(end - start, k, d);
        assert start * d <= n;
        assert n <= start * d + d * (end - start) == end * d;
        TruncDivMonotone(start * d, n, d);
        TruncDivMonotone(n, end * d, d);
        TruncDivExact(start, d);
        TruncDivExact(end, d);
      }
    }
  }

  /** Two linspace points `i < j` of a range at least `d` wide, with `d + 1`
      points, truncate to distinct integers when the range starts at or above 0. */
  lemma LinspaceStep(start: int, end: int, d: int, i: int, j: int)
    requires 0 <= start && d >= 1 && end - start >= d && 0 <= i < j
    ensures TruncDiv(start * d + i * (end - start), d) < TruncDiv(start * d + j * (end - start), d)
  {
    var ni := start * d + i * (end - start);
    var nj := start * d + j * (end - start);
    MulMonotone(end - start, 0, i);
    MulMonotone(end - start, 1, j - i);
    assert nj - ni == (j - i) * (end - start);
    MulMonotone(start, 0, d);
    DivAddDivisor(ni, d);
    DivMonotone(ni + d, nj, d);
  }

  /** For non-negative frame numbers the sampled indices strictly increase:
      the linspace step `(end - start) / (T - 1)` is at least 1. */
  lemma SamplesStrictlyIncreasing(start: int, end: int, T: nat)
    requires 0 <= start
    ensures forall i, j :: 0 <= i < j < |GetSamples(start, end, T)| ==>
      GetSamples(start, end, T)[i] < GetSamples(start, end, T)[j]
  {
    var r := GetSamples(start, end, T);
    if end - start + 1 >= T >= 2 {
      var d := T - 1;
      forall i, j | 0 <= i < j < T ensures r[i] < r[j] {
        LinspaceStep(start, end, d, i, j);
      }
    }
  }

  // ---------------------------------------------------------------------------
  // load_joints

  /** A table as `np.loadtxt` returns it: every row has the same width. */
  predicate IsMatrix(t: Joints)
  {
    forall i :: 0 <= i < |t| ==> |t[i]| == |t[0]|
  }

  /** Every subscript of `idxs` selects a row of a table with `n` rows. */
  predicate AllIndexable(n: nat, idxs: seq<int>)
  {
    forall k :: 0 <= k < |idxs| ==> PyIndex(n, idxs[k]).Ok?
  }

  /** The row `table[idx]`, negative subscripts counting from the end. */
  function RowAt(t: Joints, idx: int): seq<real>
    requires PyIndex(|t|, idx).Ok?
  {
    t[PyIndex(|t|, idx).value]
  }

  /** The width check behind `reshape(num_frames, 22, -1)`: a non-empty
      selection whose rows split into 22 joints of at least one coordinate. */
  predicate ReshapesTo22(t: Joints, idxs: seq<int>)
  {
    |idxs| > 0 && |t| > 0 && |t[0]| > 0 && |t[0]| % 22 == 0
  }

  /** The re-centring of `load_joints` on a parsed table: select the rows
      `idxs`, then subtract joint 1 of the first selected frame from every
      joint of every frame. */
  function Recentre(t: Joints, idxs: seq<int>): (r: Result<Joints>)
    requires IsMatrix(t)
    ensures r.Ok? <==> AllIndexable(|t|, idxs) && ReshapesTo22(t, idxs)
    ensures r.Ok? ==> |r.value| == |idxs| && forall i :: 0 <= i < |idxs| ==> |r.value[i]| == |t[0]|
  {
    if !AllIndexable(|t|, idxs) then Err(IndexOutOfRange)
    else if !ReshapesTo22(t, idxs) then Err(BadShape)
    else
      var width := |t[0]|;
      var D := width / 22;
      var palm := RowAt(t, idxs[0])[D..2 * D];
      Ok(seq(|idxs|, i requires 0 <= i < |idxs| =>
        seq(width, j requires 0 <= j < width => RowAt(t, idxs[i])[j] - palm[j % D])))
  }

  /** Joint 1 (the palm) of the first sampled frame becomes exactly the origin. */
  lemma RecentrePalmIsOrigin(t: Joints, idxs: seq<int>)
    requires IsMatrix(t) && Recentre(t, idxs).Ok?
    ensures var D := |t[0]| / 22;
      forall j :: D <= j < 2 * D ==> Recentre(t, idxs).value[0][j] == 0.0
  {
    var D := |t[0]| / 22;
    RecentreRows(t, idxs);
    forall j | D <= j < 2 * D
      ensures Recentre(t, idxs).value[0][j] == 0.0
    {
      DivUnique(j, D, 1, j - D);
      assert j % D == j - D;
    }
  }

  /** Row i is file row `idxs[i]` shifted by the same vector, minus the palm of
      the first sampled frame, for every frame and every joint. */
  lemma RecentreRows(t: Joints, idxs: seq<int>)
    requires IsMatrix(t) && Recentre(t, idxs).Ok?
    ensures var D := |t[0]| / 22;
      forall i, j :: 0 <= i < |idxs| && 0 <= j < |t[0]| ==>
        Recentre(t, idxs).value[i][j] == RowAt(t, idxs[i])[j] - RowAt(t, idxs[0])[D + j % D]
  {
  }

  /** The offset between any two joints, in any two frames, along the same
      coordinate axis is what it was in the file. */
  lemma RecentrePreservesOffsets(t: Joints, idxs: seq<int>, i: nat, a: nat, k: nat, b: nat)
    requires IsMatrix(t) && Recentre(t, idxs).Ok?
    requires i < |idxs| && k < |idxs| && a < |t[0]| && b < |t[0]|
    requires a % (|t[0]| / 22) == b % (|t[0]| / 22)
    ensures Recentre(t, idxs).value[i][a] - Recentre(t, idxs).value[k][b]
         == RowAt(t, idxs[i])[a] - RowAt(t, idxs[k])[b]
  {
  }

  /** `load_joints(joint_path, frame_idxs, T)`: read the table, then re-centre. */
  function LoadJoints(fs: FileSystem, path: string, idxs: seq<int>): (r: Result<Joints>)
    ensures fs.table(path).None? ==> r == Err(FileMissing(path))
    ensures fs.table(path).Some? && !IsMatrix(fs.table(path).value) ==> r == Err(ParseError)
    ensures r.Ok? ==> |r.value| == |idxs|
  {
    match fs.table(path)
    case None => Err(FileMissing(path))
    case Some(t) => if IsMatrix(t) then Recentre(t, idxs) else Err(ParseError)
  }

  // ---------------------------------------------------------------------------
  // load_image_sequence

  /** The file system as the loaders see it: `np.loadtxt` of a path, and
      `Image.open(path).resize((w, h), LANCZOS)` as a grid; None when the
      file cannot be opened. */
  datatype FileSystem = FileSystem(
    table: string -> Option<Joints>,
    image: (string, nat, nat) -> Option<Grid>)

  /** The part of `preprocess_dict` the image loader reads: the resize target
      and, when a "gvar" entry is present, the grayscale-variation transform
      with its parameters applied. */
  datatype Preprocess = Preprocess(hNew: nat, wNew: nat, gvar: Option<Grid -> Grid>)

  /** The `mode` argument: "shrec" (the default) or any other value. */
  datatype NamingMode = Shrec | Other

  /** The file name format: `"{}_depth.png"` in "shrec" mode, `"depth_{}.png"` otherwise. */
  function FrameFileName(mode: NamingMode, idx: int): (r: string)
    ensures '/' !in r && |r| > 4 && r[0] != '/'
    ensures r[|r| - 4..] == ".png"
  {
    if mode == Shrec then IntToString(idx) + "_depth.png" else "depth_" + IntToString(idx) + ".png"
  }

  /** Distinct frames are read from distinct files. */
  lemma FrameFileNameInjective(mode: NamingMode, a: int, b: int)
    requires FrameFileName(mode, a) == FrameFileName(mode, b)
    ensures a == b
  {
    if mode == Shrec {
      DropCommonSuffix(IntToString(a), IntToString(b), "_depth.png");
    } else {
      assert FrameFileName(mode, a) == "depth_" + (IntToString(a) + ".png");
      assert FrameFileName(mode, b) == "depth_" + (IntToString(b) + ".png");
      DropCommonPrefix("depth_", IntToString(a) + ".png", IntToString(b) + ".png");
      DropCommonSuffix(IntToString(a), IntToString(b), ".png");
    }
    IntToStringInjective(a, b);
  }

  /** The brightness policy: grayscale variation when configured, `normalize`
      otherwise; `normalize` of a zero-size image raises (NumPy's min has no
      identity). */
  function Process(p: Preprocess, img: Grid): (r: Result<Grid>)
    ensures p.gvar.None? ==> (r.Ok? <==> HasPixels(img))
    ensures p.gvar.None? && r.Ok? ==> r.value == Normalize(img)
  {
    match p.gvar
    case Some(f) => Ok(f(img))
    case None => if HasPixels(img) then Ok(Normalize(img)) else Err(BadShape)
  }

  /** Storing into the uint8 block keeps each value modulo 256. */
  function ToUint8(g: Grid): (r: Grid)
    ensures |r| == |g| && forall i :: 0 <= i < |g| ==> |r[i]| == |g[i]|
    ensures forall i, j :: 0 <= i < |g| && 0 <= j < |g[i]| ==> 0 <= r[i][j] < 256 && r[i][j] % 256 == g[i][j] % 256
  {
    seq(|g|, i requires 0 <= i < |g| => seq(|g[i]|, j requires 0 <= j < |g[i]| => g[i][j] % 256))
  }

  function ZeroGrid(h: nat, w: nat): (r: Grid)
    ensures IsGrid(r, h, w)
  {
    seq(h, _ => seq(w, _ => 0))
  }

  /** The file of frame `idx` in the trial directory `dir`. */
  function FramePath(dir: string, mode: NamingMode, idx: int): (r: string)
    ensures var name := FrameFileName(mode, idx);
      |dir| + |name| <= |r| && r[..|dir|] == dir && r[|r| - |name|..] == name
  {
    JoinEnds(dir, FrameFileName(mode, idx));
    Join(dir, FrameFileName(mode, idx))
  }

  /** One frame read from `path`: opened, resized, brightness-processed and
      stored as uint8; a processed frame that does not fill the `h` by `w`
      slot is a ValueError. */
  function LoadFrame(path: string, p: Preprocess, fs: FileSystem): (r: Result<Grid>)
    ensures r.Ok? ==> IsGrid(r.value, p.hNew, p.wNew)
    ensures r.Ok? ==> forall i, j :: 0 <= i < p.hNew && 0 <= j < p.wNew ==> 0 <= r.value[i][j] <= 255
  {
    match fs.image(path, p.hNew, p.wNew)
    case None => Err(FileMissing(path))
    case Some(img) =>
      var processed :- Process(p, img);
      if IsGrid(processed, p.hNew, p.wNew) then Ok(ToUint8(processed)) else Err(BadShape)
  }

  /** Without grayscale variation, a frame whose file opens at the requested
      size is stored as exactly the normalised image: the uint8 store loses nothing. */
  lemma LoadFrameIsNormalized(path: string, p: Preprocess, fs: FileSystem, img: Grid)
    requires p.gvar.None? && p.hNew > 0 && p.wNew > 0
    requires fs.image(path, p.hNew, p.wNew) == Some(img)
    requires IsGrid(img, p.hNew, p.wNew)
    ensures LoadFrame(path, p, fs) == Ok(Normalize(img))
  {
    assert HasPixels(img);
    var n := Normalize(img);
    assert Process(p, img) == Ok(n);
    assert IsGrid(n, p.hNew, p.wNew);
    ToUint8OfBytes(n);
  }

  /** The uint8 store leaves a grid of byte values unchanged. */
  lemma ToUint8OfBytes(g: Grid)
    requires forall i, j :: 0 <= i < |g| && 0 <= j < |g[i]| ==> 0 <= g[i][j] <= 255
    ensures ToUint8(g) == g
  {
    assert forall i :: 0 <= i < |g| ==> ToUint8(g)[i] == g[i];
  }

  /** Slot `i` of the image block: the frame `idx` of directory `dir`. */
  function FrameImage(dir: string, idx: int, p: Preprocess, fs: FileSystem, mode: NamingMode): (r: Result<Grid>)
    ensures fs.image(FramePath(dir, mode, idx), p.hNew, p.wNew).None? ==> r == Err(FileMissing(FramePath(dir, mode, idx)))
    ensures r.Ok? ==> IsGrid(r.value, p.hNew, p.wNew)
  {
    LoadFrame(FramePath(dir, mode, idx), p, fs)
  }

  /** The loader of one frame of directory `dir`, as a value the fill loop can call. */
  function FrameLoader(dir: string, p: Preprocess, fs: FileSystem, mode: NamingMode): (load: int -> Result<Grid>)
    ensures forall idx :: load(idx) == FrameImage(dir, idx, p, fs, mode)
  {
    idx => FrameImage(dir, idx, p, fs, mode)
  }

  /** The whole image block: every sampled frame in order, or the error of
      the first frame that fails. */
  function ImageSequence(dir: string, idxs: seq<int>, p: Preprocess, fs: FileSystem, mode: NamingMode): (r: Result<seq<Grid>>)
    ensures r.Ok? ==> |r.value| == |idxs|
    ensures r.Ok? ==> forall k :: 0 <= k < |idxs| ==> IsGrid(r.value[k], p.hNew, p.wNew)
  {
    var r := Collect(Steps(idxs, FrameLoader(dir, p, fs, mode)));
    assert r.Ok? ==> forall k :: 0 <= k < |idxs| ==> r.value[k] == FrameImage(dir, idxs[k], p, fs, mode).value;
    r
  }

  /** The fill loop: preallocate one `blank` slot per index, then store
      `load(idxs[i])` in slot i; the first failing load ends the loop. */
  method FillSlots<T>(idxs: seq<int>, load: int -> Result<T>, blank: T) returns (r: Result<seq<T>>)
    ensures r == Collect(Steps(idxs, load))
  {
    ghost var steps := Steps(idxs, load);
    var blocks := new T[|idxs|](_ => blank);
    for i := 0 to |idxs|
      invariant forall k :: 0 <= k < i ==> steps[k].Ok? && blocks[k] == steps[k].value
    {
      var item := load(idxs[i]);
      if item.Err? {
        CollectFirstError(steps, i);
        return Err(item.error);
      }
      blocks[i] := item.value;
    }
    assert Collect(steps).value == blocks[..];
    r := Ok(blocks[..]);
  }

  /** `load_image_sequence`: preallocate a zero block with one slot per
      sampled frame, then fill slot i with the processed frame `idxs[i]`. */
  method LoadImageSequence(dir: string, idxs: seq<int>, p: Preprocess, fs: FileSystem, mode: NamingMode)
    returns (r: Result<seq<Grid>>)
    ensures r == ImageSequence(dir, idxs, p, fs, mode)
  {
    r := FillSlots(idxs, FrameLoader(dir, p, fs, mode), ZeroGrid(p.hNew, p.wNew));
  }
}
