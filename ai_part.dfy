/**
 * The command-line tech-pack script: a logo pasted in place at (50, 50) on the
 * cap's pixel buffer, rows and columns picked from a spreadsheet, and the
 * upload and output paths it derives.
 */
module AiPart {
  import opened Wrappers
  import opened Raster
  import opened PyOps
  import opened Paths
  import opened OutputNaming

  // ---------------------------------------------------------------- logo paste

  /** Row and column of the logo's top-left corner on the cap. */
  const Offset: nat := 50

  /** `top <= y < top + rows` and `left <= x < left + cols`. */
  predicate InRect(y: int, x: int, top: nat, left: nat, rows: nat, cols: nat) {
    top <= y < top + rows && left <= x < left + cols
  }

  /**
   * The cap after the logo is pasted with its top-left corner at (top, left):
   * inside the logo's rectangle an RGBA logo is blended over channels 0-2 with
   * its channel 3 as opacity, a 3-channel logo is copied verbatim; every other
   * pixel keeps its value.
   */
  function Paste(cap: Image, logo: Image, top: nat, left: nat): (r: Image)
    requires Shaped(cap, Rows(cap), Cols(cap), 3)
    requires Valid(logo) && (Depth(logo) == 3 || Depth(logo) == 4)
    ensures Shaped(r, Rows(cap), Cols(cap), 3)
    ensures forall y, x :: 0 <= y < Rows(cap) && 0 <= x < Cols(cap) ==> r[y][x] == PasteAt(cap, logo, top, left, y, x)
    ensures forall y, x :: 0 <= y < Rows(cap) && 0 <= x < Cols(cap) && !InRect(y, x, top, left, Rows(logo), Cols(logo)) ==>
      r[y][x] == cap[y][x]
    ensures Depth(logo) == 3 ==>
      forall y, x :: 0 <= y < Rows(cap) && 0 <= x < Cols(cap) && InRect(y, x, top, left, Rows(logo), Cols(logo)) ==>
        r[y][x] == logo[y - top][x - left]
    ensures Depth(logo) == 4 ==>
      forall y, x, c :: 0 <= y < Rows(cap) && 0 <= x < Cols(cap) && InRect(y, x, top, left, Rows(logo), Cols(logo)) && 0 <= c < 3 ==>
        r[y][x][c] == Blend(logo[y - top][x - left][c], cap[y][x][c], logo[y - top][x - left][3])
  {
    var rows, cols := Rows(cap), Cols(cap);
    seq(rows, y requires 0 <= y < rows =>
      seq(cols, x requires 0 <= x < cols => PasteAt(cap, logo, top, left, y, x)))
  }

  /** The pasted pixel at (y, x). */
  function PasteAt(cap: Image, logo: Image, top: nat, left: nat, y: nat, x: nat): (p: Pixel)
    requires Shaped(cap, Rows(cap), Cols(cap), 3)
    requires Valid(logo) && (Depth(logo) == 3 || Depth(logo) == 4)
    requires y < Rows(cap) && x < Cols(cap)
    ensures IsPixel(p, 3)
    ensures !InRect(y, x, top, left, Rows(logo), Cols(logo)) ==> p == cap[y][x]
    ensures InRect(y, x, top, left, Rows(logo), Cols(logo)) ==> p == PastePixel(cap[y][x], logo[y - top][x - left])
  {
    if !InRect(y, x, top, left, Rows(logo), Cols(logo)) then cap[y][x]
    else PastePixel(cap[y][x], logo[y - top][x - left])
  }

  /** One cap pixel under one logo pixel: blended when the logo pixel has an opacity channel, replaced otherwise. */
  function PastePixel(under: Pixel, over: Pixel): (p: Pixel)
    requires IsPixel(under, 3) && (IsPixel(over, 3) || IsPixel(over, 4))
    ensures IsPixel(p, 3)
    ensures |over| == 3 ==> p == over
    ensures |over| == 4 ==> forall c :: 0 <= c < 3 ==> p[c] == Blend(over[c], under[c], over[3])
  {
    if |over| == 4 then seq(3, c requires 0 <= c < 3 => Blend(over[c], under[c], over[3])) else over
  }

  /**
   * Under an RGBA logo pixel with opacity 0 the cap pixel is unchanged, with
   * opacity 255 it becomes the logo's colour, and in between each channel lies
   * between the cap's and the logo's value.
   */
  lemma {:induction false} PasteAlphaExtremes(cap: Image, logo: Image, top: nat, left: nat, y: nat, x: nat)
    requires Shaped(cap, Rows(cap), Cols(cap), 3)
    requires Valid(logo) && Depth(logo) == 4
    requires y < Rows(cap) && x < Cols(cap) && InRect(y, x, top, left, Rows(logo), Cols(logo))
    ensures var p, l := Paste(cap, logo, top, left)[y][x], logo[y - top][x - left];
            && (l[3] == 0 ==> p == cap[y][x])
            && (l[3] == 255 ==> p == l[..3])
            && forall c :: 0 <= c < 3 ==> Min(l[c], cap[y][x][c]) <= p[c] <= Max(l[c], cap[y][x][c])
  {
    var p, l := Paste(cap, logo, top, left)[y][x], logo[y - top][x - left];
    assert |p| == 3 == |cap[y][x]| == |l[..3]|;
    if l[3] == 0 {
      assert forall c :: 0 <= c < 3 ==> p[c] == cap[y][x][c];
    }
    if l[3] == 255 {
      assert forall c :: 0 <= c < 3 ==> p[c] == l[..3][c];
    }
  }

  /** Length of the numpy slice `[offset : offset + n]` of an axis of length `total`. */
  function ClippedLength(total: nat, offset: nat, n: nat): (k: nat)
    ensures k <= n
  {
    if total <= offset then 0 else Min(n, total - offset)
  }

  /**
   * Whether a logo axis of length `n` can be assigned to that slice: numpy
   * broadcasting succeeds when the lengths agree or the logo's is 1. So the
   * paste goes through when the logo lies inside the cap along this axis, or
   * is a single pixel thick along it (a slice past the cap's edge is then
   * empty and nothing is written).
   */
  predicate SliceAssignable(total: nat, offset: nat, n: nat): (ok: bool)
    ensures ok <==> offset + n <= total || n <= 1
  {
    ClippedLength(total, offset, n) == n || n == 1
  }

  /** The in-place paste at (50, 50) succeeds: the logo has 3 or 4 channels and fits along both axes. */
  predicate Pastable(rows: nat, cols: nat, logo: Image): (ok: bool)
    ensures ok <==> && (Depth(logo) == 3 || Depth(logo) == 4)
                    && (Offset + Rows(logo) <= rows || Rows(logo) <= 1)
                    && (Offset + Cols(logo) <= cols || Cols(logo) <= 1)
  {
    && (Depth(logo) == 3 || Depth(logo) == 4)
    && SliceAssignable(rows, Offset, Rows(logo))
    && SliceAssignable(cols, Offset, Cols(logo))
  }

  /** The contents of a `rows x cols x channels` buffer. */
  ghost function Snapshot(a: array3<int>): (img: Image)
    reads a
    ensures |img| == a.Length0
    ensures forall y :: 0 <= y < a.Length0 ==> |img[y]| == a.Length1
    ensures forall y, x :: 0 <= y < a.Length0 && 0 <= x < a.Length1 ==> |img[y][x]| == a.Length2
    ensures forall y, x, c :: 0 <= y < a.Length0 && 0 <= x < a.Length1 && 0 <= c < a.Length2 ==> img[y][x][c] == a[y, x, c]
  {
    seq(a.Length0, y requires 0 <= y < a.Length0 reads a =>
      seq(a.Length1, x requires 0 <= x < a.Length1 reads a =>
        seq(a.Length2, c requires 0 <= c < a.Length2 reads a => a[y, x, c])))
  }

  predicate BytesIn(a: array3<int>)
    reads a
  {
    forall y, x, c :: 0 <= y < a.Length0 && 0 <= x < a.Length1 && 0 <= c < a.Length2 ==> IsByte(a[y, x, c])
  }

  lemma {:induction false} ImageExt(s: Image, t: Image, rows: nat, cols: nat, depth: nat)
    requires |s| == |t| == rows
    requires forall y :: 0 <= y < rows ==> |s[y]| == |t[y]| == cols
    requires forall y, x :: 0 <= y < rows && 0 <= x < cols ==> |s[y][x]| == |t[y][x]| == depth
    requires forall y, x, c :: 0 <= y < rows && 0 <= x < cols && 0 <= c < depth ==> s[y][x][c] == t[y][x][c]
    ensures s == t
  {
    forall y | 0 <= y < rows
      ensures s[y] == t[y]
    {
      forall x | 0 <= x < cols
        ensures s[y][x] == t[y][x]
      {
      }
    }
  }

  /**
   * `apply_logo` on the decoded cap buffer (`null` when OpenCV cannot read it)
   * and the resized logo (`None` when the logo file is unreadable or
   * `cv2.resize` rejects a width or height that is not positive). On success the buffer holds
   * the cap with the logo pasted at (50, 50); on failure it is untouched.
   */
  method ApplyLogo(cap: array3?<int>, logo: Option<Image>) returns (ok: bool)
    requires cap != null ==> cap.Length2 == 3 && BytesIn(cap)
    requires logo.Some? ==> Valid(logo.value)
    modifies cap
    ensures ok <==> cap != null && logo.Some? && Pastable(cap.Length0, cap.Length1, logo.value)
    ensures cap != null && ok ==> Snapshot(cap) == Paste(old(Snapshot(cap)), logo.value, Offset, Offset)
    ensures cap != null && !ok ==> Snapshot(cap) == old(Snapshot(cap))
  {
    if cap == null || logo.None? {
      return false;
    }
    var img := logo.value;
    if !Pastable(cap.Length0, cap.Length1, img) {
      return false;
    }
    ghost var before := Snapshot(cap);
    SnapshotShaped(cap);
    var y2, x2 := Min(cap.Length0, Offset + Rows(img)), Min(cap.Length1, Offset + Cols(img));
    if Depth(img) == 4 {
      BlendRect(cap, img, y2, x2, before);
    } else {
      CopyRect(cap, img, y2, x2, before);
    }
    PasteEqual(Snapshot(cap), before, img);
    ok := true;
  }

  lemma SnapshotShaped(a: array3<int>)
    requires a.Length2 == 3 && BytesIn(a)
    ensures Shaped(Snapshot(a), a.Length0, a.Length1, 3)
    ensures Rows(Snapshot(a)) == a.Length0 && (a.Length0 > 0 ==> Cols(Snapshot(a)) == a.Length1)
  {
  }

  /** The slice assignment that copies a 3-channel logo into the clipped rectangle. */
  method CopyRect(cap: array3<int>, img: Image, y2: nat, x2: nat, ghost before: Image)
    requires cap.Length2 == 3 && before == Snapshot(cap) && Shaped(before, cap.Length0, cap.Length1, 3)
    requires Valid(img) && Depth(img) == 3 && ClippedRect(cap, img, y2, x2)
    modifies cap
    ensures forall y, x, k :: 0 <= y < cap.Length0 && 0 <= x < cap.Length1 && 0 <= k < 3 ==>
      cap[y, x, k] == PasteAt(before, img, Offset, Offset, y, x)[k]
  {
    forall y, x, c | Offset <= y < y2 && Offset <= x < x2 && 0 <= c < 3 {
      cap[y, x, c] := img[y - Offset][x - Offset][c];
    }
  }

  /** The slice `cap[50:y2, 50:x2]` is the part of the logo's rectangle inside the cap. */
  predicate ClippedRect(cap: array3<int>, img: Image, y2: nat, x2: nat) {
    && y2 == Min(cap.Length0, Offset + Rows(img))
    && x2 == Min(cap.Length1, Offset + Cols(img))
  }

  /** The loop over colour channels that blends an RGBA logo into the clipped rectangle, one channel plane at a time. */
  method BlendRect(cap: array3<int>, img: Image, y2: nat, x2: nat, ghost before: Image)
    requires cap.Length2 == 3 && before == Snapshot(cap) && Shaped(before, cap.Length0, cap.Length1, 3)
    requires Valid(img) && Depth(img) == 4 && ClippedRect(cap, img, y2, x2)
    modifies cap
    ensures forall y, x, k :: 0 <= y < cap.Length0 && 0 <= x < cap.Length1 && 0 <= k < 3 ==>
      cap[y, x, k] == PasteAt(before, img, Offset, Offset, y, x)[k]
  {
    for c := 0 to 3
      invariant forall y, x, k :: 0 <= y < cap.Length0 && 0 <= x < cap.Length1 && 0 <= k < 3 ==>
        cap[y, x, k] == if k < c then PasteAt(before, img, Offset, Offset, y, x)[k] else before[y][x][k]
    {
      forall y, x | Offset <= y < y2 && Offset <= x < x2 {
        cap[y, x, c] := Blend(img[y - Offset][x - Offset][c], cap[y, x, c], img[y - Offset][x - Offset][3]);
      }
    }
  }

  /** A buffer that agrees with the paste pixel by pixel is the paste. */
  lemma {:induction false} PasteEqual(after: Image, before: Image, img: Image)
    requires Shaped(before, Rows(before), Cols(before), 3)
    requires Valid(img) && (Depth(img) == 3 || Depth(img) == 4)
    requires |after| == Rows(before)
    requires forall y :: 0 <= y < |after| ==> |after[y]| == Cols(before)
    requires forall y, x :: 0 <= y < |after| && 0 <= x < Cols(before) ==> |after[y][x]| == 3
    requires forall y, x, k :: 0 <= y < |after| && 0 <= x < Cols(before) && 0 <= k < 3 ==>
      after[y][x][k] == PasteAt(before, img, Offset, Offset, y, x)[k]
    ensures after == Paste(before, img, Offset, Offset)
  {
    var r := Paste(before, img, Offset, Offset);
    ImageExt(after, r, Rows(before), Cols(before), 3);
  }

  // ---------------------------------------------------------- spreadsheet rows

  /** The `columns` argument: column positions and display names, each optional. */
  datatype ColumnSpec = ColumnSpec(indices: Option<seq<int>>, names: Option<seq<string>>)

  /** What `fetch_key_value_table` raises: `IndexError` from `iloc`, `ValueError` from renaming the columns. */
  datatype TableError = ColumnOutOfRange(index: int) | NameCountMismatch(columns: nat, names: nat)

  /** A column position as `iloc` reads it: negative positions count from the end. */
  function ResolveColumn(i: int, ncols: nat): (r: Option<nat>)
    ensures r.Some? <==> 0 <= i + ncols && i < ncols
    ensures r.Some? ==> r.value < ncols && r.value as int == (if i < 0 then i + ncols else i)
  {
    if i < 0 then (if i + ncols < 0 then None else Some(i + ncols))
    else if i < ncols then Some(i) else None
  }

  /** All positions resolved, or the first one out of range. */
  function ResolveColumns(indices: seq<int>, ncols: nat): (r: Result<seq<nat>, TableError>)
    ensures r.Ok? <==> forall j :: 0 <= j < |indices| ==> ResolveColumn(indices[j], ncols).Some?
    ensures r.Ok? ==> |r.value| == |indices|
    ensures r.Ok? ==> forall j :: 0 <= j < |indices| ==> Some(r.value[j]) == ResolveColumn(indices[j], ncols)
    ensures r.Err? ==> r.error.ColumnOutOfRange? && ResolveColumn(r.error.index, ncols).None?
    ensures r.Err? ==> r.error.index in indices
  {
    if |indices| == 0 then Ok([])
    else match ResolveColumn(indices[0], ncols)
      case None => Err(ColumnOutOfRange(indices[0]))
      case Some(k) =>
        match ResolveColumns(indices[1..], ncols)
        case Err(e) => Err(e)
        case Ok(ks) => Ok([k] + ks)
  }

  /** The rows `df.iloc[start:stop]` keeps, as a half-open range `[lo, hi)`. */
  function RowRange(start: int, stop: Option<int>, n: nat): (r: (nat, nat))
    ensures r.0 <= r.1 <= n
  {
    var lo := SliceBound(start, n);
    var hi := if stop.None? then n else SliceBound(stop.value, n);
    (lo, Max(lo, hi))
  }

  /**
   * `fetch_key_value_table` on the sheet `pd.read_excel` returns (`header=None`,
   * so every row is data; `ncols` columns): rows `start:stop` with Python slice
   * semantics, each reduced to the chosen columns, by default the first two.
   */
  function FetchKeyValueTable<T>(sheet: seq<seq<T>>, ncols: nat, start: int, stop: Option<int>, columns: Option<ColumnSpec>)
    : (r: Result<seq<seq<T>>, TableError>)
    requires forall i :: 0 <= i < |sheet| ==> |sheet[i]| == ncols
    ensures var indices := Chosen(columns);
            r.Ok? <==> ResolveColumns(indices, ncols).Ok? && NameCount(columns) == |indices|
    ensures var range := RowRange(start, stop, |sheet|);
            r.Ok? ==> |r.value| == range.1 - range.0
    ensures var range := RowRange(start, stop, |sheet|);
            r.Ok? ==> forall i :: 0 <= i < range.1 - range.0 ==> |r.value[i]| == |Chosen(columns)|
    ensures var range := RowRange(start, stop, |sheet|);
            r.Ok? ==> forall i, j :: 0 <= i < range.1 - range.0 && 0 <= j < |Chosen(columns)| ==>
                        Some(r.value[i][j]) == Get(sheet[range.0 + i], Chosen(columns)[j])
  {
    var indices := Chosen(columns);
    var (lo, hi) := RowRange(start, stop, |sheet|);
    match ResolveColumns(indices, ncols)
    case Err(e) => Err(e)
    case Ok(ks) =>
      if NameCount(columns) != |indices| then Err(NameCountMismatch(|indices|, NameCount(columns)))
      else Ok(KeptCells(sheet, ncols, lo, hi, indices, ks))
  }

  /** The column positions asked for; `[0, 1]` when none are given. */
  function Chosen(columns: Option<ColumnSpec>): seq<int> {
    if columns.None? || columns.value.indices.None? then [0, 1] else columns.value.indices.value
  }

  /** How many display names were given; as many as the positions when none are. */
  function NameCount(columns: Option<ColumnSpec>): nat {
    if columns.None? || columns.value.names.None? then |Chosen(columns)| else |columns.value.names.value|
  }

  /** Rows `lo` to `hi` of the sheet, each reduced to the cells at the resolved positions `ks` of `indices`. */
  function KeptCells<T>(sheet: seq<seq<T>>, ncols: nat, lo: nat, hi: nat, indices: seq<int>, ks: seq<nat>): (r: seq<seq<T>>)
    requires lo <= hi <= |sheet| && forall i :: 0 <= i < |sheet| ==> |sheet[i]| == ncols
    requires |ks| == |indices| && forall j :: 0 <= j < |indices| ==> Some(ks[j]) == ResolveColumn(indices[j], ncols)
    ensures |r| == hi - lo
    ensures forall i :: 0 <= i < hi - lo ==> |r[i]| == |indices|
    ensures forall i, j :: 0 <= i < hi - lo && 0 <= j < |indices| ==> Some(r[i][j]) == Get(sheet[lo + i], indices[j])
  {
    assert forall j :: 0 <= j < |ks| ==> ks[j] < ncols by {
      forall j | 0 <= j < |ks| ensures ks[j] < ncols {
        assert Some(ks[j]) == ResolveColumn(indices[j], ncols);
      }
    }
    var r := seq(hi - lo, i requires 0 <= i < hi - lo => seq(|ks|, j requires 0 <= j < |ks| => sheet[lo + i][ks[j]]));
    assert forall i, j :: 0 <= i < hi - lo && 0 <= j < |indices| ==> Some(r[i][j]) == Get(sheet[lo + i], indices[j]) by {
      forall i, j | 0 <= i < hi - lo && 0 <= j < |indices|
        ensures Some(r[i][j]) == Get(sheet[lo + i], indices[j])
      {
        GetResolved(sheet[lo + i], indices[j]);
      }
    }
    r
  }

  /** Python indexing reads the cell `iloc` resolves the position to. */
  lemma GetResolved<T>(row: seq<T>, i: int)
    requires ResolveColumn(i, |row|).Some?
    ensures Get(row, i) == Some(row[ResolveColumn(i, |row|).value])
  {
  }

  /** `row[i]` as Python indexes a list: negative positions count from the end. */
  function Get<T>(row: seq<T>, i: int): (r: Option<T>)
    ensures r.Some? <==> 0 <= i + |row| && i < |row|
  {
    if 0 <= i < |row| then Some(row[i]) else if 0 <= i + |row| < |row| then Some(row[i + |row|]) else None
  }

  /** With the defaults (`start_row=0`, `end_row=None`, `columns=None`) every row comes back, its first two cells in order, and no header row is added or dropped. */
  lemma {:induction false} DefaultTable<T>(sheet: seq<seq<T>>, ncols: nat)
    requires ncols >= 2 && forall i :: 0 <= i < |sheet| ==> |sheet[i]| == ncols
    ensures var r := FetchKeyValueTable(sheet, ncols, 0, None, None);
            r.Ok? && |r.value| == |sheet| && forall i :: 0 <= i < |sheet| ==> r.value[i] == sheet[i][..2]
  {
    var r := FetchKeyValueTable(sheet, ncols, 0, None, None);
    assert ResolveColumn(0, ncols) == Some(0) && ResolveColumn(1, ncols) == Some(1);
    assert r.Ok?;
    forall i | 0 <= i < |sheet| ensures r.value[i] == sheet[i][..2] {
      assert Some(r.value[i][0]) == Get(sheet[i], 0);
      assert Some(r.value[i][1]) == Get(sheet[i], 1);
    }
  }

  // ------------------------------------------------------ paths and logo size

  const UploadDir := "uploads"
  const OutputDir := "outputs"

  /** `save_uploaded_file`: the copy's path `uploads/<basename>`, or `None` for a missing file (nothing copied). */
  function SaveUploadedFile(path: string, present: bool): (r: Option<string>)
    ensures r.Some? <==> present
    ensures r.Some? ==> r.value == UploadDir + "/" + Basename(path)
    ensures r.Some? ==> Basename(r.value) == Basename(path)
  {
    assert UploadDir[|UploadDir| - 1] == 's';
    JoinPlain(UploadDir, Basename(path));
    BasenameUnderDir(UploadDir, Basename(path));
    if present then Some(JoinPath(UploadDir, Basename(path))) else None
  }

  /** Pixels per centimetre at 96 DPI, as the scripts approximate it. */
  const PxPerCm: real := 37.8

  /** The logo size in centimetres and in pixels. */
  datatype LogoSize = LogoSize(wCm: real, hCm: real, wPx: int, hPx: int)

  /**
   * The size read in `main`: the parsed width and height in centimetres
   * (`None` when the input does not parse as two numbers) with pixels
   * `int(cm * 37.8)`; the fallback is 3 x 3 cm.
   */
  function LogoSizeFromInput(parsed: Option<(real, real)>): (s: LogoSize)
    ensures parsed.None? ==> s == LogoSize(3.0, 3.0, 113, 113)
    ensures parsed.Some? ==> s.wCm == parsed.value.0 && s.hCm == parsed.value.1
    ensures s.wCm >= 0.0 ==> s.wPx as real <= s.wCm * PxPerCm < s.wPx as real + 1.0
    ensures s.hCm >= 0.0 ==> s.hPx as real <= s.hCm * PxPerCm < s.hPx as real + 1.0
    ensures s.wCm < 0.0 ==> s.wPx as real - 1.0 < s.wCm * PxPerCm <= s.wPx as real
    ensures s.hCm < 0.0 ==> s.hPx as real - 1.0 < s.hCm * PxPerCm <= s.hPx as real
  {
    match parsed
    case None => LogoSize(3.0, 3.0, Trunc(3.0 * PxPerCm), Trunc(3.0 * PxPerCm))
    case Some((w, h)) => LogoSize(w, h, Trunc(w * PxPerCm), Trunc(h * PxPerCm))
  }

  /** One pass of a script's `main` loop up to the paste: the logo and cap paths it reads, the size, and the output path. */
  datatype Job = Job(logo: string, cap: string, size: LogoSize, outPath: string)

  /**
   * The derivations of one pass of `main`: a missing logo or cap restarts the
   * loop (`None`); otherwise both are copied to `uploads/` and the output goes
   * to `outputs/<stem of the cap's name>_with_logo.png`.
   */
  function MainStep(logoPath: string, logoExists: bool, capPath: string, capExists: bool, parsed: Option<(real, real)>)
    : (r: Option<Job>)
    ensures r.Some? <==> logoExists && capExists
    ensures r.Some? ==> r.value.logo == UploadDir + "/" + Basename(logoPath)
    ensures r.Some? ==> r.value.cap == UploadDir + "/" + Basename(capPath)
    ensures r.Some? ==> r.value.outPath == OutputDir + "/" + OutputName(capPath)
    ensures r.Some? ==> Stem(Basename(r.value.outPath)) == Stem(Basename(capPath)) + Suffix
    ensures r.Some? ==> r.value.size == LogoSizeFromInput(parsed)
  {
    match SaveUploadedFile(logoPath, logoExists)
    case None => None
    case Some(logo) =>
      match SaveUploadedFile(capPath, capExists)
      case None => None
      case Some(cap) =>
        assert OutputDir[|OutputDir| - 1] == 's';
        WithLogoPathShape(OutputDir, cap);
        Some(Job(logo, cap, LogoSizeFromInput(parsed), WithLogoPath(OutputDir, cap)))
  }
}
