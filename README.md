# Logo compositing for cap tech packs — a verified Dafny model

The repository previews a logo on a photo of a cap and assembles a "tech pack"
report. Its own logic is the pixel arithmetic that puts the logo on the cap,
plus a few small derivations around that blend:

- `opencv_logic.py`, `apply_logo_realistic`: OpenCV warps the logo onto four
  destination points. The warped logo is then blended over the whole cap
  canvas, using the warped alpha plane as the opacity.
- `ai_part.py`, `apply_logo`: the logo is pasted in place at row 50, column 50
  of the cap's pixel buffer. An RGBA logo is alpha-blended, a 3-channel logo
  is copied verbatim, and any other logo makes the call fail.
- Helpers around these:
  - the spreadsheet projection `fetch_key_value_table`;
  - the `uploads/` and `outputs/` path derivations;
  - the 3 × 3 cm size fallback;
  - from `ai_part2.py`: the report's rows of two images, the click-centred
    paste position, the `output1/` path and the plain-text summary.

Modules, one per source file plus shared helpers:

| file | module | models |
|---|---|---|
| `raster.dfy` | `Raster` | 8-bit images as `img[y][x][c]`, and the one blend `Blend` both routines use |
| `pyops.dfy` | `PyOps` | Python `int()` on floats, slice bounds, `str.join`/`str.split`, flattening |
| `paths.dfy` | `Paths`, `OutputNaming` | `os.path.basename`, `os.path.join`, `os.path.splitext`, and the `<stem>_with_logo.png` naming |
| `opencv_logic.dfy` | `OpencvLogic` | `apply_logo_realistic`, as pure functions |
| `ai_part.dfy` | `AiPart` | `apply_logo` as a method updating an `array3` in place; the table, paths and sizes as functions |
| `ai_part2.dfy` | `AiPart2` | the row packing as a loop method; centring, paths and summary as functions |
| `wrappers.dfy` | `Wrappers` | `Option`, `Result` |

The blend is stated in exact arithmetic: `floor((a·fg + (255−a)·bg) / 255)`.
Two lemmas show that this equals each source formula, evaluated exactly and
truncated to a byte.

The perspective transform and the resampling are OpenCV calls. The model takes
them as a function parameter `warp`, which is given the source quad, the
destination points, the plane to warp and the canvas size.

## Model

| member | source | states |
|---|---|---|
| `Raster.Blend` | opencv_logic.py:41-43 | the blended byte is in 0..255; opacity 0 gives the background, 255 gives the foreground; the result always lies between the two inputs |
| `Raster.BlendIsTruncatedOver` | ai_part.py:60-64 | `Blend` equals `trunc(alpha·logo + (1−alpha)·cap)` with `alpha = a/255`, evaluated exactly |
| `Raster.BlendIsScaledOver` | opencv_logic.py:36-43 | `Blend` equals `trunc(255·(l/255·m/255 + c/255·(1−m/255)))`, evaluated exactly |
| `PyOps.Trunc` | ai_part2.py:126 | Python `int()` truncates toward zero: the result is within 1 of the value, on the zero side |
| `PyOps.SliceBound` | ai_part.py:97 | a slice bound counts from the end when negative and is clamped to `[0, n]` |
| `PyOps.Join` | ai_part2.py:53-56 | `"\n".join(parts)`: empty for no parts; otherwise the text starts with the first part, followed by the separator when there is a second one, and ends with the last part |
| `PyOps.Split` | ai_part2.py:53-58 | `str.split` with a one-character separator gives at least one piece, and no piece contains the separator |
| `PyOps.JoinSplit` | ai_part2.py:53-58 | joining the pieces of a split with the same separator gives back the string, so the pieces are exactly the text between separators |
| `PyOps.Flatten` | ai_part2.py:177-200 | the concatenation of rows starts with the first row; rows of two cells give twice as many cells as rows |
| `PyOps.SplitJoin` | ai_part2.py:53-58 | splitting a newline join gives back the joined lines, in order, when none contains a newline |
| `Paths.Basename` | ai_part.py:35 | the base name contains no '/', is a suffix of the path, and is preceded by a '/' whenever it is shorter than the path |
| `Paths.JoinPath` | ai_part.py:35 | an absolute second component replaces the directory |
| `Paths.LastIndex` | ai_part.py:250 | the position of the last occurrence of the character (`str.rfind`), or -1; no later position holds it |
| `Paths.Stem` | ai_part.py:250 | the stem is a prefix of the name; when it is shorter, the cut is at the last '.', and a non-dot character precedes that '.' |
| `Paths.BasenameUnderDir` | ai_part.py:35 | a file copied to `dir/<name>` keeps its base name |
| `Paths.BasenameOfJoin` | ai_part.py:35 | `os.path.join(dir, name)` has base name `name` for any directory, empty or ending in '/' included, when `name` has no '/' |
| `OutputNaming.OutputName` | ai_part.py:248-251 | the output file name has no '/', ends in `_with_logo.png`, and what precedes that is the stem of the cap's base name |
| `OutputNaming.WithLogoPath` | ai_part2.py:240 | whatever the directory, the output path's base name is `OutputName(cap)` |
| `OutputNaming.WithLogoPathShape` | ai_part.py:248-251 | the output is `dir/<stem>_with_logo.png` and its base name is `<stem>_with_logo.png`; splitting its extension off gives back `<stem>_with_logo`, whatever dots the stem holds |
| `OpencvLogic.SourceQuad` | opencv_logic.py:19-20 | the source corners are the logo's rectangle, `w` columns by `h` rows: top-left at the origin, then top-right, bottom-right, bottom-left, turning clockwise on screen at every corner |
| `OpencvLogic.SplitLogo` | opencv_logic.py:24-30 | a 4-channel logo gives colour from channels 0-2 and opacity from channel 3; any other logo is its own colour with opacity 255 everywhere |
| `OpencvLogic.OpaquePlane` | opencv_logic.py:30 | the all-opaque plane is `h` × `w` × 1 with every value 255 |
| `OpencvLogic.WarpLayers` | opencv_logic.py:19-34 | for every logo, the colour plane (channels 0-2 of an RGBA logo, else the logo) and the opacity plane (channel 3, else the all-opaque plane) are warped with the same source quad, the logo's own rectangle, and the same destination, onto a canvas of the cap's width and height |
| `OpencvLogic.Accepts` | opencv_logic.py:19-41 | acceptance needs exactly four destination points (the perspective solve raises otherwise), a channel axis on the logo (`shape[2]`), and warped colour and opacity planes of the cap's height and width (the blend broadcasts otherwise) |
| `OpencvLogic.GrayToBgr` | opencv_logic.py:36 | every output channel is the one mask value of that pixel |
| `OpencvLogic.BlendPlanes` | opencv_logic.py:38-43 | each output channel is the blend of the same channel of logo and cap, weighted by that channel's mask |
| `OpencvLogic.Composite` | opencv_logic.py:32-43 | the output has the cap's height and width; each of its 3 channels is `Blend(logo, cap, alpha)`, with one alpha value per pixel |
| `OpencvLogic.ApplyLogoRealistic` | opencv_logic.py:6-50 | returns `out_path` with the composite exactly when both images were read, there are four destination points, the logo has a channel axis, and the warped planes have the cap's size; otherwise `None` and nothing is written |
| `OpencvLogic.MaskExtremes` | opencv_logic.py:41-43 | where the warped opacity is 255 the output is the warped logo pixel; where it is 0 the output is the cap pixel |
| `AiPart.Paste` | ai_part.py:53-66 | pixels outside the logo's rectangle at (top, left) are unchanged; inside it, an RGBA logo is blended over channels 0-2 with channel 3 as opacity, and a 3-channel logo is copied verbatim |
| `AiPart.PasteAt` | ai_part.py:55-66 | the pasted pixel at (y, x) is the cap's own pixel outside the logo's rectangle, and the pasted logo pixel inside it |
| `AiPart.PastePixel` | ai_part.py:59-66 | one pasted pixel: the logo's colour for a 3-channel logo, the per-channel blend for an RGBA logo |
| `AiPart.PasteAlphaExtremes` | ai_part.py:59-64 | under RGBA opacity 0 the cap pixel is unchanged; under 255 it becomes the logo colour; otherwise each channel lies between the cap's and the logo's |
| `AiPart.ClippedLength` | ai_part.py:55-56 | a numpy slice never exceeds the requested length |
| `AiPart.SliceAssignable` | ai_part.py:55-66 | the slice assignment succeeds exactly when the logo fits inside the cap from offset 50 along that axis, or is at most one pixel thick along it |
| `AiPart.Pastable` | ai_part.py:55-66 | the paste succeeds exactly when the logo has 3 or 4 channels and, along each axis, either ends inside the cap when placed at 50 or is at most one pixel thick |
| `AiPart.ApplyLogo` | ai_part.py:40-73 | returns true exactly when both images loaded, the logo has 3 or 4 channels and it fits; the cap buffer is then `Paste(old buffer, logo, 50, 50)`; on false the buffer is untouched |
| `AiPart.BlendRect` | ai_part.py:59-64 | after the loop over channels 0-2, every channel of every pixel of the buffer equals the paste of the RGBA logo onto the buffer as it was before |
| `AiPart.CopyRect` | ai_part.py:65-66 | after the slice assignment, every channel of every pixel equals the paste of the 3-channel logo onto the buffer as it was before |
| `AiPart.ResolveColumn` | ai_part.py:106 | a column position is valid exactly in `[-ncols, ncols)`; a negative one counts from the end |
| `AiPart.ResolveColumns` | ai_part.py:106 | every position resolved, in order, or an error naming one position that is out of range |
| `AiPart.RowRange` | ai_part.py:97 | the kept rows form a range `lo <= hi <= n` |
| `AiPart.FetchKeyValueTable` | ai_part.py:90-108 | the result has one row per sheet row in the Python slice `start:stop`; each row has exactly as many cells as columns were chosen (none for an empty list) and holds them in order, default `[0, 1]`; an error is returned exactly when a column is out of range or the names are the wrong number |
| `AiPart.Get` | ai_part.py:106 | Python list indexing: defined exactly for positions in `[-len, len)` |
| `AiPart.DefaultTable` | ai_part.py:99-101 | with the defaults, every sheet row comes back as its first two cells, with no header added or dropped |
| `AiPart.SaveUploadedFile` | ai_part.py:30-37 | an existing file's copy is at `uploads/<basename>` and keeps its base name; a missing file gives `None` |
| `AiPart.LogoSizeFromInput` | ai_part.py:237-244 | unparsable input falls back to 3 × 3 cm and 113 × 113 px; otherwise pixels are `cm · 37.8` truncated toward zero |
| `AiPart.MainStep` | ai_part.py:225-251 | a missing logo or cap yields no job; otherwise both are under `uploads/`, the size is the one `LogoSizeFromInput` derives from the typed input, and the output is `outputs/<stem of the original cap name>_with_logo.png` |
| `AiPart2.PackRows` | ai_part2.py:177-200 | concatenating the rows gives back the cells in order; there are ⌈n/2⌉ rows; each has 2 cells, except that the last has 1 exactly when n is odd |
| `AiPart2.CentredStart` | ai_part2.py:126 | `int(c − n/2)` is `c − n div 2`, minus one more when `n` is odd and `c − n/2` is positive |
| `AiPart2.PastePosition` | ai_part2.py:124-126 | the logo's centre lands within half a pixel of the click, in both axes |
| `AiPart2.PlaceLogo` | ai_part2.py:118-132 | no click gives `None`: the cap, already shown for the click, is not opened for compositing and nothing is saved; a click gives the paste at exactly `(int(cx − w/2), int(cy − h/2))`, centred within half a pixel, saved to `out_path` |
| `AiPart2.MainStep` | ai_part2.py:217-240 | a missing logo or cap yields no job; otherwise the output is `output1/<stem of the cap name>_with_logo.png`, with the same size fallback as `ai_part.py:241-244` |
| `AiPart2.SummaryLine` | ai_part2.py:54 | an item's line starts with `- `, the image's base name and `: `, ends with ` cm`; its length is that of the base name and the other three fields plus the 11 separator characters |
| `AiPart2.SummaryLines` | ai_part2.py:53-56 | one summary line per item, in order |
| `AiPart2.Summary` | ai_part2.py:50-58 | no items give "No items were processed."; with no client the text starts with "Report summary:\n"; with a client, it is the client's reply |
| `AiPart2.SummaryListsEveryItem` | ai_part2.py:53-58 | without a client, the text after the heading splits at newlines into exactly one `- …` line per item, in order |

## Left out

- Homography and warping (`cv2.getPerspectiveTransform`, `cv2.warpPerspective`, opencv_logic.py:22, 32, 34) are foreign code. They enter as the `warp` parameter. A warp result of the wrong shape leads to `None`, which is the numpy broadcasting error in the source.
- Float rounding: every blend is modelled in exact arithmetic. The source computes in float32 (opencv_logic.py:36-43) or float64 (ai_part.py:60-64). In opencv_logic.py the `/255 … *255` round trip can truncate an unchanged pixel to one below, for example under opacity 0 or 255. The model does not capture this. In ai_part.py there is no such round trip, and opacity 0 or 255 gives an exact result.
- `Raster.Blend`: the result is the exact-arithmetic value. It can be one above what the source's float computation truncates to.
- `AiPart.LogoSizeFromInput`: `cm · 37.8` is evaluated in reals. `inf` and `nan` (which make `int()` raise and so take the fallback) are not representable. Float products that land just below an integer are not captured.
- Image I/O: `cv2.imread`, `cv2.imwrite`, `cv2.resize`, and PIL `open`/`resize`/`paste`/`save`. Decoded images are inputs (`None`/`null` for an unreadable file). The resized logo is an input. The written image is the result.
- `AiPart.ApplyLogo`: `cv2.resize` (ai_part.py:51) raises for a width or height that is 0 or negative, which `int(cm · 37.8)` gives for inputs such as `0 3` or `-1 2`. The source then returns `False` (ai_part.py:71-73). The model has no size parameter: such a failed resize is passed as `logo == None`, which gives `false` as the source does. In ai_part2.py, PIL's `resize` (ai_part2.py:99, reached from line 119 before the click) raises an uncaught `ValueError` for such a size, so `main` stops there and never reaches the placement that `AiPart2.PlaceLogo` models.
- `cv2.imwrite`: its return value is ignored by the source, so a write that merely fails still reports success, and so does the model. An `out_path` without an image extension OpenCV knows makes `imwrite` raise, which the source turns into `None` (opencv_logic.py:48-50) or `False` (ai_part.py:71-73). The model assumes `outPath` has a writable image extension, as every caller's `.png` path has.
- `AiPart.SaveUploadedFile`: `shutil.copy` failures are not modelled. Examples are copying a file that is already at `uploads/<name>` (`SameFileError`) and copying a directory (`IsADirectoryError`). `main` does not catch these, so the script stops. The model instead returns the destination path, and `MainStep` goes on to build a job.
- Grayscale files: OpenCV decodes them as 2-D arrays, which have no channel axis. The model represents such a logo as a 1-channel image and sends it down the failure path that `shape[2]` takes in the source.
- `pd.read_excel` is not modelled. The sheet is given as rows of `ncols` cells. The column names are checked only for their count, because `values.tolist()` drops them.
- OpenAI calls and their prompts (ai_part.py:76-88; ai_part2.py:16-94) are not modelled. With a client, the summary is the reply passed in. The exception fallback (ai_part2.py:77-78) is not modelled. `ai_generate_description` is not modelled either.
- `str()` of the float sizes in the summary is not modelled: each size is given as its text.
- ReportLab PDF assembly and the aspect-fit sizing of images are float layout (ai_part.py:111-197; ai_part2.py:135-211). Only the packing into rows is modelled, over already-built cells.
- Matplotlib click capture (ai_part2.py:101-116) is UI event handling. The click arrives as an `Option`.
- The interactive `main` loops are not modelled as loops: only one pass's derivations are, as `MainStep`. In `ai_part.py`, `main` calls an undefined `ai_ask` (line 206) and uses an undefined `out_dir` (line 271).
- `app.py` is Streamlit UI and session state. It only passes the first four points of the last drawn path as `dest_points`.
- The commented-out grid-bending code in opencv_logic.py:53-160 is dead code.
- The `st.error` and `print` messages are not modelled.
