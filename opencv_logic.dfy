/**
 * `apply_logo_realistic`: a logo is mapped onto four destination points of a cap
 * photo by a perspective warp and alpha-blended over the whole canvas.
 * The perspective solve and the resampling are OpenCV's and enter as `warp`.
 */
module OpencvLogic {
  import opened Wrappers
  import opened Raster

  /** A point in pixel coordinates, x to the right and y downward. */
  datatype Point = Point(x: real, y: real)

  /**
   * What `cv2.warpPerspective(img, getPerspectiveTransform(src, dest), (width, height))`
   * returns: foreign code, so the model takes it as a parameter.
   */
  type Warp = (seq<Point>, seq<Point>, Image, nat, nat) -> Image

  /** The colour planes of a logo and its opacity plane (one channel). */
  datatype Layers = Layers(rgb: Image, alpha: Image)

  /** The image written to `path`. */
  datatype Written = Written(path: string, image: Image)

  /** Twice the signed turn of `a -> b -> c`: positive for a clockwise turn on screen (y grows downward). */
  function Turn(a: Point, b: Point, c: Point): real {
    (b.x - a.x) * (c.y - b.y) - (b.y - a.y) * (c.x - b.x)
  }

  /** Every corner of the quad turns the same way, clockwise on screen: a convex quad listed clockwise. */
  predicate Clockwise(q: seq<Point>)
    requires |q| == 4
  {
    && Turn(q[0], q[1], q[2]) > 0.0
    && Turn(q[1], q[2], q[3]) > 0.0
    && Turn(q[2], q[3], q[0]) > 0.0
    && Turn(q[3], q[0], q[1]) > 0.0
  }

  /**
   * The source corners of the perspective solve: the logo's own rectangle, `w`
   * columns wide and `h` rows high, listed top-left, top-right, bottom-right,
   * bottom-left, i.e. clockwise on screen.
   */
  function SourceQuad(w: nat, h: nat): (q: seq<Point>)
    ensures |q| == 4
    ensures q[0] == Point(0.0, 0.0)
    ensures q[0].y == q[1].y < q[2].y == q[3].y || h == 0
    ensures q[0].x == q[3].x < q[1].x == q[2].x || w == 0
    ensures q[2] == Point(w as real, h as real)
    ensures w > 0 && h > 0 ==> Clockwise(q)
  {
    var wr, hr := w as real, h as real;
    assert w > 0 && h > 0 ==> wr * hr > 0.0;
    [Point(0.0, 0.0), Point(wr, 0.0), Point(wr, hr), Point(0.0, hr)]
  }

  /** `np.ones((h, w), dtype=np.uint8) * 255`: a fully opaque single-channel plane. */
  function OpaquePlane(rows: nat, cols: nat): (p: Image)
    ensures Shaped(p, rows, cols, 1)
    ensures forall y, x :: 0 <= y < rows && 0 <= x < cols ==> p[y][x] == [255]
  {
    seq(rows, y => seq(cols, x => [255]))
  }

  /** Colour from channels 0-2 and opacity from channel 3 of an RGBA logo; any other logo is its own colour and fully opaque. */
  function SplitLogo(logo: Image): (r: Layers)
    requires Valid(logo)
    ensures Shaped(r.alpha, Rows(logo), Cols(logo), 1)
    ensures Depth(logo) == 4 ==> Shaped(r.rgb, Rows(logo), Cols(logo), 3)
    ensures Depth(logo) == 4 ==>
      forall y, x :: 0 <= y < Rows(logo) && 0 <= x < Cols(logo) ==>
        r.rgb[y][x] == logo[y][x][..3] && r.alpha[y][x] == [logo[y][x][3]]
    ensures Depth(logo) != 4 ==> r.rgb == logo
    ensures Depth(logo) != 4 ==>
      forall y, x :: 0 <= y < Rows(logo) && 0 <= x < Cols(logo) ==> r.alpha[y][x] == [255]
  {
    var rows, cols := Rows(logo), Cols(logo);
    if Depth(logo) == 4 then
      Layers(
        seq(rows, y requires 0 <= y < rows => seq(cols, x requires 0 <= x < cols => logo[y][x][..3])),
        seq(rows, y requires 0 <= y < rows => seq(cols, x requires 0 <= x < cols => [logo[y][x][3]])))
    else
      Layers(logo, OpaquePlane(rows, cols))
  }

  /** The warped colour and opacity planes, both resampled onto the cap's canvas with the same transform. */
  function WarpLayers(cap: Image, logo: Image, dest: seq<Point>, warp: Warp): (r: Layers)
    requires Valid(logo)
    ensures var q := SourceQuad(Cols(logo), Rows(logo));
            r.rgb == warp(q, dest, SplitLogo(logo).rgb, Cols(cap), Rows(cap))
    ensures var q := SourceQuad(Cols(logo), Rows(logo));
            r.alpha == warp(q, dest, SplitLogo(logo).alpha, Cols(cap), Rows(cap))
    ensures var q := SourceQuad(Cols(logo), Rows(logo));
            Depth(logo) != 4 ==> r.rgb == warp(q, dest, logo, Cols(cap), Rows(cap))
    ensures var q := SourceQuad(Cols(logo), Rows(logo));
            Depth(logo) != 4 ==> r.alpha == warp(q, dest, OpaquePlane(Rows(logo), Cols(logo)), Cols(cap), Rows(cap))
  {
    var split := SplitLogo(logo);
    var src := SourceQuad(Cols(logo), Rows(logo));
    Layers(warp(src, dest, split.rgb, Cols(cap), Rows(cap)), warp(src, dest, split.alpha, Cols(cap), Rows(cap)))
  }

  /** `cv2.cvtColor(mask, COLOR_GRAY2BGR)`: the single opacity channel repeated three times. */
  function GrayToBgr(mask: Image, rows: nat, cols: nat): (r: Image)
    requires Shaped(mask, rows, cols, 1)
    ensures Shaped(r, rows, cols, 3)
    ensures forall y, x, c :: 0 <= y < rows && 0 <= x < cols && 0 <= c < 3 ==> r[y][x][c] == mask[y][x][0]
  {
    seq(rows, y requires 0 <= y < rows =>
      seq(cols, x requires 0 <= x < cols => [mask[y][x][0], mask[y][x][0], mask[y][x][0]]))
  }

  /** Channel-wise blend of `fg` over `bg` with a per-channel opacity `mask`. */
  function BlendPlanes(fg: Image, bg: Image, mask: Image, rows: nat, cols: nat): (r: Image)
    requires Shaped(fg, rows, cols, 3) && Shaped(bg, rows, cols, 3) && Shaped(mask, rows, cols, 3)
    ensures Shaped(r, rows, cols, 3)
    ensures forall y, x, c :: 0 <= y < rows && 0 <= x < cols && 0 <= c < 3 ==>
      r[y][x][c] == Blend(fg[y][x][c], bg[y][x][c], mask[y][x][c])
  {
    seq(rows, y requires 0 <= y < rows =>
      seq(cols, x requires 0 <= x < cols =>
        seq(3, c requires 0 <= c < 3 => Blend(fg[y][x][c], bg[y][x][c], mask[y][x][c]))))
  }

  /** The warped logo blended over the whole cap, every colour channel of a pixel weighted by that pixel's one opacity value. */
  function Composite(cap: Image, layers: Layers): (r: Image)
    requires Shaped(cap, Rows(cap), Cols(cap), 3)
    requires Shaped(layers.rgb, Rows(cap), Cols(cap), 3) && Shaped(layers.alpha, Rows(cap), Cols(cap), 1)
    ensures Shaped(r, Rows(cap), Cols(cap), 3)
    ensures forall y, x, c :: 0 <= y < Rows(cap) && 0 <= x < Cols(cap) && 0 <= c < 3 ==>
      r[y][x][c] == Blend(layers.rgb[y][x][c], cap[y][x][c], layers.alpha[y][x][0])
  {
    BlendPlanes(layers.rgb, cap, GrayToBgr(layers.alpha, Rows(cap), Cols(cap)), Rows(cap), Cols(cap))
  }

  /**
   * Whether the pipeline runs to the end: four destination points (otherwise the
   * perspective solve raises), a logo with a channel axis (OpenCV decodes a
   * grayscale file as a 2-D array, and `shape[2]` raises), and warped planes of
   * the cap's size with 3 colour channels and 1 opacity channel (otherwise the
   * numpy blend raises).
   */
  predicate Accepts(cap: Image, logo: Image, dest: seq<Point>, warp: Warp): (ok: bool)
    requires Valid(logo)
    ensures ok ==> |dest| == 4 && Depth(logo) != 1
    ensures ok ==> var layers := WarpLayers(cap, logo, dest, warp);
                   |layers.rgb| == |layers.alpha| == Rows(cap) && Cols(layers.rgb) == Cols(layers.alpha) == Cols(cap)
  {
    var layers := WarpLayers(cap, logo, dest, warp);
    && |dest| == 4
    && Depth(logo) != 1
    && Shaped(layers.rgb, Rows(cap), Cols(cap), 3)
    && Shaped(layers.alpha, Rows(cap), Cols(cap), 1)
  }

  /**
   * `apply_logo_realistic(cap_path, logo_path, dest_points, out_path)`, with the
   * two decoded images given (`None` for a file OpenCV cannot read). The result
   * is the image written and the path returned, or `None` when nothing is written.
   */
  function ApplyLogoRealistic(cap: Option<Image>, logo: Option<Image>, dest: seq<Point>, warp: Warp, outPath: string): (r: Option<Written>)
    requires cap.Some? ==> Shaped(cap.value, Rows(cap.value), Cols(cap.value), 3)
    requires logo.Some? ==> Valid(logo.value)
    ensures r.Some? <==> cap.Some? && logo.Some? && Accepts(cap.value, logo.value, dest, warp)
    ensures r.Some? ==> r.value.path == outPath
    ensures r.Some? ==> Shaped(r.value.image, Rows(cap.value), Cols(cap.value), 3)
    ensures r.Some? ==>
      var layers := WarpLayers(cap.value, logo.value, dest, warp);
      forall y, x, c :: 0 <= y < Rows(cap.value) && 0 <= x < Cols(cap.value) && 0 <= c < 3 ==>
        r.value.image[y][x][c] == Blend(layers.rgb[y][x][c], cap.value[y][x][c], layers.alpha[y][x][0])
  {
    if cap.None? || logo.None? then None
    else if !Accepts(cap.value, logo.value, dest, warp) then None
    else Some(Written(outPath, Composite(cap.value, WarpLayers(cap.value, logo.value, dest, warp))))
  }

  /**
   * Where the warped opacity is 255 the written pixel is the warped logo pixel;
   * where it is 0 (everything outside the warped quad) it is the cap pixel.
   */
  lemma {:induction false} MaskExtremes(cap: Image, logo: Image, dest: seq<Point>, warp: Warp, outPath: string, y: nat, x: nat)
    requires Shaped(cap, Rows(cap), Cols(cap), 3) && Valid(logo)
    requires Accepts(cap, logo, dest, warp)
    requires y < Rows(cap) && x < Cols(cap)
    ensures var out := ApplyLogoRealistic(Some(cap), Some(logo), dest, warp, outPath).value.image;
            var layers := WarpLayers(cap, logo, dest, warp);
            && (layers.alpha[y][x][0] == 255 ==> out[y][x] == layers.rgb[y][x])
            && (layers.alpha[y][x][0] == 0 ==> out[y][x] == cap[y][x])
  {
    var out := ApplyLogoRealistic(Some(cap), Some(logo), dest, warp, outPath).value.image;
    var layers := WarpLayers(cap, logo, dest, warp);
    assert |out[y][x]| == 3 == |layers.rgb[y][x]| == |cap[y][x]|;
    if layers.alpha[y][x][0] == 255 {
      assert forall c :: 0 <= c < 3 ==> out[y][x][c] == layers.rgb[y][x][c];
    }
    if layers.alpha[y][x][0] == 0 {
      assert forall c :: 0 <= c < 3 ==> out[y][x][c] == cap[y][x][c];
    }
  }
}
