/**
 * Pixel buffers as OpenCV hands them out (numpy arrays of `uint8`), and the
 * alpha "over" blend that both compositing routines apply to them.
 */
module Raster {

  /** One pixel: its channel values in OpenCV order (B, G, R and, for a logo with transparency, A). */
  type Pixel = seq<int>

  /** An image indexed as `img[y][x][c]`: rows, then columns, then channels. */
  type Image = seq<seq<Pixel>>

  predicate IsByte(v: int) {
    0 <= v <= 255
  }

  predicate IsPixel(p: Pixel, depth: nat) {
    |p| == depth && forall c :: 0 <= c < depth ==> IsByte(p[c])
  }

  /** `img` is a `rows` x `cols` x `depth` array of 8-bit values. */
  predicate Shaped(img: Image, rows: nat, cols: nat, depth: nat) {
    && |img| == rows
    && forall y :: 0 <= y < rows ==>
         |img[y]| == cols && forall x :: 0 <= x < cols ==> IsPixel(img[y][x], depth)
  }

  /** `shape[0]`: the number of rows. */
  function Rows(img: Image): nat {
    |img|
  }

  /** `shape[1]`: the number of columns. */
  function Cols(img: Image): nat {
    if |img| == 0 then 0 else |img[0]|
  }

  /** `shape[2]`: the number of channels. */
  function Depth(img: Image): nat {
    if Cols(img) == 0 then 0 else |img[0][0]|
  }

  /** A rectangular 8-bit buffer, as every image OpenCV decodes is. */
  predicate Valid(img: Image) {
    Shaped(img, Rows(img), Cols(img), Depth(img))
  }

  function Min(a: int, b: int): int {
    if a <= b then a else b
  }

  function Max(a: int, b: int): int {
    if a <= b then b else a
  }

  /**
   * The "over" operator on one 8-bit channel: foreground `fg` with opacity `a`
   * (0 transparent, 255 opaque) over background `bg`, computed exactly and
   * truncated back to a byte.
   */
  function Blend(fg: int, bg: int, a: int): (r: int)
    requires IsByte(fg) && IsByte(bg) && IsByte(a)
    ensures IsByte(r)
    ensures a == 0 ==> r == bg
    ensures a == 255 ==> r == fg
    ensures Min(fg, bg) <= r <= Max(fg, bg)
  {
    BlendWeightedSumBetween(fg, bg, a);
    (a * fg + (255 - a) * bg) / 255
  }

  lemma MulMonotone(k: int, u: int, v: int)
    requires 0 <= k && u <= v
    ensures k * u <= k * v
  {
    assert k * v - k * u == k * (v - u);
  }

  /** The weighted sum lies between 255 times the smaller and 255 times the larger input. */
  lemma BlendWeightedSumBetween(fg: int, bg: int, a: int)
    requires IsByte(fg) && IsByte(bg) && IsByte(a)
    ensures 255 * Min(fg, bg) <= a * fg + (255 - a) * bg <= 255 * Max(fg, bg)
  {
    var lo, hi := Min(fg, bg), Max(fg, bg);
    MulMonotone(a, lo, fg);
    MulMonotone(a, fg, hi);
    MulMonotone(255 - a, lo, bg);
    MulMonotone(255 - a, bg, hi);
  }

  /** For an integer `n`, the real quotient `n / 255` has floor `n / 255` in integer division. */
  lemma FloorOfQuotient(n: int)
    ensures (n as real / 255.0).Floor == n / 255
  {
    var q, m := n / 255, n % 255;
    assert n == 255 * q + m && 0 <= m < 255;
    assert n as real / 255.0 == q as real + m as real / 255.0;
  }

  /**
   * `Blend` is what `ai_part.apply_logo` stores: `alpha * logo + (1 - alpha) * cap`
   * with `alpha = a / 255`, evaluated exactly and truncated by the assignment into
   * the `uint8` buffer (the value is never negative, so truncation is the floor).
   */
  lemma {:induction false} BlendIsTruncatedOver(fg: int, bg: int, a: int)
    requires IsByte(fg) && IsByte(bg) && IsByte(a)
    ensures Blend(fg, bg, a) == ((a as real / 255.0) * fg as real + (1.0 - a as real / 255.0) * bg as real).Floor
  {
    var n := a * fg + (255 - a) * bg;
    calc {
      (a as real / 255.0) * fg as real + (1.0 - a as real / 255.0) * bg as real;
      (a as real * fg as real + (255.0 - a as real) * bg as real) / 255.0;
      n as real / 255.0;
    }
    FloorOfQuotient(n);
  }

  /**
   * `Blend` is also what `opencv_logic.apply_logo_realistic` stores: with every
   * channel scaled to [0, 1], `(l * m + c * (1 - m)) * 255`, evaluated exactly and
   * truncated by `astype(np.uint8)`.
   */
  lemma {:induction false} BlendIsScaledOver(fg: int, bg: int, a: int)
    requires IsByte(fg) && IsByte(bg) && IsByte(a)
    ensures Blend(fg, bg, a) ==
      (((fg as real / 255.0) * (a as real / 255.0) + (bg as real / 255.0) * (1.0 - a as real / 255.0)) * 255.0).Floor
  {
    var n := a * fg + (255 - a) * bg;
    calc {
      ((fg as real / 255.0) * (a as real / 255.0) + (bg as real / 255.0) * (1.0 - a as real / 255.0)) * 255.0;
      (a as real * fg as real + (255.0 - a as real) * bg as real) / 255.0;
      n as real / 255.0;
    }
    FloorOfQuotient(n);
  }
}
