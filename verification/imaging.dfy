/** Depth maps and the per-pixel arithmetic that produces them. The capture
    libraries hand over a frame of 8-bit channel values; every program then
    averages the channels, divides by 255 and optionally inverts. Blurring,
    colour conversion and the capture itself are library work and are taken
    as given: their output is a depth map. */
module Imaging {
  import opened Wrappers
  import opened Numeric
  import opened Geometry

  /** Multiplier from depth to elevation in the plugin and the scripts. */
  const ELEVATION_SCALE: real := 0.5

  /** Every 16th row and column of the frame is kept by the scripts. */
  const DOWNSAMPLE_FACTOR: nat := 16

  predicate InUnit(x: real) {
    0.0 <= x <= 1.0
  }

  /** A non-empty rectangular grid, indexed `[row][column]`. */
  predicate Rectangular<T>(g: seq<seq<T>>) {
    && |g| > 0
    && |g[0]| > 0
    && forall i :: 0 <= i < |g| ==> |g[i]| == |g[0]|
  }

  /** A depth map: a rectangular grid of values in [0, 1]. */
  predicate IsDepthMap(dm: seq<seq<real>>) {
    && Rectangular(dm)
    && forall i, j :: 0 <= i < |dm| && 0 <= j < |dm[i]| ==> InUnit(dm[i][j])
  }

  function Sum(xs: seq<int>): int
    decreases |xs|
  {
    if |xs| == 0 then 0 else xs[0] + Sum(xs[1..])
  }

  /** One pixel: at least one channel, each a byte. */
  predicate IsPixel(px: seq<int>) {
    |px| > 0 && forall k :: 0 <= k < |px| ==> 0 <= px[k] <= 255
  }

  lemma {:induction false} SumBounds(xs: seq<int>)
    requires forall k :: 0 <= k < |xs| ==> 0 <= xs[k] <= 255
    ensures 0 <= Sum(xs) <= 255 * |xs|
    decreases |xs|
  {
    if |xs| > 0 {
      SumBounds(xs[1..]);
    }
  }

  /** `np.mean(pixel) / 255`, then `1 - d` when `invert == -1`. */
  function PixelDepth(px: seq<int>, invert: int): (d: real)
    requires IsPixel(px)
    ensures InUnit(d)
  {
    SumBounds(px);
    var mean := Sum(px) as real / |px| as real;
    var d := mean / 255.0;
    if invert == -1 then 1.0 - d else d
  }

  /** Inversion reflects every depth about one half, and only `-1` inverts. */
  lemma InvertComplements(px: seq<int>, invert: int)
    requires IsPixel(px)
    ensures invert == -1 ==> PixelDepth(px, invert) == 1.0 - PixelDepth(px, 1)
    ensures invert != -1 ==> PixelDepth(px, invert) == PixelDepth(px, 1)
  {
  }

  /** Pure black is depth 0 and pure white depth 1 (before inversion). */
  lemma PixelDepthExtremes(n: nat)
    requires 0 < n
    ensures PixelDepth(seq(n, _ => 0), 1) == 0.0
    ensures PixelDepth(seq(n, _ => 255), 1) == 1.0
  {
    var black := seq(n, _ => 0);
    var white := seq(n, _ => 255);
    SumConstant(0, n);
    SumConstant(255, n);
    assert Sum(black) == 0;
    MeanOfConstant(255, n);
    assert Sum(white) as real / |white| as real == 255.0;
  }

  /** n copies of v average to v. */
  lemma MeanOfConstant(v: int, n: nat)
    requires 0 < n
    ensures (v * n) as real / n as real == v as real
  {
    assert (v * n) as real == v as real * n as real;
  }

  lemma {:induction false} SumConstant(v: int, n: nat)
    ensures Sum(seq(n, _ => v)) == v * n
    decreases n
  {
    if n > 0 {
      assert seq(n, _ => v)[1..] == seq(n - 1, _ => v);
      SumConstant(v, n - 1);
    }
  }

  /** A captured frame: a rectangular grid of pixels with one channel count. */
  predicate IsFrame(frame: seq<seq<seq<int>>>) {
    && Rectangular(frame)
    && forall i, j :: 0 <= i < |frame| && 0 <= j < |frame[i]| ==> IsPixel(frame[i][j])
  }

  /** The per-pixel conversion of a whole frame. */
  function FrameToDepthMap(frame: seq<seq<seq<int>>>, invert: int): (dm: seq<seq<real>>)
    requires IsFrame(frame)
    ensures IsDepthMap(dm)
    ensures |dm| == |frame| && |dm[0]| == |frame[0]|
    ensures forall i, j :: 0 <= i < |dm| && 0 <= j < |dm[i]| ==> dm[i][j] == PixelDepth(frame[i][j], invert)
  {
    seq(|frame|, i requires 0 <= i < |frame| => seq(|frame[i]|, j requires 0 <= j < |frame[i]| => PixelDepth(frame[i][j], invert)))
  }

  /** `frame[:, :, :3]`: keep at most the first three channels (drops alpha). */
  function DropAlpha(frame: seq<seq<seq<int>>>): (r: seq<seq<seq<int>>>)
    requires IsFrame(frame)
    ensures IsFrame(r)
    ensures |r| == |frame| && |r[0]| == |frame[0]|
    ensures forall i, j :: 0 <= i < |r| && 0 <= j < |r[i]| ==>
              |r[i][j]| == (if |frame[i][j]| < 3 then |frame[i][j]| else 3)
              && r[i][j] <= frame[i][j]
  {
    seq(|frame|, i requires 0 <= i < |frame| =>
      seq(|frame[i]|, j requires 0 <= j < |frame[i]| =>
        var px := frame[i][j];
        if |px| < 3 then px else px[..3]))
  }

  /** `ceil(n / f)`. */
  function CeilDiv(n: nat, f: nat): (r: nat)
    requires 0 < f
    ensures (r - 1) * f < n <= r * f
  {
    (n + f - 1) / f
  }

  /** An index below `ceil(n / f)`, scaled by f, is still below n. */
  lemma ScaledIndexInRange(i: nat, n: nat, f: nat)
    requires 0 < f && i < CeilDiv(n, f)
    ensures i * f < n
  {
    var r := CeilDiv(n, f);
    var k: nat := r - 1 - i;
    assert (r - 1) * f == i * f + k * f;
    assert 0 <= k * f;
  }

  /** `frame[::f, ::f]`: keep rows and columns whose index is a multiple of f. */
  function Downsample<T>(g: seq<seq<T>>, f: nat): (r: seq<seq<T>>)
    requires Rectangular(g) && 0 < f
    ensures Rectangular(r)
    ensures |r| == CeilDiv(|g|, f) && |r[0]| == CeilDiv(|g[0]|, f)
    ensures forall i, j :: 0 <= i < |r| && 0 <= j < |r[i]| ==> i * f < |g| && j * f < |g[0]| && r[i][j] == g[i * f][j * f]
  {
    var rows := CeilDiv(|g|, f);
    var cols := CeilDiv(|g[0]|, f);
    assert forall i :: 0 <= i < rows ==> i * f < |g| by {
      forall i | 0 <= i < rows { ScaledIndexInRange(i, |g|, f); }
    }
    assert forall j :: 0 <= j < cols ==> j * f < |g[0]| by {
      forall j | 0 <= j < cols { ScaledIndexInRange(j, |g[0]|, f); }
    }
    seq(rows, i requires 0 <= i < rows => seq(cols, j requires 0 <= j < cols => g[i * f][j * f]))
  }

  /** The script's capture: downsample by 16, then convert per pixel. The
      map has ceil(H/16) rows and ceil(W/16) columns. */
  function CaptureDepthMap(frame: seq<seq<seq<int>>>, invert: int): (dm: seq<seq<real>>)
    requires IsFrame(frame)
    ensures IsDepthMap(dm)
    ensures |dm| == CeilDiv(|frame|, DOWNSAMPLE_FACTOR) && |dm[0]| == CeilDiv(|frame[0]|, DOWNSAMPLE_FACTOR)
  {
    var small := Downsample(frame, DOWNSAMPLE_FACTOR);
    FrameToDepthMap(small, invert)
  }

  /** The mss variant first drops the alpha channel. */
  function CaptureDepthMapBgra(frame: seq<seq<seq<int>>>, invert: int): (dm: seq<seq<real>>)
    requires IsFrame(frame)
    ensures IsDepthMap(dm)
    ensures |dm| == CeilDiv(|frame|, DOWNSAMPLE_FACTOR) && |dm[0]| == CeilDiv(|frame[0]|, DOWNSAMPLE_FACTOR)
  {
    CaptureDepthMap(DropAlpha(frame), invert)
  }

  /** Each cell of the script's map is the converted pixel at (16i, 16j). */
  lemma CaptureCell(frame: seq<seq<seq<int>>>, invert: int, i: nat, j: nat)
    requires IsFrame(frame)
    requires i < CeilDiv(|frame|, DOWNSAMPLE_FACTOR) && j < CeilDiv(|frame[0]|, DOWNSAMPLE_FACTOR)
    ensures i * DOWNSAMPLE_FACTOR < |frame| && j * DOWNSAMPLE_FACTOR < |frame[0]|
    ensures CaptureDepthMap(frame, invert)[i][j] == PixelDepth(frame[i * DOWNSAMPLE_FACTOR][j * DOWNSAMPLE_FACTOR], invert)
  {
    var small := Downsample(frame, DOWNSAMPLE_FACTOR);
    assert small[i][j] == frame[i * DOWNSAMPLE_FACTOR][j * DOWNSAMPLE_FACTOR];
  }

  /** A frame as mss grabs it: every pixel has the four channels B, G, R
      and alpha. */
  predicate IsBgraFrame(frame: seq<seq<seq<int>>>) {
    && IsFrame(frame)
    && forall i, j :: 0 <= i < |frame| && 0 <= j < |frame[i]| ==> |frame[i][j]| == 4
  }

  /** Each cell of the mss map is the mean of the B, G and R channels of the
      pixel at (16i, 16j), over 255; alpha takes no part. */
  lemma CaptureCellBgra(frame: seq<seq<seq<int>>>, invert: int, i: nat, j: nat)
    requires IsBgraFrame(frame)
    requires i < CeilDiv(|frame|, DOWNSAMPLE_FACTOR) && j < CeilDiv(|frame[0]|, DOWNSAMPLE_FACTOR)
    ensures i * DOWNSAMPLE_FACTOR < |frame| && j * DOWNSAMPLE_FACTOR < |frame[0]|
    ensures CaptureDepthMapBgra(frame, invert)[i][j] == PixelDepth(frame[i * DOWNSAMPLE_FACTOR][j * DOWNSAMPLE_FACTOR][..3], invert)
  {
    var bgr := DropAlpha(frame);
    CaptureCell(bgr, invert, i, j);
    assert bgr[i * DOWNSAMPLE_FACTOR][j * DOWNSAMPLE_FACTOR] == frame[i * DOWNSAMPLE_FACTOR][j * DOWNSAMPLE_FACTOR][..3];
  }

  /** The screen size a capture reports alongside its map: the frame's
      width and height. */
  function ScreenSizeOf(frame: seq<seq<seq<int>>>): (screen: Point)
    requires IsFrame(frame)
    ensures 0 < screen.x && 0 < screen.y
  {
    Point(|frame[0]|, |frame|)
  }

  /** The scripts' `get_elevation_at_position`: nothing until a capture
      has stored both the map and the screen size; otherwise the cell at
      `(x // 16, y // 16)`, clamped into the map, times the elevation
      scale. */
  function DownsampledElevationAt(dm: Option<seq<seq<real>>>, screen: Option<Point>, pos: Point): (r: Option<real>)
    requires dm.Some? ==> IsDepthMap(dm.value)
    ensures r.None? <==> dm.None? || screen.None?
    ensures r.Some? ==> 0.0 <= r.value <= ELEVATION_SCALE
    ensures r.Some? ==>
      var col := Clamp(FloorDiv(pos.x, DOWNSAMPLE_FACTOR), 0, |dm.value[0]| - 1);
      var row := Clamp(FloorDiv(pos.y, DOWNSAMPLE_FACTOR), 0, |dm.value| - 1);
      r.value == dm.value[row][col] * ELEVATION_SCALE
  {
    if dm.None? || screen.None? then None
    else
      var m := dm.value;
      var col := Clamp(FloorDiv(pos.x, DOWNSAMPLE_FACTOR), 0, |m[0]| - 1);
      var row := Clamp(FloorDiv(pos.y, DOWNSAMPLE_FACTOR), 0, |m| - 1);
      Some(m[row][col] * ELEVATION_SCALE)
  }

  /** A pointer inside the captured screen samples the cell covering it. */
  lemma DownsampledLookupCoversPointer(frame: seq<seq<seq<int>>>, invert: int, pos: Point)
    requires IsFrame(frame)
    requires 0 <= pos.x < |frame[0]| && 0 <= pos.y < |frame|
    ensures DownsampledElevationAt(Some(CaptureDepthMap(frame, invert)), Some(ScreenSizeOf(frame)), pos) ==
              Some(PixelDepth(frame[pos.y / DOWNSAMPLE_FACTOR * DOWNSAMPLE_FACTOR][pos.x / DOWNSAMPLE_FACTOR * DOWNSAMPLE_FACTOR], invert) * ELEVATION_SCALE)
  {
    var dm := CaptureDepthMap(frame, invert);
    var col := pos.x / DOWNSAMPLE_FACTOR;
    var row := pos.y / DOWNSAMPLE_FACTOR;
    assert col < CeilDiv(|frame[0]|, DOWNSAMPLE_FACTOR);
    assert row < CeilDiv(|frame|, DOWNSAMPLE_FACTOR);
    CaptureCell(frame, invert, row, col);
  }
}
