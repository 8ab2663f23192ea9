/** `depth_map_feedback_test.py`: an image is turned into a depth map
    quantised to `zres` levels and inverted, shown in a window, and every
    pointer move over the window sends the elevation under the pointer. The
    mouse relay it also runs is the shared one of `MouseRelay`. Reading the
    file, grey-scale conversion and blurring are library work: their output
    is the grey image the scaling starts from. */
module DepthFeedback {
  import opened Wrappers
  import opened Numeric
  import opened Protocol
  import opened Imaging

  /** The number of depth levels. */
  const ZRES: nat := 256

  /** The script inverts its depth map. */
  const FEEDBACK_INVERT: int := -1

  // ---------------------------------------------------------------------
  // Extremes of a grid
  // ---------------------------------------------------------------------

  function SeqMin(xs: seq<real>): real
    requires |xs| > 0
    decreases |xs|
  {
    if |xs| == 1 then xs[0]
    else
      var m := SeqMin(xs[1..]);
      if xs[0] <= m then xs[0] else m
  }

  function SeqMax(xs: seq<real>): real
    requires |xs| > 0
    decreases |xs|
  {
    if |xs| == 1 then xs[0]
    else
      var m := SeqMax(xs[1..]);
      if xs[0] >= m then xs[0] else m
  }

  /** The minimum is a lower bound that some element attains. */
  lemma {:induction false} SeqMinIsLeast(xs: seq<real>)
    requires |xs| > 0
    ensures forall k :: 0 <= k < |xs| ==> SeqMin(xs) <= xs[k]
    ensures exists k :: 0 <= k < |xs| && SeqMin(xs) == xs[k]
    decreases |xs|
  {
    if |xs| > 1 {
      SeqMinIsLeast(xs[1..]);
      forall k | 1 <= k < |xs| ensures SeqMin(xs) <= xs[k] {
        assert xs[k] == xs[1..][k - 1];
      }
      var k :| 0 <= k < |xs[1..]| && SeqMin(xs[1..]) == xs[1..][k];
      assert xs[1..][k] == xs[k + 1];
      if SeqMin(xs) == xs[0] {
        assert 0 <= 0 < |xs| && SeqMin(xs) == xs[0];
      } else {
        assert 0 <= k + 1 < |xs| && SeqMin(xs) == xs[k + 1];
      }
    } else {
      assert 0 <= 0 < |xs| && SeqMin(xs) == xs[0];
    }
  }

  /** The maximum is an upper bound that some element attains. */
  lemma {:induction false} SeqMaxIsGreatest(xs: seq<real>)
    requires |xs| > 0
    ensures forall k :: 0 <= k < |xs| ==> xs[k] <= SeqMax(xs)
    ensures exists k :: 0 <= k < |xs| && SeqMax(xs) == xs[k]
    decreases |xs|
  {
    if |xs| > 1 {
      SeqMaxIsGreatest(xs[1..]);
      forall k | 1 <= k < |xs| ensures xs[k] <= SeqMax(xs) {
        assert xs[k] == xs[1..][k - 1];
      }
      var k :| 0 <= k < |xs[1..]| && SeqMax(xs[1..]) == xs[1..][k];
      assert xs[1..][k] == xs[k + 1];
      if SeqMax(xs) == xs[0] {
        assert 0 <= 0 < |xs| && SeqMax(xs) == xs[0];
      } else {
        assert 0 <= k + 1 < |xs| && SeqMax(xs) == xs[k + 1];
      }
    } else {
      assert 0 <= 0 < |xs| && SeqMax(xs) == xs[0];
    }
  }

  /** `np.min` of a grid: the least of the row minima. */
  function GridMin(g: seq<seq<real>>): real
    requires Rectangular(g)
  {
    SeqMin(seq(|g|, i requires 0 <= i < |g| => SeqMin(g[i])))
  }

  /** `np.max` of a grid: the greatest of the row maxima. */
  function GridMax(g: seq<seq<real>>): real
    requires Rectangular(g)
  {
    SeqMax(seq(|g|, i requires 0 <= i < |g| => SeqMax(g[i])))
  }

  /** Every cell lies between the grid's extremes. */
  lemma GridBounds(g: seq<seq<real>>)
    requires Rectangular(g)
    ensures forall i, j :: 0 <= i < |g| && 0 <= j < |g[i]| ==> GridMin(g) <= g[i][j] <= GridMax(g)
  {
    var mins := seq(|g|, i requires 0 <= i < |g| => SeqMin(g[i]));
    var maxs := seq(|g|, i requires 0 <= i < |g| => SeqMax(g[i]));
    SeqMinIsLeast(mins);
    SeqMaxIsGreatest(maxs);
    forall i, j | 0 <= i < |g| && 0 <= j < |g[i]|
      ensures GridMin(g) <= g[i][j] <= GridMax(g)
    {
      SeqMinIsLeast(g[i]);
      SeqMaxIsGreatest(g[i]);
      assert mins[i] == SeqMin(g[i]) && maxs[i] == SeqMax(g[i]);
    }
  }

  /** Some cell holds the minimum and some cell the maximum. */
  lemma GridExtremesAttained(g: seq<seq<real>>)
    requires Rectangular(g)
    ensures exists i, j :: 0 <= i < |g| && 0 <= j < |g[i]| && g[i][j] == GridMin(g)
    ensures exists i, j :: 0 <= i < |g| && 0 <= j < |g[i]| && g[i][j] == GridMax(g)
  {
    var mins := seq(|g|, i requires 0 <= i < |g| => SeqMin(g[i]));
    var maxs := seq(|g|, i requires 0 <= i < |g| => SeqMax(g[i]));
    SeqMinIsLeast(mins);
    SeqMaxIsGreatest(maxs);
    var a :| 0 <= a < |mins| && SeqMin(mins) == mins[a];
    var b :| 0 <= b < |maxs| && SeqMax(maxs) == maxs[b];
    SeqMinIsLeast(g[a]);
    SeqMaxIsGreatest(g[b]);
    var ja :| 0 <= ja < |g[a]| && SeqMin(g[a]) == g[a][ja];
    var jb :| 0 <= jb < |g[b]| && SeqMax(g[b]) == g[b][jb];
    assert g[a][ja] == GridMin(g);
    assert g[b][jb] == GridMax(g);
  }

  /** Not every cell equal. */
  predicate NonConstant(g: seq<seq<real>>) {
    exists i1, j1, i2, j2 ::
      0 <= i1 < |g| && 0 <= j1 < |g[i1]| && 0 <= i2 < |g| && 0 <= j2 < |g[i2]| && g[i1][j1] != g[i2][j2]
  }

  /** A grid is non-constant exactly when its extremes differ, which is
      exactly when `scale` does not divide by zero. */
  lemma NonConstantIffRange(g: seq<seq<real>>)
    requires Rectangular(g)
    ensures NonConstant(g) <==> GridMin(g) < GridMax(g)
  {
    GridBounds(g);
    GridExtremesAttained(g);
    if GridMin(g) < GridMax(g) {
      var i1, j1 :| 0 <= i1 < |g| && 0 <= j1 < |g[i1]| && g[i1][j1] == GridMin(g);
      var i2, j2 :| 0 <= i2 < |g| && 0 <= j2 < |g[i2]| && g[i2][j2] == GridMax(g);
      assert g[i1][j1] != g[i2][j2];
    }
  }

  // ---------------------------------------------------------------------
  // scale and invert
  // ---------------------------------------------------------------------

  /** The k-th of `zres` evenly spaced levels in [0, 1]. */
  function LevelValue(k: int, zres: nat): real
    requires 2 <= zres
  {
    k as real / (zres - 1) as real
  }

  /** A value of the form k / (zres - 1) with 0 <= k < zres. */
  predicate IsLevel(x: real, zres: nat)
    requires 2 <= zres
  {
    exists k :: 0 <= k < zres && x == LevelValue(k, zres)
  }

  lemma LevelInUnit(k: int, zres: nat)
    requires 2 <= zres && 0 <= k < zres
    ensures InUnit(LevelValue(k, zres))
    ensures k == 0 ==> LevelValue(k, zres) == 0.0
    ensures k == zres - 1 ==> LevelValue(k, zres) == 1.0
  {
    var d := (zres - 1) as real;
    assert k as real <= d;
    assert LevelValue(k, zres) * d == k as real;
  }

  /** Shifting by the minimum and dividing by the range lands in [0, 1]. */
  lemma RatioInUnit(v: real, lo: real, hi: real)
    requires lo <= v <= hi && lo < hi
    ensures InUnit((v - lo) / (hi - lo))
  {
    var r := (v - lo) / (hi - lo);
    assert r * (hi - lo) == v - lo;
  }

  lemma ScaleUnit(r: real, d: real)
    requires InUnit(r) && 0.0 <= d
    ensures 0.0 <= r * d <= d
    ensures r == 0.0 ==> r * d == 0.0
    ensures r == 1.0 ==> r * d == d
  {
    assert d - r * d == (1.0 - r) * d;
  }

  /** A rounded integer value is that integer. */
  lemma RoundWhole(n: int)
    ensures RoundHalfEven(n as real) == n
  {
  }

  /** `(v - min) / (max - min) * (zres - 1)`: the cell's position on the
      scale of `zres - 1` steps. */
  function Spread(v: real, lo: real, hi: real, zres: nat): (t: real)
    requires lo <= v <= hi && lo < hi && 2 <= zres
    ensures t * (hi - lo) == (v - lo) * (zres - 1) as real
    ensures 0.0 <= t <= (zres - 1) as real
    ensures v == lo ==> t == 0.0
    ensures v == hi ==> t == (zres - 1) as real
  {
    var ratio := (v - lo) / (hi - lo);
    RatioInUnit(v, lo, hi);
    RatioEnds(v, lo, hi);
    ScaleUnit(ratio, (zres - 1) as real);
    RatioTimes(v - lo, hi - lo, (zres - 1) as real);
    ratio * (zres - 1) as real
  }

  lemma RatioTimes(a: real, b: real, d: real)
    requires b != 0.0
    ensures a / b * d * b == a * d
  {
    assert a / b * b == a;
    assert a / b * d * b == a / b * b * d;
  }

  /** A brighter pixel is spread no lower. */
  lemma SpreadMonotone(v: real, w: real, lo: real, hi: real, zres: nat)
    requires lo <= v <= w <= hi && lo < hi && 2 <= zres
    ensures Spread(v, lo, hi, zres) <= Spread(w, lo, hi, zres)
  {
    var d := (zres - 1) as real;
    var t, u := Spread(v, lo, hi, zres), Spread(w, lo, hi, zres);
    assert (u - t) * (hi - lo) == (w - v) * d;
    assert 0.0 <= (w - v) * d;
  }

  /** The ratio is 0 at the minimum and 1 at the maximum. */
  lemma RatioEnds(v: real, lo: real, hi: real)
    requires lo < hi
    ensures v == lo ==> (v - lo) / (hi - lo) == 0.0
    ensures v == hi ==> (v - lo) / (hi - lo) == 1.0
  {
  }

  /** `scale` on one cell: spread, round half to even, divide back. The
      result is one of the `zres` levels; the minimum becomes 0 and the
      maximum 1. */
  function Quantise(v: real, lo: real, hi: real, zres: nat): (r: real)
    requires lo <= v <= hi && lo < hi && 2 <= zres
    ensures IsLevel(r, zres) && InUnit(r)
    ensures v == lo ==> r == 0.0
    ensures v == hi ==> r == 1.0
    ensures Abs(r * (zres - 1) as real - Spread(v, lo, hi, zres)) <= 0.5
    ensures Abs(r * (zres - 1) as real - Spread(v, lo, hi, zres)) == 0.5 ==> (r * (zres - 1) as real).Floor % 2 == 0
  {
    var k := LevelIndex(Spread(v, lo, hi, zres), zres);
    LevelInUnit(k, zres);
    LevelSteps(k, zres);
    LevelValue(k, zres)
  }

  /** A level measured in steps is its index. */
  lemma LevelSteps(k: int, zres: nat)
    requires 2 <= zres
    ensures LevelValue(k, zres) * (zres - 1) as real == k as real
  {
  }

  /** The quantised cell is the level nearest its spread value: no other
      level index is closer. */
  lemma QuantiseIsNearestLevel(v: real, lo: real, hi: real, zres: nat, j: int)
    requires lo <= v <= hi && lo < hi && 2 <= zres && 0 <= j < zres
    ensures Abs(Quantise(v, lo, hi, zres) * (zres - 1) as real - Spread(v, lo, hi, zres))
              <= Abs(j as real - Spread(v, lo, hi, zres))
  {
    var k := QuantiseIndex(v, lo, hi, zres);
    NearestInteger(Spread(v, lo, hi, zres), k, j);
  }

  /** The index of the level a cell is quantised to: the spread value
      rounded half to even. */
  lemma QuantiseIndex(v: real, lo: real, hi: real, zres: nat) returns (k: int)
    requires lo <= v <= hi && lo < hi && 2 <= zres
    ensures 0 <= k < zres
    ensures Quantise(v, lo, hi, zres) * (zres - 1) as real == k as real
    ensures k == RoundHalfEven(Spread(v, lo, hi, zres))
  {
    k := RoundHalfEven(Spread(v, lo, hi, zres));
    LevelSteps(k, zres);
  }

  /** An integer within a half of `t` is at least as close as any other. */
  lemma NearestInteger(t: real, k: int, j: int)
    requires Abs(k as real - t) <= 0.5
    ensures Abs(k as real - t) <= Abs(j as real - t)
  {
    if j != k {
      assert j <= k - 1 || k + 1 <= j;
    }
  }

  /** A brighter pixel is quantised to a level no lower. */
  lemma QuantiseMonotone(v: real, w: real, lo: real, hi: real, zres: nat)
    requires lo <= v <= w <= hi && lo < hi && 2 <= zres
    ensures Quantise(v, lo, hi, zres) <= Quantise(w, lo, hi, zres)
  {
    SpreadMonotone(v, w, lo, hi, zres);
    var k1 := QuantiseIndex(v, lo, hi, zres);
    var k2 := QuantiseIndex(w, lo, hi, zres);
    RoundingKeepsOrder(Spread(v, lo, hi, zres), Spread(w, lo, hi, zres), k1, k2);
    LevelMonotone(k1, k2, zres);
  }

  /** Two values rounded half to even, given as integers within a half of
      them with ties landing on even, keep their order. */
  lemma RoundingKeepsOrder(t1: real, t2: real, k1: int, k2: int)
    requires t1 <= t2
    requires Abs(k1 as real - t1) <= 0.5 && Abs(k2 as real - t2) <= 0.5
    requires Abs(k1 as real - t1) == 0.5 ==> (k1 as real).Floor % 2 == 0
    requires Abs(k2 as real - t2) == 0.5 ==> (k2 as real).Floor % 2 == 0
    ensures k1 <= k2
  {
  }

  lemma LevelMonotone(k1: int, k2: int, zres: nat)
    requires 2 <= zres && k1 <= k2
    ensures LevelValue(k1, zres) <= LevelValue(k2, zres)
  {
    var d := (zres - 1) as real;
    assert LevelValue(k2, zres) - LevelValue(k1, zres) == (k2 - k1) as real / d;
  }

  /** The level a spread value rounds to. */
  function LevelIndex(t: real, zres: nat): (k: int)
    requires 2 <= zres && 0.0 <= t <= (zres - 1) as real
    ensures 0 <= k < zres
    ensures k == RoundHalfEven(t)
    ensures t == 0.0 ==> k == 0
    ensures t == (zres - 1) as real ==> k == zres - 1
  {
    RoundHalfEvenInRange(t, zres - 1);
    RoundWhole(0);
    RoundWhole(zres - 1);
    RoundHalfEven(t)
  }

  /** `scale(img, zres)` for a non-constant grey image. A constant image
      makes the range zero, and NumPy's 0/0 then fills every cell with NaN,
      which the reals cannot hold, so it is excluded. */
  function Scale(img: seq<seq<real>>, zres: nat): (dm: seq<seq<real>>)
    requires Rectangular(img) && NonConstant(img) && 2 <= zres
    ensures IsDepthMap(dm)
    ensures |dm| == |img| && forall i :: 0 <= i < |dm| ==> |dm[i]| == |img[i]|
    ensures forall i, j :: 0 <= i < |dm| && 0 <= j < |dm[i]| ==> IsLevel(dm[i][j], zres)
    ensures forall i, j :: 0 <= i < |dm| && 0 <= j < |dm[i]| && img[i][j] == GridMin(img) ==> dm[i][j] == 0.0
    ensures forall i, j :: 0 <= i < |dm| && 0 <= j < |dm[i]| && img[i][j] == GridMax(img) ==> dm[i][j] == 1.0
    ensures GridMin(img) < GridMax(img)
    ensures forall i, j :: 0 <= i < |img| && 0 <= j < |img[i]| ==> GridMin(img) <= img[i][j] <= GridMax(img)
    ensures forall i, j :: 0 <= i < |dm| && 0 <= j < |dm[i]| ==> dm[i][j] == Quantise(img[i][j], GridMin(img), GridMax(img), zres)
  {
    var lo := GridMin(img);
    var hi := GridMax(img);
    GridBounds(img);
    NonConstantIffRange(img);
    seq(|img|, i requires 0 <= i < |img| =>
      seq(|img[i]|, j requires 0 <= j < |img[i]| => Quantise(img[i][j], lo, hi, zres)))
  }

  /** `scale` keeps the order of the pixels: a brighter pixel never gets a
      lower level. */
  lemma ScaleMonotone(img: seq<seq<real>>, zres: nat)
    requires Rectangular(img) && NonConstant(img) && 2 <= zres
    ensures var dm := Scale(img, zres);
            forall i, j, k, l :: 0 <= i < |dm| && 0 <= j < |dm[i]| && 0 <= k < |dm| && 0 <= l < |dm[k]| && img[i][j] <= img[k][l] ==>
              dm[i][j] <= dm[k][l]
  {
    var dm := Scale(img, zres);
    forall i, j, k, l | 0 <= i < |dm| && 0 <= j < |dm[i]| && 0 <= k < |dm| && 0 <= l < |dm[k]| && img[i][j] <= img[k][l]
      ensures dm[i][j] <= dm[k][l]
    {
      QuantiseMonotone(img[i][j], img[k][l], GridMin(img), GridMax(img), zres);
    }
  }

  /** The invert step: every depth d becomes 1 - d. */
  function Invert(dm: seq<seq<real>>): (r: seq<seq<real>>)
    requires IsDepthMap(dm)
    ensures IsDepthMap(r)
    ensures |r| == |dm| && forall i :: 0 <= i < |r| ==> |r[i]| == |dm[i]|
    ensures forall i, j :: 0 <= i < |r| && 0 <= j < |r[i]| ==> r[i][j] + dm[i][j] == 1.0
  {
    seq(|dm|, i requires 0 <= i < |dm| => seq(|dm[i]|, j requires 0 <= j < |dm[i]| => 1.0 - dm[i][j]))
  }

  /** Inverting twice gives the map back. */
  lemma InvertInvolution(dm: seq<seq<real>>)
    requires IsDepthMap(dm)
    ensures Invert(Invert(dm)) == dm
  {
    var r := Invert(Invert(dm));
    assert forall i :: 0 <= i < |dm| ==> r[i] == dm[i];
  }

  /** An inverted level is again a level: 1 - k/(z-1) = (z-1-k)/(z-1). */
  lemma InvertedLevel(x: real, zres: nat)
    requires 2 <= zres && IsLevel(x, zres)
    ensures IsLevel(1.0 - x, zres)
  {
    var k :| 0 <= k < zres && x == LevelValue(k, zres);
    var d := (zres - 1) as real;
    assert (zres - 1 - k) as real == d - k as real;
    ComplementOver(d, k as real);
    assert 1.0 - x == LevelValue(zres - 1 - k, zres);
  }

  lemma ComplementOver(d: real, a: real)
    requires d != 0.0
    ensures (d - a) / d == 1.0 - a / d
  {
    assert (d - a) / d == d / d - a / d;
  }

  /** Inverting a map of levels gives a map of levels. */
  lemma InvertKeepsLevels(dm: seq<seq<real>>, zres: nat)
    requires IsDepthMap(dm) && 2 <= zres
    requires forall i, j :: 0 <= i < |dm| && 0 <= j < |dm[i]| ==> IsLevel(dm[i][j], zres)
    ensures var r := Invert(dm); forall i, j :: 0 <= i < |r| && 0 <= j < |r[i]| ==> IsLevel(r[i][j], zres)
  {
    var r := Invert(dm);
    forall i, j | 0 <= i < |r| && 0 <= j < |r[i]|
      ensures IsLevel(r[i][j], zres)
    {
      assert r[i][j] == 1.0 - dm[i][j];
      InvertedLevel(dm[i][j], zres);
    }
  }

  /** `image_to_depth_map` after the blur: scale, then invert when asked.
      Every cell is a level; the darkest pixels are depth 0 and the
      brightest 1, swapped exactly when `invert == -1`. */
  function ImageToDepthMap(img: seq<seq<real>>, zres: nat, invert: int): (dm: seq<seq<real>>)
    requires Rectangular(img) && NonConstant(img) && 2 <= zres
    ensures IsDepthMap(dm)
    ensures |dm| == |img| && forall i :: 0 <= i < |dm| ==> |dm[i]| == |img[i]|
    ensures forall i, j :: 0 <= i < |dm| && 0 <= j < |dm[i]| ==> IsLevel(dm[i][j], zres)
    ensures forall i, j :: 0 <= i < |dm| && 0 <= j < |dm[i]| && img[i][j] == GridMin(img) ==>
              dm[i][j] == (if invert == -1 then 1.0 else 0.0)
    ensures forall i, j :: 0 <= i < |dm| && 0 <= j < |dm[i]| && img[i][j] == GridMax(img) ==>
              dm[i][j] == (if invert == -1 then 0.0 else 1.0)
  {
    var scaled := Scale(img, zres);
    if invert == -1 then
      InvertKeepsLevels(scaled, zres);
      Invert(scaled)
    else scaled
  }

  /** The depth map follows the brightness order, reversed exactly when
      `invert == -1`. */
  lemma ImageToDepthMapOrder(img: seq<seq<real>>, zres: nat, invert: int)
    requires Rectangular(img) && NonConstant(img) && 2 <= zres
    ensures var dm := ImageToDepthMap(img, zres, invert);
            forall i, j, k, l :: 0 <= i < |dm| && 0 <= j < |dm[i]| && 0 <= k < |dm| && 0 <= l < |dm[k]| && img[i][j] <= img[k][l] ==>
              if invert == -1 then dm[k][l] <= dm[i][j] else dm[i][j] <= dm[k][l]
  {
    ScaleMonotone(img, zres);
  }

  /** With the script's settings the brightest pixels become depth 0 and
      the darkest depth 1, and every depth is one of the 256 levels. */
  lemma FeedbackMapLevels(img: seq<seq<real>>)
    requires Rectangular(img) && NonConstant(img)
    ensures var dm := ImageToDepthMap(img, ZRES, FEEDBACK_INVERT);
            forall i, j :: 0 <= i < |dm| && 0 <= j < |dm[i]| ==> IsLevel(dm[i][j], ZRES)
    ensures var dm := ImageToDepthMap(img, ZRES, FEEDBACK_INVERT);
            forall i, j :: 0 <= i < |dm| && 0 <= j < |dm[i]| && img[i][j] == GridMax(img) ==> dm[i][j] == 0.0
    ensures var dm := ImageToDepthMap(img, ZRES, FEEDBACK_INVERT);
            forall i, j :: 0 <= i < |dm| && 0 <= j < |dm[i]| && img[i][j] == GridMin(img) ==> dm[i][j] == 1.0
  {
  }

  // ---------------------------------------------------------------------
  // mouse_callback
  // ---------------------------------------------------------------------

  /** The window events the callback distinguishes. */
  datatype WindowEvent = PointerMoved | OtherWindowEvent

  /** `mouse_callback`: on a pointer move, with the link up and the map
      shown, a pointer inside the image sends the elevation of the pixel
      under it; anything else sends nothing. The displayed image has the
      map's shape, so its bounds are the map's. */
  function MouseCallback(event: WindowEvent, x: int, y: int, coreReady: bool, dm: Option<seq<seq<real>>>): (sent: seq<Command>)
    requires dm.Some? ==> IsDepthMap(dm.value)
    ensures |sent| <= 1
    ensures sent != [] <==>
              event == PointerMoved && coreReady && dm.Some? && 0 <= y < |dm.value| && 0 <= x < |dm.value[0]|
    ensures sent != [] ==> sent[0].Elevation? && 0.0 <= sent[0].value <= ELEVATION_SCALE
    ensures sent != [] ==> sent[0].value == dm.value[y][x] * ELEVATION_SCALE
  {
    if event == PointerMoved && coreReady && dm.Some? then
      var m := dm.value;
      if 0 <= y < |m| && 0 <= x < |m[0]| then [Elevation(m[y][x] * ELEVATION_SCALE)] else []
    else []
  }

  /** Over the script's own map, the pointer on the brightest pixel rests
      the pin at 0 and on the darkest raises it to the full 0.5. */
  lemma CallbackExtremes(img: seq<seq<real>>, x: nat, y: nat)
    requires Rectangular(img) && NonConstant(img)
    requires y < |img| && x < |img[0]|
    ensures var dm := ImageToDepthMap(img, ZRES, FEEDBACK_INVERT);
            var sent := MouseCallback(PointerMoved, x, y, true, Some(dm));
            && |sent| == 1
            && (img[y][x] == GridMax(img) ==> sent[0] == Elevation(0.0))
            && (img[y][x] == GridMin(img) ==> sent[0] == Elevation(ELEVATION_SCALE))
  {
    FeedbackMapLevels(img);
  }
}
