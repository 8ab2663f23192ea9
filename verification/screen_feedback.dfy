/** The two screen-capture scripts. A capture thread keeps the latest
    downsampled depth map of the whole screen together with the screen
    size; the main loop reads the pointer position and sends the elevation
    under it. `screen_capture_test.py` (DXcam frames, three channels) also
    drains the mouse relay each iteration; `testing/screen_capture_test.py`
    (mss frames, with an alpha channel to drop) instead runs the screen
    border detector. Threads and sleeps are not modelled: each loop
    iteration sees whatever the capture thread last stored. */
module ScreenFeedback {
  import opened Wrappers
  import opened Numeric
  import opened Protocol
  import opened Geometry
  import opened Imaging
  import opened MouseRelay
  import Plugin

  /** Both scripts keep the depth map uninverted. */
  const SCRIPT_INVERT: int := 1

  /** The elevation sent once before each script's loop starts. */
  const INITIAL_ELEVATION: Command := Elevation(0.0)

  /** What the capture thread last stored under its lock. */
  datatype Captured = Captured(depthMap: Option<seq<seq<real>>>, screen: Option<Point>)

  predicate ValidCapture(c: Captured) {
    c.depthMap.Some? ==> IsDepthMap(c.depthMap.value)
  }

  function NothingCaptured(): (c: Captured)
    ensures ValidCapture(c) && c.depthMap.None? && c.screen.None?
  {
    Captured(None, None)
  }

  /** One iteration of `screen_capture_thread`: a grab that returns nothing
      is skipped; otherwise map and screen size are replaced together.
      `dropAlpha` selects the mss variant, which strips the alpha channel
      before averaging. */
  function CaptureStep(c: Captured, frame: Option<seq<seq<seq<int>>>>, dropAlpha: bool): (c': Captured)
    requires ValidCapture(c)
    requires frame.Some? ==> IsFrame(frame.value)
    ensures ValidCapture(c')
    ensures frame.None? ==> c' == c
    ensures frame.Some? ==>
              && c'.depthMap.Some? && c'.screen == Some(Point(|frame.value[0]|, |frame.value|))
              && |c'.depthMap.value| == CeilDiv(|frame.value|, DOWNSAMPLE_FACTOR)
              && |c'.depthMap.value[0]| == CeilDiv(|frame.value[0]|, DOWNSAMPLE_FACTOR)
  {
    match frame
    case None => c
    case Some(f) =>
      var dm := if dropAlpha then CaptureDepthMapBgra(f, SCRIPT_INVERT) else CaptureDepthMap(f, SCRIPT_INVERT);
      Captured(Some(dm), Some(ScreenSizeOf(f)))
  }

  /** What a capture stores: cell (i, j) is the depth of the pixel at
      (16i, 16j), taken over all its channels for DXcam and over B, G and R
      for mss. */
  lemma CaptureStepCells(c: Captured, frame: seq<seq<seq<int>>>, dropAlpha: bool)
    requires ValidCapture(c) && IsFrame(frame) && (dropAlpha ==> IsBgraFrame(frame))
    ensures var dm := CaptureStep(c, Some(frame), dropAlpha).depthMap.value;
            forall i, j :: 0 <= i < |dm| && 0 <= j < |dm[i]| ==>
              && i * DOWNSAMPLE_FACTOR < |frame| && j * DOWNSAMPLE_FACTOR < |frame[0]|
              && dm[i][j] == PixelDepth(if dropAlpha then frame[i * DOWNSAMPLE_FACTOR][j * DOWNSAMPLE_FACTOR][..3]
                                        else frame[i * DOWNSAMPLE_FACTOR][j * DOWNSAMPLE_FACTOR], SCRIPT_INVERT)
  {
    var dm := CaptureStep(c, Some(frame), dropAlpha).depthMap.value;
    forall i, j | 0 <= i < |dm| && 0 <= j < |dm[i]|
      ensures i * DOWNSAMPLE_FACTOR < |frame| && j * DOWNSAMPLE_FACTOR < |frame[0]|
      ensures dm[i][j] == PixelDepth(if dropAlpha then frame[i * DOWNSAMPLE_FACTOR][j * DOWNSAMPLE_FACTOR][..3]
                                     else frame[i * DOWNSAMPLE_FACTOR][j * DOWNSAMPLE_FACTOR], SCRIPT_INVERT)
    {
      if dropAlpha {
        CaptureCellBgra(frame, SCRIPT_INVERT, i, j);
      } else {
        CaptureCell(frame, SCRIPT_INVERT, i, j);
      }
    }
  }

  /** After a DXcam capture, a pointer on the screen reads the pixel at the
      top-left corner of its 16-by-16 cell, halved. */
  lemma CaptureThenLookup(c: Captured, frame: seq<seq<seq<int>>>, pos: Point)
    requires ValidCapture(c) && IsFrame(frame)
    requires 0 <= pos.x < |frame[0]| && 0 <= pos.y < |frame|
    ensures var c' := CaptureStep(c, Some(frame), false);
            DownsampledElevationAt(c'.depthMap, c'.screen, pos) ==
              Some(PixelDepth(frame[pos.y / DOWNSAMPLE_FACTOR * DOWNSAMPLE_FACTOR][pos.x / DOWNSAMPLE_FACTOR * DOWNSAMPLE_FACTOR], SCRIPT_INVERT) * ELEVATION_SCALE)
  {
    DownsampledLookupCoversPointer(frame, SCRIPT_INVERT, pos);
  }

  /** After an mss capture, a pointer on the screen reads the mean of the
      B, G and R channels of the pixel at the top-left corner of its
      16-by-16 cell, over 255 and halved. */
  lemma CaptureThenLookupBgra(c: Captured, frame: seq<seq<seq<int>>>, pos: Point)
    requires ValidCapture(c) && IsBgraFrame(frame)
    requires 0 <= pos.x < |frame[0]| && 0 <= pos.y < |frame|
    ensures var c' := CaptureStep(c, Some(frame), true);
            DownsampledElevationAt(c'.depthMap, c'.screen, pos) ==
              Some(PixelDepth(frame[pos.y / DOWNSAMPLE_FACTOR * DOWNSAMPLE_FACTOR][pos.x / DOWNSAMPLE_FACTOR * DOWNSAMPLE_FACTOR][..3], SCRIPT_INVERT) * ELEVATION_SCALE)
  {
    var bgr := DropAlpha(frame);
    var row, col := pos.y / DOWNSAMPLE_FACTOR * DOWNSAMPLE_FACTOR, pos.x / DOWNSAMPLE_FACTOR * DOWNSAMPLE_FACTOR;
    DownsampledLookupCoversPointer(bgr, SCRIPT_INVERT, pos);
    assert bgr[row][col] == frame[row][col][..3];
  }

  /** The elevation command for a lookup result: none when the lookup
      found nothing. */
  function ElevationCommand(e: Option<real>): (cs: seq<Command>)
    ensures cs == [] <==> e.None?
    ensures e.Some? ==> cs == [Elevation(e.value)]
  {
    match e
    case None => []
    case Some(v) => [Elevation(v)]
  }

  /** One loop iteration input: the capture thread's latest result and the
      pointer position read after the relay's moves. */
  datatype Tick = Tick(capture: Captured, pointer: Point)

  predicate ValidTicks(ticks: seq<Tick>) {
    forall i :: 0 <= i < |ticks| ==> ValidCapture(ticks[i].capture)
  }

  // ---------------------------------------------------------------------
  // screen_capture_test.py: relay drain, then elevation
  // ---------------------------------------------------------------------

  datatype RelayTick = RelayTick(relay: Relay, actions: seq<MouseAction>, sent: seq<Command>)

  /** One iteration of the main loop: drain the relay and replay it, then
      send the elevation under the pointer if a capture is stored. */
  function RelayLoopStep(relay: Relay, c: Captured, pointer: Point): (r: RelayTick)
    requires ValidCapture(c)
    ensures r.relay == DrainStep(relay).state && r.actions == DrainStep(relay).actions
    ensures |r.sent| <= 1
    ensures r.sent == [] <==> c.depthMap.None? || c.screen.None?
    ensures r.sent != [] ==> r.sent[0].Elevation? && 0.0 <= r.sent[0].value <= ELEVATION_SCALE
    ensures r.sent != [] ==>
              var dm := c.depthMap.value;
              r.sent[0].value ==
                dm[Clamp(FloorDiv(pointer.y, DOWNSAMPLE_FACTOR), 0, |dm| - 1)][Clamp(FloorDiv(pointer.x, DOWNSAMPLE_FACTOR), 0, |dm[0]| - 1)]
                * ELEVATION_SCALE
  {
    var d := DrainStep(relay);
    RelayTick(d.state, d.actions, ElevationCommand(DownsampledElevationAt(c.depthMap, c.screen, pointer)))
  }

  /** An iteration right after a capture sends the elevation of the grid
      pixel under an on-screen pointer: the DXcam frame's pixel, or the B, G
      and R channels of the mss frame's. */
  lemma RelayStepSendsPixelUnderPointer(relay: Relay, c: Captured, frame: seq<seq<seq<int>>>, dropAlpha: bool, pointer: Point)
    requires ValidCapture(c) && IsFrame(frame) && (dropAlpha ==> IsBgraFrame(frame))
    requires 0 <= pointer.x < |frame[0]| && 0 <= pointer.y < |frame|
    ensures var px := frame[pointer.y / DOWNSAMPLE_FACTOR * DOWNSAMPLE_FACTOR][pointer.x / DOWNSAMPLE_FACTOR * DOWNSAMPLE_FACTOR];
            RelayLoopStep(relay, CaptureStep(c, Some(frame), dropAlpha), pointer).sent ==
              [Elevation(PixelDepth(if dropAlpha then px[..3] else px, SCRIPT_INVERT) * ELEVATION_SCALE)]
  {
    var captured := CaptureStep(c, Some(frame), dropAlpha);
    if dropAlpha {
      CaptureThenLookupBgra(c, frame, pointer);
    } else {
      CaptureThenLookup(c, frame, pointer);
    }
    RelayStepSendsLookup(relay, captured, pointer);
  }

  lemma RelayStepSendsLookup(relay: Relay, c: Captured, pointer: Point)
    requires ValidCapture(c)
    ensures RelayLoopStep(relay, c, pointer).sent == ElevationCommand(DownsampledElevationAt(c.depthMap, c.screen, pointer))
  {
  }

  function RelayLoop(relay: Relay, ticks: seq<Tick>): RelayTick
    requires ValidTicks(ticks)
    decreases |ticks|
  {
    if |ticks| == 0 then RelayTick(relay, [], [])
    else
      var first := RelayLoopStep(relay, ticks[0].capture, ticks[0].pointer);
      var rest := RelayLoop(first.relay, ticks[1..]);
      RelayTick(rest.relay, first.actions + rest.actions, first.sent + rest.sent)
  }

  /** The whole session after the handshake: the initial elevation, then
      the loop. */
  function RelaySession(relay: Relay, ticks: seq<Tick>): (sent: seq<Command>)
    requires ValidTicks(ticks)
  {
    [INITIAL_ELEVATION] + RelayLoop(relay, ticks).sent
  }

  /** An elevation command whose value a depth map can produce. */
  predicate IsScaledElevation(c: Command) {
    c.Elevation? && 0.0 <= c.value <= ELEVATION_SCALE
  }

  predicate AllScaled(cs: seq<Command>) {
    forall i :: 0 <= i < |cs| ==> IsScaledElevation(cs[i])
  }

  lemma AllScaledAppend(a: seq<Command>, b: seq<Command>)
    requires AllScaled(a) && AllScaled(b)
    ensures AllScaled(a + b)
  {
    forall i | 0 <= i < |a + b| ensures IsScaledElevation((a + b)[i]) {
      if i < |a| { assert (a + b)[i] == a[i]; } else { assert (a + b)[i] == b[i - |a|]; }
    }
  }

  /** The device only ever receives elevations from this script: the
      initial 0 and then values in [0, 0.5], at most one per iteration. */
  lemma RelaySessionSendsOnlyElevations(relay: Relay, ticks: seq<Tick>)
    requires ValidTicks(ticks)
    ensures var sent := RelaySession(relay, ticks);
            sent[0] == Elevation(0.0) && AllScaled(sent[1..])
    ensures |RelaySession(relay, ticks)| <= |ticks| + 1
  {
    LoopSendsScaledElevations(relay, ticks);
    var sent := RelaySession(relay, ticks);
    assert sent[1..] == RelayLoop(relay, ticks).sent;
  }

  lemma {:induction false} LoopSendsScaledElevations(relay: Relay, ticks: seq<Tick>)
    requires ValidTicks(ticks)
    ensures |RelayLoop(relay, ticks).sent| <= |ticks|
    ensures AllScaled(RelayLoop(relay, ticks).sent)
    decreases |ticks|
  {
    if |ticks| > 0 {
      assert ValidCapture(ticks[0].capture);
      assert ValidTicks(ticks[1..]) by {
        forall i | 0 <= i < |ticks[1..]| ensures ValidCapture(ticks[1..][i].capture) {
          assert ticks[1..][i] == ticks[i + 1];
        }
      }
      var first := RelayLoopStep(relay, ticks[0].capture, ticks[0].pointer);
      var rest := RelayLoop(first.relay, ticks[1..]);
      LoopSendsScaledElevations(first.relay, ticks[1..]);
      assert RelayLoop(relay, ticks).sent == first.sent + rest.sent;
      StepScaled(relay, ticks[0].capture, ticks[0].pointer);
      AllScaledAppend(first.sent, rest.sent);
    }
  }

  /** One iteration sends at most a single elevation in [0, 0.5]. */
  lemma StepScaled(relay: Relay, c: Captured, pointer: Point)
    requires ValidCapture(c)
    ensures AllScaled(RelayLoopStep(relay, c, pointer).sent)
  {
    var sent := RelayLoopStep(relay, c, pointer).sent;
    if sent != [] {
      assert |sent| == 1 && IsScaledElevation(sent[0]);
    }
  }

  // ---------------------------------------------------------------------
  // testing/screen_capture_test.py: border edge, then elevation
  // ---------------------------------------------------------------------

  datatype BorderTick = BorderTick(onBorder: bool, sent: seq<Command>)

  /** One iteration of the main loop: entering the border sends a
      continuous (0.05, 100, 0) vibration, leaving it the stop command, and
      `on_border` changes only on those transitions; then the elevation
      under the pointer is sent if there is one. The loop starts only once
      the capture thread has stored a map, and it reads the screen size
      unguarded, so a stored screen size is required. */
  function BorderLoopStep(onBorder: bool, c: Captured, pointer: Point): (r: BorderTick)
    requires ValidCapture(c) && c.screen.Some?
    ensures var edge := BorderEdge(onBorder, OnScreenBorder(pointer, c.screen.value));
            && r.onBorder == edge.0
            && r.sent == Plugin.BorderCommandsOf(if edge.1.Some? then [edge.1.value] else [])
                         + ElevationCommand(DownsampledElevationAt(c.depthMap, c.screen, pointer))
  {
    var posOnBorder := OnScreenBorder(pointer, c.screen.value);
    var elevation := ElevationCommand(DownsampledElevationAt(c.depthMap, c.screen, pointer));
    if posOnBorder && !onBorder then
      BorderTick(true, [Vibration(0.05, 100.0, 0)] + elevation)
    else if !posOnBorder && onBorder then
      BorderTick(false, [Vibration(0.0, 0.0, 0)] + elevation)
    else
      BorderTick(onBorder, elevation)
  }

  predicate ScreenTicks(ticks: seq<Tick>) {
    forall i :: 0 <= i < |ticks| ==> ValidCapture(ticks[i].capture) && ticks[i].capture.screen.Some?
  }

  function BorderLoop(onBorder: bool, ticks: seq<Tick>): BorderTick
    requires ScreenTicks(ticks)
    decreases |ticks|
  {
    if |ticks| == 0 then BorderTick(onBorder, [])
    else
      var first := BorderLoopStep(onBorder, ticks[0].capture, ticks[0].pointer);
      var rest := BorderLoop(first.onBorder, ticks[1..]);
      BorderTick(rest.onBorder, first.sent + rest.sent)
  }

  /** The border predicate at each tick. */
  function TickBorderValues(ticks: seq<Tick>): (bs: seq<bool>)
    requires ScreenTicks(ticks)
    ensures |bs| == |ticks|
    ensures forall i :: 0 <= i < |ticks| ==> bs[i] == OnScreenBorder(ticks[i].pointer, ticks[i].capture.screen.value)
    decreases |ticks|
  {
    if |ticks| == 0 then []
    else [OnScreenBorder(ticks[0].pointer, ticks[0].capture.screen.value)] + TickBorderValues(ticks[1..])
  }

  /** The vibrations of one iteration are its border command, if any. */
  lemma StepVibrations(onBorder: bool, c: Captured, pointer: Point)
    requires ValidCapture(c) && c.screen.Some?
    ensures var edge := BorderEdge(onBorder, OnScreenBorder(pointer, c.screen.value));
            Vibrations(BorderLoopStep(onBorder, c, pointer).sent) == Plugin.BorderCommandsOf(if edge.1.Some? then [edge.1.value] else [])
  {
    var edge := BorderEdge(onBorder, OnScreenBorder(pointer, c.screen.value));
    var border := Plugin.BorderCommandsOf(if edge.1.Some? then [edge.1.value] else []);
    var elevation := ElevationCommand(DownsampledElevationAt(c.depthMap, c.screen, pointer));
    VibrationsAppend(border, elevation);
    if elevation != [] {
      assert elevation[1..] == [];
      assert Vibrations(elevation) == [];
    }
    if border != [] {
      assert border[1..] == [];
      assert Vibrations(border) == border;
    }
  }

  /** The script's border logic is the shared edge detector: over any run
      of iterations it sends the on-vibration exactly on each entry and the
      stop command exactly on each exit, in the same form as the plugin's
      tracking thread, and `on_border` ends as the last predicate value. */
  lemma {:induction false} ScriptBorderIsEdges(onBorder: bool, ticks: seq<Tick>)
    requires ScreenTicks(ticks)
    ensures Vibrations(BorderLoop(onBorder, ticks).sent) == Plugin.BorderCommandsOf(Edges(onBorder, TickBorderValues(ticks)))
    ensures var bs := TickBorderValues(ticks);
            BorderLoop(onBorder, ticks).onBorder == LastOr(onBorder, bs)
    decreases |ticks|
  {
    if |ticks| > 0 {
      var t := ticks[0];
      var first := BorderLoopStep(onBorder, t.capture, t.pointer);
      var rest := BorderLoop(first.onBorder, ticks[1..]);
      var bs := TickBorderValues(ticks);
      assert bs[1..] == TickBorderValues(ticks[1..]);
      assert BorderLoop(onBorder, ticks).sent == first.sent + rest.sent;
      ScriptBorderIsEdges(first.onBorder, ticks[1..]);
      VibrationsAppend(first.sent, rest.sent);
      StepVibrations(onBorder, t.capture, t.pointer);
      var edge := BorderEdge(onBorder, bs[0]);
      var head := if edge.1.Some? then [edge.1.value] else [];
      assert Edges(onBorder, bs) == head + Edges(edge.0, bs[1..]);
      Plugin.BorderCommandsOfAppend(head, Edges(edge.0, bs[1..]));
      assert bs == [bs[0]] + bs[1..];
      LastOrCons(onBorder, bs[0], bs[1..]);
    }
  }

  /** The whole session after the handshake: the initial elevation, then
      the loop, starting off the border. */
  function BorderSession(ticks: seq<Tick>): (sent: seq<Command>)
    requires ScreenTicks(ticks)
  {
    [INITIAL_ELEVATION] + BorderLoop(false, ticks).sent
  }

  /** A pointer that never touches the border draws no vibration at all. */
  lemma InteriorSessionNeverVibrates(ticks: seq<Tick>)
    requires ScreenTicks(ticks)
    requires forall i :: 0 <= i < |ticks| ==> !OnScreenBorder(ticks[i].pointer, ticks[i].capture.screen.value)
    ensures Vibrations(BorderSession(ticks)) == []
  {
    ScriptBorderIsEdges(false, ticks);
    var bs := TickBorderValues(ticks);
    assert bs == seq(|ticks|, _ => false);
    UnchangedFiresNothing(false, |ticks|);
    VibrationsAppend([INITIAL_ELEVATION], BorderLoop(false, ticks).sent);
    assert [INITIAL_ELEVATION][1..] == [];
  }
}
