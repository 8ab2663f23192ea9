/** The monolithic global plugin (`GlobalPlugin` in `touchpoint.py`): it
    tracks the image under the pointer, captures it as a depth map, and
    drives the device directly through the framing library (`self.core`).
    Each entry point is a step from one plugin state to the next with the
    commands it sends. Threads, locks, sleeps and the screen reader's
    event chain are left to the caller: a step is one loop iteration or one
    event. */
module Plugin {
  import opened Wrappers
  import opened Numeric
  import opened Protocol
  import opened Handshake
  import opened Filters
  import opened Geometry
  import opened Imaging

  /** `(left, top, right, bottom)`, as `image_region` holds it. */
  datatype Region = Region(left: int, top: int, right: int, bottom: int)

  function RegionOf(loc: Location): (r: Region)
    ensures r.left == loc.left && r.top == loc.top
    ensures r.right - r.left == loc.width && r.bottom - r.top == loc.height
  {
    Region(loc.left, loc.top, loc.Right(), loc.Bottom())
  }

  /** The plugin's attributes that the modelled steps read or write.
      `coreReady` is whether `self.core` is set. */
  datatype PluginState = PluginState(
    enabled: bool,
    coreReady: bool,
    cameraReady: bool,
    currentImage: Option<UIObject>,
    imageRegion: Option<Region>,
    captureEnabled: bool,
    depthMap: Option<seq<seq<real>>>,
    screenSize: Option<Point>,
    onBorder: bool)

  /** The attributes as `__init__` sets them. */
  function InitialState(): (s: PluginState)
    ensures s.enabled && !s.coreReady && !s.cameraReady && !s.captureEnabled && !s.onBorder
    ensures s.currentImage.None? && s.imageRegion.None? && s.depthMap.None?
  {
    PluginState(true, false, false, None, None, false, None, None, false)
  }

  /** What the steps keep true together: an image is tracked exactly while
      capture is on and a region is set; the region is the tracked image's
      bounds; the tracked object is an image; any depth map is a depth map. */
  predicate Valid(s: PluginState) {
    && (s.currentImage.Some? <==> s.captureEnabled)
    && (s.currentImage.Some? <==> s.imageRegion.Some?)
    && (s.currentImage.Some? ==>
          s.currentImage.value.location.Some?
          && s.imageRegion == Some(RegionOf(s.currentImage.value.location.value))
          && IsImageObject(s.currentImage))
    && (s.depthMap.Some? ==> IsDepthMap(s.depthMap.value))
  }

  lemma InitialStateValid()
    ensures Valid(InitialState())
  {
  }

  /** `_is_image_object`: GRAPHIC or IMAGE, with a missing, `None` or
      raising role giving false. Unlike the graphic filter, IMAGEMAP and
      video elements do not count. */
  predicate IsImageObject(obj: Option<UIObject>)
    ensures IsImageObject(obj) <==> obj.Some? && (obj.value.role == Present(Graphic) || obj.value.role == Present(Image))
  {
    match obj
    case None => false
    case Some(o) =>
      match o.role
      case Present(r) => r == Graphic || r == Image
      case _ => false
  }

  /** Every image object is one the graphic filter accepts, unless it has
      the plain IMAGE role, which the filter ignores. */
  lemma ImageObjectVersusGraphicFilter(obj: Option<UIObject>)
    ensures IsImageObject(obj) && obj.value.role == Present(Graphic) ==> GraphicMatches(obj)
    ensures obj.Some? && obj.value.role == Present(ImageMap) ==> !IsImageObject(obj) && GraphicMatches(obj)
  {
  }

  const ENTER_PULSE: Command := Vibration(0.08, 150.0, 100)
  const LEAVE_PULSE: Command := Vibration(0.06, 100.0, 80)
  const BORDER_ON: Command := Vibration(0.05, 100.0, 0)
  const BORDER_OFF: Command := Vibration(0.0, 0.0, 0)

  datatype Step = Step(state: PluginState, sent: seq<Command>)

  /** `_handle_image_enter`. */
  function ImageEnter(s: PluginState, obj: Option<UIObject>): (r: Step)
    ensures obj.None? || obj.value.location.None? ==> r == Step(s, [])
    ensures obj.Some? && obj.value.location.Some? ==>
              && r.state == s.(currentImage := obj, imageRegion := Some(RegionOf(obj.value.location.value)), captureEnabled := true)
              && r.sent == (if s.coreReady then [ENTER_PULSE] else [])
  {
    match obj
    case None => Step(s, [])
    case Some(o) =>
      match o.location
      case None => Step(s, [])
      case Some(loc) =>
        Step(s.(currentImage := obj, imageRegion := Some(RegionOf(loc)), captureEnabled := true),
             if s.coreReady then [ENTER_PULSE] else [])
  }

  /** `_handle_image_leave`: tracking, region and depth map are cleared
      unconditionally; the device gets a pulse and then a zero elevation. */
  function ImageLeave(s: PluginState): (r: Step)
    ensures r.state.currentImage.None? && r.state.imageRegion.None? && r.state.depthMap.None? && !r.state.captureEnabled
    ensures r.state.coreReady == s.coreReady && r.state.onBorder == s.onBorder && r.state.enabled == s.enabled
    ensures s.coreReady ==> r.sent == [LEAVE_PULSE, Elevation(0.0)]
    ensures !s.coreReady ==> r.sent == []
  {
    Step(s.(captureEnabled := false, currentImage := None, imageRegion := None, depthMap := None),
         if s.coreReady then [LEAVE_PULSE, Elevation(0.0)] else [])
  }

  /** Which transition `event_mouseMove` takes. */
  datatype Transition = Enter | Leave | Switch | NoTransition

  /** A switch is an image that is not the tracked one under the screen
      reader's object equality, so the same element reported again with a
      different location is no transition. */
  function Classify(s: PluginState, obj: Option<UIObject>): (t: Transition)
    ensures t == Enter <==> IsImageObject(obj) && s.currentImage.None?
    ensures t == Leave <==> !IsImageObject(obj) && s.currentImage.Some?
    ensures t == Switch <==> IsImageObject(obj) && s.currentImage.Some? && !SameElement(obj.value, s.currentImage.value)
    ensures t == NoTransition <==>
              || (!IsImageObject(obj) && s.currentImage.None?)
              || (IsImageObject(obj) && s.currentImage.Some? && SameElement(obj.value, s.currentImage.value))
  {
    var isImage := IsImageObject(obj);
    var wasOnImage := s.currentImage.Some?;
    if isImage && !wasOnImage then Enter
    else if !isImage && wasOnImage then Leave
    else if isImage && wasOnImage && !SameElement(obj.value, s.currentImage.value) then Switch
    else NoTransition
  }

  /** `event_mouseMove`. It hands the event on to `nextHandler` on every
      path; that call has no effect on the plugin and is not represented. */
  function MouseMove(s: PluginState, obj: Option<UIObject>): (r: Step)
    ensures Classify(s, obj) == NoTransition ==> r.state == s && r.sent == []
    ensures Classify(s, obj) == Enter ==> r.state == ImageEnter(s, obj).state && r.sent == ImageEnter(s, obj).sent
    ensures Classify(s, obj) == Leave ==> r.state == ImageLeave(s).state && r.sent == ImageLeave(s).sent
    ensures Classify(s, obj) == Switch ==>
              var left := ImageLeave(s);
              r.state == ImageEnter(left.state, obj).state && r.sent == left.sent + ImageEnter(left.state, obj).sent
  {
    match Classify(s, obj)
    case Enter => ImageEnter(s, obj)
    case Leave => ImageLeave(s)
    case Switch =>
      var l := ImageLeave(s);
      var e := ImageEnter(l.state, obj);
      Step(e.state, l.sent + e.sent)
    case NoTransition => Step(s, [])
  }

  /** After any pointer move the plugin tracks nothing when the object
      under the pointer is not an image, keeps the tracked object when the
      pointer is still over the same element, and otherwise tracks the new
      image if it has a location; the invariant is kept. */
  lemma MouseMoveTracksImageUnderPointer(s: PluginState, obj: Option<UIObject>)
    requires Valid(s)
    ensures Valid(MouseMove(s, obj).state)
    ensures var tracked := MouseMove(s, obj).state.currentImage;
            if !IsImageObject(obj) then tracked.None?
            else if s.currentImage.Some? && SameElement(obj.value, s.currentImage.value) then tracked == s.currentImage
            else tracked == (if obj.value.location.Some? then obj else None)
    ensures var tracked := MouseMove(s, obj).state.currentImage;
            tracked.Some? ==> IsImageObject(obj) && SameElement(tracked.value, obj.value)
    ensures MouseMove(s, obj).state.onBorder == s.onBorder && MouseMove(s, obj).state.coreReady == s.coreReady
  {
    match Classify(s, obj)
    case Enter =>
    case Leave =>
    case Switch =>
    case NoTransition =>
  }

  /** The tracked element reported again, possibly at a new location after
      a scroll, is no transition: nothing is sent and the stored region
      stays the one taken on entry. */
  lemma SameElementKeepsRegion(s: PluginState, obj: UIObject)
    requires Valid(s) && s.currentImage.Some?
    requires IsImageObject(Some(obj)) && SameElement(obj, s.currentImage.value)
    ensures MouseMove(s, Some(obj)) == Step(s, [])
    ensures MouseMove(s, Some(obj)).state.imageRegion == Some(RegionOf(s.currentImage.value.location.value))
  {
  }

  /** With the link up, switching images sends the leave pulse, a zero
      elevation and the enter pulse, in that order. */
  lemma SwitchSendsLeaveThenEnter(s: PluginState, obj: UIObject)
    requires Valid(s) && s.coreReady
    requires IsImageObject(Some(obj)) && obj.location.Some?
    requires s.currentImage.Some? && !SameElement(s.currentImage.value, obj)
    ensures MouseMove(s, Some(obj)).sent == [LEAVE_PULSE, Elevation(0.0), ENTER_PULSE]
  {
  }

  /** `_capture_screen_as_depth_map` followed by the capture thread's
      update, for one iteration: while capturing a region with a camera,
      a grabbed frame becomes the depth map (channel mean / 255, the
      plugin's `INVERT` being 1) and its size the screen size; a failed grab
      changes nothing. */
  const PLUGIN_INVERT: int := 1

  function CaptureTick(s: PluginState, frame: Option<seq<seq<seq<int>>>>): (r: PluginState)
    requires frame.Some? ==> IsFrame(frame.value)
    ensures !(s.captureEnabled && s.cameraReady && s.imageRegion.Some?) || frame.None? ==> r == s
    ensures s.captureEnabled && s.cameraReady && s.imageRegion.Some? && frame.Some? ==>
              && r == s.(depthMap := r.depthMap, screenSize := r.screenSize)
              && r.depthMap.Some? && IsDepthMap(r.depthMap.value)
              && |r.depthMap.value| == |frame.value| && |r.depthMap.value[0]| == |frame.value[0]|
              && r.screenSize == Some(Point(|frame.value[0]|, |frame.value|))
  {
    if s.captureEnabled && s.cameraReady && s.imageRegion.Some? && frame.Some? then
      s.(depthMap := Some(FrameToDepthMap(frame.value, PLUGIN_INVERT)), screenSize := Some(Point(|frame.value[0]|, |frame.value|)))
    else s
  }

  /** `_get_elevation_at_position`: `None` without a map or region or
      outside the half-open rectangle `[left, right) x [top, bottom)`;
      otherwise the clamped cell times 0.5. */
  function ElevationAt(s: PluginState, pos: Point): (r: Option<real>)
    requires s.depthMap.Some? ==> IsDepthMap(s.depthMap.value)
    ensures r.Some? <==>
              && s.depthMap.Some? && s.imageRegion.Some?
              && s.imageRegion.value.left <= pos.x < s.imageRegion.value.right
              && s.imageRegion.value.top <= pos.y < s.imageRegion.value.bottom
    ensures r.Some? ==> 0.0 <= r.value <= ELEVATION_SCALE
    ensures r.Some? ==>
              r.value == s.depthMap.value[Clamp(pos.y - s.imageRegion.value.top, 0, |s.depthMap.value| - 1)]
                                         [Clamp(pos.x - s.imageRegion.value.left, 0, |s.depthMap.value[0]| - 1)] * ELEVATION_SCALE
  {
    match (s.depthMap, s.imageRegion)
    case (Some(dm), Some(reg)) =>
      var relX := pos.x - reg.left;
      var relY := pos.y - reg.top;
      if relX < 0 || relY < 0 || relX >= reg.right - reg.left || relY >= reg.bottom - reg.top then None
      else
        var mapX := Clamp(relX, 0, |dm[0]| - 1);
        var mapY := Clamp(relY, 0, |dm| - 1);
        Some(dm[mapY][mapX] * ELEVATION_SCALE)
    case _ => None
  }

  /** When the map covers the region pixel for pixel, as a capture of that
      region does, the clamp never moves the index: the lookup is the cell
      under the pointer. */
  lemma ElevationAtCoveringMap(s: PluginState, pos: Point)
    requires s.depthMap.Some? && IsDepthMap(s.depthMap.value) && s.imageRegion.Some?
    requires |s.depthMap.value| == s.imageRegion.value.bottom - s.imageRegion.value.top
    requires |s.depthMap.value[0]| == s.imageRegion.value.right - s.imageRegion.value.left
    requires s.imageRegion.value.left <= pos.x < s.imageRegion.value.right
    requires s.imageRegion.value.top <= pos.y < s.imageRegion.value.bottom
    ensures ElevationAt(s, pos) ==
              Some(s.depthMap.value[pos.y - s.imageRegion.value.top][pos.x - s.imageRegion.value.left] * ELEVATION_SCALE)
  {
  }

  /** One iteration of `_mouse_tracking_thread`'s loop. */
  datatype TickResult = TickResult(state: PluginState, sent: seq<Command>, errorLogged: bool)

  function TrackingTick(s: PluginState, pointer: Point, screen: Point): (r: TickResult)
    requires s.depthMap.Some? ==> IsDepthMap(s.depthMap.value)
    ensures r.state == s.(onBorder := r.state.onBorder)
    ensures var elev := if s.captureEnabled && s.coreReady then ElevationAt(s, pointer) else None;
            var elevSent := if elev.Some? then [Elevation(elev.value)] else [];
            && |elevSent| <= |r.sent| && r.sent[..|elevSent|] == elevSent
            && (OnScreenBorder(pointer, screen) == s.onBorder ==> r.sent == elevSent && !r.errorLogged && r.state == s)
            && (OnScreenBorder(pointer, screen) != s.onBorder && s.coreReady ==>
                  r.sent == elevSent + [if OnScreenBorder(pointer, screen) then BORDER_ON else BORDER_OFF]
                  && r.state.onBorder == OnScreenBorder(pointer, screen) && !r.errorLogged)
            && (OnScreenBorder(pointer, screen) != s.onBorder && !s.coreReady ==>
                  r.sent == [] && r.errorLogged && r.state == s)
  {
    var elev := if s.captureEnabled && s.coreReady then ElevationAt(s, pointer) else None;
    var elevSent := if elev.Some? then [Elevation(elev.value)] else [];
    var step := BorderEdge(s.onBorder, OnScreenBorder(pointer, screen));
    match step.1
    case None => TickResult(s, elevSent, false)
    case Some(entering) =>
      if !s.coreReady then
        // `self.core.create_packet` on a missing core raises; the loop's
        // `except` logs it and `on_border` keeps its old value.
        TickResult(s, elevSent, true)
      else
        TickResult(s.(onBorder := step.0), elevSent + [if entering then BORDER_ON else BORDER_OFF], false)
  }

  /** Everything successive ticks send: elevations and border vibrations. */
  function TrackingCommands(s: PluginState, pointers: seq<Point>, screen: Point): seq<Command>
    requires s.depthMap.Some? ==> IsDepthMap(s.depthMap.value)
    decreases |pointers|
  {
    if |pointers| == 0 then []
    else
      var t := TrackingTick(s, pointers[0], screen);
      t.sent + TrackingCommands(t.state, pointers[1..], screen)
  }

  function BorderCommand(entering: bool): Command {
    if entering then BORDER_ON else BORDER_OFF
  }

  function BorderCommandsOf(edges: seq<bool>): (cs: seq<Command>)
    ensures |cs| == |edges|
    ensures forall i :: 0 <= i < |edges| ==> cs[i] == BorderCommand(edges[i])
    decreases |edges|
  {
    if |edges| == 0 then [] else [BorderCommand(edges[0])] + BorderCommandsOf(edges[1..])
  }

  lemma BorderCommandsOfAppend(a: seq<bool>, b: seq<bool>)
    ensures BorderCommandsOf(a + b) == BorderCommandsOf(a) + BorderCommandsOf(b)
  {
    var l := BorderCommandsOf(a + b);
    var rr := BorderCommandsOf(a) + BorderCommandsOf(b);
    forall i | 0 <= i < |l| ensures l[i] == rr[i] {
      if i < |a| { assert (a + b)[i] == a[i]; } else { assert (a + b)[i] == b[i - |a|]; }
    }
  }



  /** The vibrations of one tick with the link up are its border command,
      if any: the elevation it may send first is not a vibration. */
  lemma TickVibrations(s: PluginState, pointer: Point, screen: Point)
    requires s.coreReady
    requires s.depthMap.Some? ==> IsDepthMap(s.depthMap.value)
    ensures var edge := BorderEdge(s.onBorder, OnScreenBorder(pointer, screen));
            Vibrations(TrackingTick(s, pointer, screen).sent) == BorderCommandsOf(if edge.1.Some? then [edge.1.value] else [])
  {
    var edge := BorderEdge(s.onBorder, OnScreenBorder(pointer, screen));
    var border := BorderCommandsOf(if edge.1.Some? then [edge.1.value] else []);
    var elev := if s.captureEnabled && s.coreReady then ElevationAt(s, pointer) else None;
    var elevSent := if elev.Some? then [Elevation(elev.value)] else [];
    assert TrackingTick(s, pointer, screen).sent == elevSent + border;
    VibrationsAppend(elevSent, border);
    if elevSent != [] {
      assert elevSent[1..] == [];
      assert Vibrations(elevSent) == [];
    }
    if border != [] {
      assert border[1..] == [];
      assert Vibrations(border) == border;
    }
  }

  /** The tracking thread's border logic is the shared edge detector: over
      any run of pointer positions, whether or not an image is being
      captured, the vibrations it sends are the on-vibration exactly on
      each entry and the stop command exactly on each exit. */
  lemma {:induction false} TrackingBorderIsEdges(s: PluginState, pointers: seq<Point>, screen: Point)
    requires s.coreReady
    requires s.depthMap.Some? ==> IsDepthMap(s.depthMap.value)
    ensures Vibrations(TrackingCommands(s, pointers, screen)) == BorderCommandsOf(Edges(s.onBorder, BorderValues(pointers, screen)))
    decreases |pointers|
  {
    if |pointers| > 0 {
      var t := TrackingTick(s, pointers[0], screen);
      var bs := BorderValues(pointers, screen);
      assert bs[1..] == BorderValues(pointers[1..], screen);
      TrackingBorderIsEdges(t.state, pointers[1..], screen);
      VibrationsAppend(t.sent, TrackingCommands(t.state, pointers[1..], screen));
      TickVibrations(s, pointers[0], screen);
      var step := BorderEdge(s.onBorder, bs[0]);
      var head := if step.1.Some? then [step.1.value] else [];
      assert Edges(s.onBorder, bs) == head + Edges(step.0, bs[1..]);
      BorderCommandsOfAppend(head, Edges(step.0, bs[1..]));
    }
  }

  /** `_initialize_async` up to the point where the threads start: the
      serial port, the bounded handshake (whose timeout raises and is
      caught, disabling the plugin) and the camera. The core object exists
      from the start, so `coreReady` holds whatever happens next. */
  method Connect(s: PluginState, beginOk: bool, oracle: seq<bool>, cameraOk: bool)
    returns (s': PluginState, calls: seq<TransportCall>)
    ensures s'.coreReady
    ensures !beginOk ==> !s'.enabled && calls == [] && s'.cameraReady == s.cameraReady
    ensures beginOk ==>
              (s'.enabled <==> s.enabled && cameraOk && exists i :: 0 <= i < MAX_PING_ATTEMPTS && Answered(oracle, i))
    ensures beginOk && !(exists i :: 0 <= i < MAX_PING_ATTEMPTS && Answered(oracle, i)) ==>
              !s'.enabled && s'.cameraReady == s.cameraReady && calls == [Flush] + Attempts(MAX_PING_ATTEMPTS)
    ensures beginOk && (exists i :: 0 <= i < MAX_PING_ATTEMPTS && Answered(oracle, i)) ==>
              0 < |calls| && calls[|calls| - 1] == PingAck() && s'.cameraReady == (cameraOk || s.cameraReady)
  {
    s' := s.(coreReady := true);
    if !beginOk {
      s' := s'.(enabled := false);
      calls := [];
      return;
    }
    var ok;
    ok, calls := AwaitPing(oracle, Some(MAX_PING_ATTEMPTS));
    if !ok {
      s' := s'.(enabled := false);
      return;
    }
    if cameraOk {
      s' := s'.(cameraReady := true);
    } else {
      s' := s'.(enabled := false);
    }
  }
}
