/** Handlers: object handlers react to screen-reader objects, global
    handlers to the state of the whole screen. Both look an event name up in
    their effect table and run the effect, containing any exception it
    raises in the add-on's log. The graphic handler brackets its effects with
    capture-region registration and turns captured pixels into elevations;
    the screen-border handler is an edge-triggered border detector. */
module Handlers {
  import opened Wrappers
  import opened Numeric
  import opened Filters
  import opened Effects
  import opened Geometry
  import opened Imaging

  /** Identity of the coordinator a handler reports to. */
  type PluginRef = nat

  datatype ObjectKind = PlainObjectHandler | GraphicHandler
  datatype GlobalKind = PlainGlobalHandler | ScreenBorderHandler(onBorder: bool)

  datatype ObjectHandler = ObjectHandler(
    id: HandlerId,
    plugin: Option<PluginRef>,
    filter: ObjectFilter,
    effects: map<string, Effect>,
    kind: ObjectKind)

  datatype GlobalHandler = GlobalHandler(
    id: HandlerId,
    plugin: Option<PluginRef>,
    filter: GlobalFilter,
    effects: map<string, Effect>,
    kind: GlobalKind)

  /** `effects or {}`: a missing table is an empty one. */
  function EffectsOrEmpty(effects: Option<map<string, Effect>>): (m: map<string, Effect>)
    ensures effects.None? ==> m == map[]
    ensures effects.Some? ==> m == effects.value
  {
    match effects
    case None => map[]
    case Some(t) => t
  }

  /** `ObjectHandler(filter, effects)` and `GraphicHandler(filter, effects)`:
      unattached, with the given filter (by default everything, or graphics
      for the graphic handler). */
  function NewObjectHandler(id: HandlerId, kind: ObjectKind, filter: Option<ObjectFilter>, effects: Option<map<string, Effect>>): (h: ObjectHandler)
    ensures h.id == id && h.kind == kind && h.plugin.None?
    ensures filter.None? && kind.PlainObjectHandler? ==> h.filter == MatchAllObjects
    ensures filter.None? && kind.GraphicHandler? ==> h.filter == GraphicObjects
    ensures filter.Some? ==> h.filter == filter.value
    ensures h.effects == EffectsOrEmpty(effects)
  {
    var f := match filter
      case Some(f) => f
      case None => if kind.GraphicHandler? then GraphicObjects else MatchAllObjects;
    ObjectHandler(id, None, f, EffectsOrEmpty(effects), kind)
  }

  /** `GlobalHandler(...)` and `ScreenBorderHandler(...)`; the border
      handler starts off the border. */
  function NewGlobalHandler(id: HandlerId, border: bool, filter: Option<GlobalFilter>, effects: Option<map<string, Effect>>): (h: GlobalHandler)
    ensures h.id == id && h.plugin.None?
    ensures border <==> h.kind.ScreenBorderHandler?
    ensures border ==> !h.kind.onBorder
    ensures h.filter == filter.GetOr(MatchAllGlobal)
    ensures h.effects == EffectsOrEmpty(effects)
  {
    GlobalHandler(id, None, filter.GetOr(MatchAllGlobal), EffectsOrEmpty(effects),
      if border then ScreenBorderHandler(false) else PlainGlobalHandler)
  }

  /** `self.__class__.__name__`, which the error line names. */
  function ObjectClassName(k: ObjectKind): string {
    match k
    case PlainObjectHandler => "ObjectHandler"
    case GraphicHandler => "GraphicHandler"
  }

  function GlobalClassName(k: GlobalKind): string {
    match k
    case PlainGlobalHandler => "GlobalHandler"
    case ScreenBorderHandler(_) => "ScreenBorderHandler"
  }

  /** The two log lines the `except` branch writes: the error, naming the
      event and the handler's class, then the traceback. The exception's own
      text is not modelled. */
  function ErrorReport(event: string, className: string): (lines: seq<Call>)
    ensures |lines| == 2 && forall c :: c in lines ==> IsLog(c)
  {
    [LogLine("[ERROR] Effect '" + event + "' failed in " + className), LogLine("traceback")]
  }

  /** The body shared by `handle_event` and `trigger_event`: run the mapped
      effect, if any, and log an exception instead of letting it escape. */
  function Dispatch(effects: map<string, Effect>, event: string, subject: Option<UIObject>, className: string, env: Call -> bool): (trace: seq<Call>)
    ensures event !in effects ==> trace == []
    ensures event in effects ==>
      var o := Invoke(effects[event], subject, env);
      && o.trace <= trace
      && (o.Ok() ==> trace == o.trace)
      && (!o.Ok() ==> trace[|o.trace|..] == ErrorReport(event, className))
  {
    if event !in effects then []
    else
      var o := Invoke(effects[event], subject, env);
      if o.Ok() then o.trace else o.trace + ErrorReport(event, className)
  }

  /** Errors are contained: whatever raises, the calls a dispatch makes are
      the calls the effect would make with nothing raising, cut short, then
      only log lines. */
  lemma DispatchContainsErrors(effects: map<string, Effect>, event: string, subject: Option<UIObject>, className: string, env: Call -> bool)
    ensures exists n :: 0 <= n <= |Dispatch(effects, event, subject, className, env)|
              && Dispatch(effects, event, subject, className, env)[..n] <= Dispatch(effects, event, subject, className, NeverRaises())
              && forall i :: n <= i < |Dispatch(effects, event, subject, className, env)| ==> IsLog(Dispatch(effects, event, subject, className, env)[i])
  {
    var t := Dispatch(effects, event, subject, className, env);
    if event in effects {
      var e := effects[event];
      RaisingTruncates(e, subject, env);
      var o := Invoke(e, subject, env);
      var n := |o.trace|;
      assert t[..n] == o.trace;
      if !Invoke(e, subject, NeverRaises()).Ok() {
        assert !o.Ok();
        assert o.trace <= Dispatch(effects, event, subject, className, NeverRaises());
      }
      if !o.Ok() {
        var report := ErrorReport(event, className);
        assert t == o.trace + report;
        assert forall i :: n <= i < |t| ==> t[i] == report[i - n];
      }
    } else {
      assert t[..0] == [];
    }
  }

  /** `ObjectHandler.handle_event`. */
  function HandleEvent(h: ObjectHandler, event: string, obj: Option<UIObject>, env: Call -> bool): (trace: seq<Call>)
    ensures event !in h.effects ==> trace == []
    ensures event in h.effects && Invoke(h.effects[event], obj, env).Ok() ==> trace == Invoke(h.effects[event], obj, env).trace
  {
    Dispatch(h.effects, event, obj, ObjectClassName(h.kind), env)
  }

  /** `GlobalHandler.trigger_event`: the effect sees no object. */
  function TriggerEvent(h: GlobalHandler, event: string, env: Call -> bool): (trace: seq<Call>)
    ensures event !in h.effects ==> trace == []
    ensures event in h.effects && Invoke(h.effects[event], None, env).Ok() ==> trace == Invoke(h.effects[event], None, env).trace
  {
    Dispatch(h.effects, event, None, GlobalClassName(h.kind), env)
  }

  /** With no object to format, a global handler never logs one. */
  lemma TriggerEventLogsNoObject(h: GlobalHandler, event: string, env: Call -> bool)
    ensures forall c :: c in TriggerEvent(h, event, env) ==> !c.LogObject?
  {
    if event in h.effects {
      var o := Invoke(h.effects[event], None, env);
      SubjectPassedThrough(h.effects[event], None, env);
      var report := ErrorReport(event, GlobalClassName(h.kind));
      var t := TriggerEvent(h, event, env);
      assert t == if o.Ok() then o.trace else o.trace + report;
      forall c | c in t ensures !c.LogObject? {
        if c !in o.trace {
          assert c in report;
        }
      }
    }
  }

  /** `GraphicHandler.handle_event`. The region calls sit outside the
      `try`, so an exception from them escapes. */
  function GraphicHandleEvent(h: ObjectHandler, event: string, obj: Option<UIObject>, env: Call -> bool): (r: Outcome)
    ensures event == "enter" && (obj.None? || obj.value.location.None?) ==> r == Outcome([], None)
    ensures event == "enter" && obj.Some? && obj.value.location.Some? ==>
              0 < |r.trace| && r.trace[0] == AddCaptureRegion(h.id, obj.value.location.value)
    ensures event == "leave" ==> 0 < |r.trace| && r.trace[0] == RemoveCaptureRegion(h.id)
    ensures event != "enter" && event != "leave" ==> r == Outcome(HandleEvent(h, event, obj, env), None)
    ensures 0 < |r.trace| && RaisesIn(env, r.trace[0]) && (event == "enter" || event == "leave") ==>
              r == Outcome([r.trace[0]], Some(CoordinatorError(r.trace[0])))
    ensures r.failure.Some? ==> |r.trace| == 1 && (r.trace[0].AddCaptureRegion? || r.trace[0].RemoveCaptureRegion?)
  {
    if event == "enter" then
      match obj
      case None => Outcome([], None)
      case Some(o) =>
        match o.location
        case None => Outcome([], None)
        case Some(loc) => RegionThenDispatch(AddCaptureRegion(h.id, loc), h, event, obj, env)
    else if event == "leave" then
      RegionThenDispatch(RemoveCaptureRegion(h.id), h, event, obj, env)
    else
      Outcome(HandleEvent(h, event, obj, env), None)
  }

  function RegionThenDispatch(region: Call, h: ObjectHandler, event: string, obj: Option<UIObject>, env: Call -> bool): (r: Outcome)
    ensures 0 < |r.trace| && r.trace[0] == region
    ensures RaisesIn(env, region) ==> r == Outcome([region], Some(CoordinatorError(region)))
    ensures !RaisesIn(env, region) ==> r == Outcome([region] + HandleEvent(h, event, obj, env), None)
  {
    var p := Perform(env, region);
    if !p.Ok() then p else Outcome(p.trace + HandleEvent(h, event, obj, env), None)
  }

  /** Enter and leave bracket the effects: with the region calls succeeding,
      entering a located object registers the region and then runs exactly
      what the plain handler runs, and leaving unregisters it first. */
  lemma GraphicBracketsEffects(h: ObjectHandler, obj: UIObject, env: Call -> bool)
    requires obj.location.Some?
    requires !RaisesIn(env, AddCaptureRegion(h.id, obj.location.value))
    requires !RaisesIn(env, RemoveCaptureRegion(h.id))
    ensures GraphicHandleEvent(h, "enter", Some(obj), env) ==
              Outcome([AddCaptureRegion(h.id, obj.location.value)] + HandleEvent(h, "enter", Some(obj), env), None)
    ensures GraphicHandleEvent(h, "leave", Some(obj), env) ==
              Outcome([RemoveCaptureRegion(h.id)] + HandleEvent(h, "leave", Some(obj), env), None)
  {
  }

  /** Handler elevation scale and the depth-to-elevation mapping: depth 0.5
      is the neutral height. */
  const HANDLER_ELEVATION_SCALE: real := 0.5

  function DepthToElevation(d: real): (e: real)
    ensures InUnit(d) ==> -HANDLER_ELEVATION_SCALE <= e <= HANDLER_ELEVATION_SCALE
  {
    (d - 0.5) * 2.0 * HANDLER_ELEVATION_SCALE
  }

  /** The mapping is the affine bijection of [0, 1] onto [-0.5, 0.5] that
      fixes the midpoint: it is strictly increasing and inverted by
      `e + 0.5`. */
  lemma DepthToElevationLaws(d1: real, d2: real)
    ensures DepthToElevation(0.0) == -0.5 && DepthToElevation(0.5) == 0.0 && DepthToElevation(1.0) == 0.5
    ensures d1 < d2 <==> DepthToElevation(d1) < DepthToElevation(d2)
    ensures DepthToElevation(d1) + 0.5 == d1
  {
  }

  /** The column (or row) sampled for a pointer coordinate: the pointer's
      offset into the region, scaled to the map's size, truncated, then
      clamped into the map. The source divides by `self.region`, which the
      handler never sets; the model divides by the `region` argument. */
  function SampleIndex(pointer: int, origin: int, extent: int, cells: nat): (i: int)
    requires extent != 0 && 0 < cells
    ensures 0 <= i < cells
  {
    Clamp(TruncToInt((pointer - origin) as real * cells as real / extent as real), 0, cells - 1)
  }

  /** A pointer inside the region samples the cell covering it: the clamp
      does nothing. */
  lemma SampleIndexInsideRegion(pointer: int, origin: int, extent: int, cells: nat)
    requires 0 < extent && 0 < cells
    requires origin <= pointer < origin + extent
    ensures SampleIndex(pointer, origin, extent, cells) == TruncToInt((pointer - origin) as real * cells as real / extent as real)
    ensures SampleIndex(pointer, origin, extent, cells) as real * extent as real <= (pointer - origin) as real * cells as real
  {
    InsideRegionUnclamped(pointer, origin, extent, cells);
    InsideRegionScaledBack(pointer, origin, extent, cells);
  }

  lemma InsideRegionUnclamped(pointer: int, origin: int, extent: int, cells: nat)
    requires 0 < extent && 0 < cells
    requires origin <= pointer < origin + extent
    ensures SampleIndex(pointer, origin, extent, cells) == TruncToInt((pointer - origin) as real * cells as real / extent as real)
  {
    ScaledOffsetBounds((pointer - origin) as real, cells as real, extent as real);
    SampleIndexUnclamped(pointer, origin, extent, cells);
  }

  lemma InsideRegionScaledBack(pointer: int, origin: int, extent: int, cells: nat)
    requires 0 < extent && 0 < cells
    requires origin <= pointer < origin + extent
    ensures SampleIndex(pointer, origin, extent, cells) as real * extent as real <= (pointer - origin) as real * cells as real
  {
    var off := (pointer - origin) as real;
    var q := off * cells as real / extent as real;
    InsideRegionUnclamped(pointer, origin, extent, cells);
    ScaledOffsetBounds(off, cells as real, extent as real);
    TruncScaledBack(TruncToInt(q) as real, q, extent as real);
  }

  /** A scaled offset inside [0, cells) is truncated and not clamped. */
  lemma SampleIndexUnclamped(pointer: int, origin: int, extent: int, cells: nat)
    requires 0 < extent && 0 < cells
    requires 0.0 <= (pointer - origin) as real * cells as real / extent as real < cells as real
    ensures SampleIndex(pointer, origin, extent, cells) == TruncToInt((pointer - origin) as real * cells as real / extent as real)
  {
    ClampTruncInRange((pointer - origin) as real * cells as real / extent as real, cells);
  }

  /** An offset inside the extent, scaled to `cells`, stays below `cells`. */
  lemma ScaledOffsetBounds(off: real, cells: real, extent: real)
    requires 0.0 <= off < extent && 0.0 < cells
    ensures 0.0 <= off * cells / extent < cells
    ensures off * cells / extent * extent == off * cells
  {
    assert off * cells < extent * cells;
  }

  /** Truncating a value of [0, cells) gives an index the clamp keeps. */
  lemma ClampTruncInRange(q: real, cells: nat)
    requires 0.0 <= q < cells as real
    ensures 0 <= TruncToInt(q) < cells
    ensures Clamp(TruncToInt(q), 0, cells - 1) == TruncToInt(q)
  {
  }

  lemma TruncScaledBack(t: real, q: real, extent: real)
    requires t <= q && 0.0 < extent
    ensures t * extent <= q * extent
  {
  }

  /** `GraphicHandler.capture_callback`, given the depth map the colour
      conversion and blur produce and the pointer the coordinator reports.
      A zero-sized region divides by zero after the pointer query. */
  function CaptureCallback(region: Location, dm: seq<seq<real>>, pointer: Point, env: Call -> bool): (r: Outcome)
    requires IsDepthMap(dm)
    ensures 0 < |r.trace| && r.trace[0] == GetMousePosition
    ensures RaisesIn(env, GetMousePosition) ==> r == Outcome([GetMousePosition], Some(CoordinatorError(GetMousePosition)))
    ensures !RaisesIn(env, GetMousePosition) && (region.width == 0 || region.height == 0) ==>
              r == Outcome([GetMousePosition], Some(ZeroDivision))
    ensures !RaisesIn(env, GetMousePosition) && region.width != 0 && region.height != 0 ==>
              |r.trace| == 2 && r.trace[1].SendElevation?
              && -HANDLER_ELEVATION_SCALE <= r.trace[1].elevation <= HANDLER_ELEVATION_SCALE
              && r.trace[1].elevation == DepthToElevation(
                   dm[SampleIndex(pointer.y, region.top, region.height, |dm|)]
                     [SampleIndex(pointer.x, region.left, region.width, |dm[0]|)])
              && (r.Ok() <==> !RaisesIn(env, r.trace[1]))
  {
    var q := Perform(env, GetMousePosition);
    if !q.Ok() then q
    else if region.width == 0 || region.height == 0 then Outcome(q.trace, Some(ZeroDivision))
    else
      var col := SampleIndex(pointer.x, region.left, region.width, |dm[0]|);
      var row := SampleIndex(pointer.y, region.top, region.height, |dm|);
      var send := Perform(env, SendElevation(DepthToElevation(dm[row][col])));
      Outcome(q.trace + send.trace, send.failure)
  }

  /** What `ScreenBorderHandler.run` leaves behind: the remembered state,
      the event it fired, and the calls it made. */
  datatype BorderRunResult = BorderRunResult(onBorder: bool, fired: Option<string>, outcome: Outcome)

  function BorderEventName(entering: bool): string {
    if entering then "border_enter" else "border_leave"
  }

  /** `ScreenBorderHandler.run` on a border handler remembering `onBorder`,
      with the coordinator reporting `pointer` and `screen`. The two
      queries are not guarded, so their exceptions escape and the state is
      kept. */
  function BorderRun(h: GlobalHandler, pointer: Point, screen: Point, env: Call -> bool): (r: BorderRunResult)
    requires h.kind.ScreenBorderHandler?
    ensures RaisesIn(env, GetMousePosition) || RaisesIn(env, GetScreenSize) ==>
              r.onBorder == h.kind.onBorder && r.fired.None? && !r.outcome.Ok()
    ensures !RaisesIn(env, GetMousePosition) && !RaisesIn(env, GetScreenSize) ==>
              && r.onBorder == OnScreenBorder(pointer, screen)
              && (r.fired.Some? <==> OnScreenBorder(pointer, screen) != h.kind.onBorder)
              && (r.fired.Some? ==> r.fired.value == BorderEventName(r.onBorder))
              && r.outcome.Ok()
              && 2 <= |r.outcome.trace|
              && r.outcome.trace[..2] == [GetMousePosition, GetScreenSize]
              && (r.fired.None? ==> |r.outcome.trace| == 2)
              && (r.fired.Some? ==> r.outcome.trace[2..] == TriggerEvent(h, r.fired.value, env))
  {
    var q1 := Perform(env, GetMousePosition);
    if !q1.Ok() then BorderRunResult(h.kind.onBorder, None, q1)
    else
      var q2 := Perform(env, GetScreenSize);
      if !q2.Ok() then BorderRunResult(h.kind.onBorder, None, Outcome(q1.trace + q2.trace, q2.failure))
      else
        var queries := q1.trace + q2.trace;
        var step := BorderEdge(h.kind.onBorder, OnScreenBorder(pointer, screen));
        match step.1
        case None => BorderRunResult(step.0, None, Outcome(queries, None))
        case Some(entering) =>
          var name := BorderEventName(entering);
          BorderRunResult(step.0, Some(name), Outcome(queries + TriggerEvent(h, name, env), None))
  }

  /** Runs of the border handler over successive pointer positions, with the
      coordinator's queries succeeding: the events it fires. */
  function BorderEvents(h: GlobalHandler, pointers: seq<Point>, screen: Point, env: Call -> bool): seq<string>
    requires h.kind.ScreenBorderHandler?
    decreases |pointers|
  {
    if |pointers| == 0 then []
    else
      var r := BorderRun(h, pointers[0], screen, env);
      (if r.fired.Some? then [r.fired.value] else [])
        + BorderEvents(h.(kind := ScreenBorderHandler(r.onBorder)), pointers[1..], screen, env)
  }



  function EventNames(edges: seq<bool>): (names: seq<string>)
    ensures |names| == |edges|
    ensures forall i :: 0 <= i < |edges| ==> names[i] == BorderEventName(edges[i])
    decreases |edges|
  {
    if |edges| == 0 then [] else [BorderEventName(edges[0])] + EventNames(edges[1..])
  }

  /** The handler is the shared edge detector: the events fired over any
      run of positions are the detector's transitions on the border
      predicate, named. Hence events alternate, starting with
      `border_enter` from a fresh handler, and a pointer that stays put
      fires at most once. */
  lemma {:induction false} BorderEventsAreEdges(h: GlobalHandler, pointers: seq<Point>, screen: Point, env: Call -> bool)
    requires h.kind.ScreenBorderHandler?
    requires !RaisesIn(env, GetMousePosition) && !RaisesIn(env, GetScreenSize)
    ensures BorderEvents(h, pointers, screen, env) == EventNames(Edges(h.kind.onBorder, BorderValues(pointers, screen)))
    decreases |pointers|
  {
    if |pointers| > 0 {
      var r := BorderRun(h, pointers[0], screen, env);
      var bs := BorderValues(pointers, screen);
      assert bs[1..] == BorderValues(pointers[1..], screen);
      BorderEventsAreEdges(h.(kind := ScreenBorderHandler(r.onBorder)), pointers[1..], screen, env);
      var step := BorderEdge(h.kind.onBorder, bs[0]);
      var head := if step.1.Some? then [step.1.value] else [];
      assert Edges(h.kind.onBorder, bs) == head + Edges(step.0, bs[1..]);
      EventNamesAppend(head, Edges(step.0, bs[1..]));
    }
  }

  lemma {:induction false} EventNamesAppend(a: seq<bool>, b: seq<bool>)
    ensures EventNames(a + b) == EventNames(a) + EventNames(b)
    decreases |a|
  {
    if |a| == 0 {
      assert a + b == b;
    } else {
      assert (a + b)[0] == a[0];
      assert (a + b)[1..] == a[1..] + b;
      EventNamesAppend(a[1..], b);
    }
  }

  /** A handler manager: its coordinator and the list object holding its
      handlers. Lists live in a store, as Python list objects do, so two
      managers may hold the same list. */
  type ListRef = nat

  datatype Store = Store(lists: seq<seq<ObjectHandler>>)

  datatype HandlerManager = HandlerManager(plugin: PluginRef, handlers: ListRef)

  predicate ValidManager(s: Store, m: HandlerManager) {
    m.handlers < |s.lists|
  }

  /** The single list object evaluated once, when `__init__` is defined, and
      used by every manager constructed without a list. */
  const DEFAULT_LIST: ListRef := 0

  /** A store as at import time: just the default list, empty. */
  function InitialStore(): (s: Store)
    ensures |s.lists| == 1 && s.lists[DEFAULT_LIST] == []
  {
    Store([[]])
  }

  function HandlersOf(s: Store, m: HandlerManager): seq<ObjectHandler>
    requires ValidManager(s, m)
  {
    s.lists[m.handlers]
  }

  /** `HandlerManager(plugin, handlers=[])` as written: without a list the
      manager adopts the shared default. */
  function NewManager(s: Store, plugin: PluginRef, handlers: Option<ListRef>): (m: HandlerManager)
    requires handlers.Some? ==> handlers.value < |s.lists|
    requires |s.lists| > 0
    ensures ValidManager(s, m) && m.plugin == plugin
    ensures handlers.None? ==> m.handlers == DEFAULT_LIST
    ensures handlers.Some? ==> m.handlers == handlers.value
  {
    HandlerManager(plugin, handlers.GetOr(DEFAULT_LIST))
  }

  /** The constructor as intended: without a list the manager gets a fresh
      empty one of its own. */
  function NewManagerFresh(s: Store, plugin: PluginRef, handlers: Option<ListRef>): (r: (Store, HandlerManager))
    requires handlers.Some? ==> handlers.value < |s.lists|
    ensures ValidManager(r.0, r.1) && r.1.plugin == plugin
    ensures handlers.None? ==> r.1.handlers == |s.lists| && HandlersOf(r.0, r.1) == [] && r.0.lists[..|s.lists|] == s.lists
    ensures handlers.Some? ==> r == (s, HandlerManager(plugin, handlers.value))
  {
    match handlers
    case None => (Store(s.lists + [[]]), HandlerManager(plugin, |s.lists|))
    case Some(l) => (s, HandlerManager(plugin, l))
  }

  /** `add_handler`: append to the manager's list and point the handler at
      the manager's coordinator. Every other list is untouched. */
  function AddHandler(s: Store, m: HandlerManager, h: ObjectHandler): (s': Store)
    requires ValidManager(s, m)
    ensures |s'.lists| == |s.lists|
    ensures HandlersOf(s', m) == HandlersOf(s, m) + [h.(plugin := Some(m.plugin))]
    ensures forall l :: 0 <= l < |s.lists| && l != m.handlers ==> s'.lists[l] == s.lists[l]
  {
    Store(s.lists[m.handlers := s.lists[m.handlers] + [h.(plugin := Some(m.plugin))]])
  }

  /** `populate`: `add_handler` for each handler in turn. */
  function Populate(s: Store, m: HandlerManager, hs: seq<ObjectHandler>): (s': Store)
    requires ValidManager(s, m)
    ensures |s'.lists| == |s.lists|
    decreases |hs|
  {
    if |hs| == 0 then s
    else Populate(AddHandler(s, m, hs[0]), m, hs[1..])
  }

  function Attached(hs: seq<ObjectHandler>, p: PluginRef): (r: seq<ObjectHandler>)
    ensures |r| == |hs|
    ensures forall i :: 0 <= i < |hs| ==> r[i] == hs[i].(plugin := Some(p))
    decreases |hs|
  {
    if |hs| == 0 then [] else [hs[0].(plugin := Some(p))] + Attached(hs[1..], p)
  }

  /** `populate` keeps the given order, after what the list already held,
      attaches every handler to the manager's coordinator, and touches no
      other list. */
  lemma {:induction false} PopulateAppendsInOrder(s: Store, m: HandlerManager, hs: seq<ObjectHandler>)
    requires ValidManager(s, m)
    ensures HandlersOf(Populate(s, m, hs), m) == HandlersOf(s, m) + Attached(hs, m.plugin)
    ensures forall l :: 0 <= l < |s.lists| && l != m.handlers ==> Populate(s, m, hs).lists[l] == s.lists[l]
    decreases |hs|
  {
    if |hs| > 0 {
      var s1 := AddHandler(s, m, hs[0]);
      PopulateAppendsInOrder(s1, m, hs[1..]);
      assert Attached(hs, m.plugin) == [hs[0].(plugin := Some(m.plugin))] + Attached(hs[1..], m.plugin);
    }
  }

  /** As written, two managers built without a list share it: a handler
      added to one is a handler of the other. */
  lemma DefaultListShared(p1: PluginRef, p2: PluginRef, h: ObjectHandler)
    ensures
      var s := InitialStore();
      var m1 := NewManager(s, p1, None);
      var m2 := NewManager(s, p2, None);
      var s' := AddHandler(s, m1, h);
      HandlersOf(s', m2) == [h.(plugin := Some(p1))]
  {
  }

  /** As intended, a second manager's handlers are unaffected by the first's. */
  lemma FreshListsIndependent(s: Store, p1: PluginRef, p2: PluginRef, h: ObjectHandler)
    ensures
      var (s1, m1) := NewManagerFresh(s, p1, None);
      var (s2, m2) := NewManagerFresh(s1, p2, None);
      var s3 := AddHandler(s2, m1, h);
      m1.handlers != m2.handlers && HandlersOf(s3, m2) == [] && HandlersOf(s3, m1) == [h.(plugin := Some(p1))]
  {
  }
}
