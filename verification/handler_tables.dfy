/** The two handler configurations shipped with the add-on, as concrete
    values: `handler_config` (combos with log steps, elevation reset on
    leave, stop command on border leave) and `handler_list` (bare
    vibrations). The lemmas give the exact calls each configured event
    makes when the coordinator accepts them. */
module HandlerTables {
  import opened Wrappers
  import opened Filters
  import opened Effects
  import opened Handlers

  const GRAPHIC_HANDLER_ID: HandlerId := 1
  const BORDER_HANDLER_ID: HandlerId := 2

  /** `handler_config.objectHandlerList[0]`. */
  function ConfigGraphicHandler(): (h: ObjectHandler)
    ensures h.kind.GraphicHandler? && h.filter == GraphicObjects && h.plugin.None?
    ensures h.effects.Keys == {"enter", "leave"}
  {
    NewObjectHandler(GRAPHIC_HANDLER_ID, GraphicHandler, None, Some(map[
      "enter" := ComboEffect([VibrationEffect(0.1, 180.0, 1), LogSubject("Mouse entered image")]),
      "leave" := ComboEffect([GlobalElevationEffect(0.0), VibrationEffect(0.05, 80.0, 1), LogSubject("Mouse left image")])]))
  }

  /** `handler_config.globalHandlerList[0]`. */
  function ConfigBorderHandler(): (h: GlobalHandler)
    ensures h.kind == ScreenBorderHandler(false) && h.filter == MatchAllGlobal
    ensures h.effects.Keys == {"border_enter", "border_leave"}
  {
    NewGlobalHandler(BORDER_HANDLER_ID, true, None, Some(map[
      "border_enter" := ComboEffect([VibrationEffect(0.1, 200.0, 0), LogText("Mouse entered screen border")]),
      "border_leave" := ComboEffect([VibrationEffect(0.0, 0.0, 0), LogText("Mouse left screen border")])]))
  }

  /** `handler_list.objectHandlerList[0]`. */
  function ListGraphicHandler(): (h: ObjectHandler)
    ensures h.kind.GraphicHandler? && h.filter == GraphicObjects && h.plugin.None?
    ensures h.effects.Keys == {"enter", "leave"}
  {
    NewObjectHandler(GRAPHIC_HANDLER_ID, GraphicHandler, None, Some(map[
      "enter" := VibrationEffect(0.1, 180.0, 1),
      "leave" := VibrationEffect(0.05, 80.0, 1)]))
  }

  /** `handler_list.globalHandlerList[0]`. */
  function ListBorderHandler(): (h: GlobalHandler)
    ensures h.kind == ScreenBorderHandler(false) && h.filter == MatchAllGlobal
    ensures h.effects.Keys == {"border_enter", "border_leave"}
  {
    NewGlobalHandler(BORDER_HANDLER_ID, true, None, Some(map[
      "border_enter" := VibrationEffect(0.1, 200.0, 0),
      "border_leave" := VibrationEffect(0.05, 100.0, 0)]))
  }

  /** Entering an image under the configuration: vibrate (0.1, 180, 1),
      then log the object; if the vibration raises, the log step is skipped
      and the error is logged instead. */
  lemma ConfigEnter(obj: UIObject, env: Call -> bool)
    ensures !RaisesIn(env, SendVibration(0.1, 180.0, 1)) ==>
              HandleEvent(ConfigGraphicHandler(), "enter", Some(obj), env) ==
                [SendVibration(0.1, 180.0, 1), LogObject("Mouse entered image", obj)]
    ensures RaisesIn(env, SendVibration(0.1, 180.0, 1)) ==>
              HandleEvent(ConfigGraphicHandler(), "enter", Some(obj), env) ==
                [SendVibration(0.1, 180.0, 1)] + ErrorReport("enter", "GraphicHandler")
  {
  }

  /** Leaving an image under the configuration: elevation 0, then vibrate
      (0.05, 80, 1), then log, in that order. */
  lemma ConfigLeave(obj: UIObject, env: Call -> bool)
    requires !RaisesIn(env, SendElevation(0.0)) && !RaisesIn(env, SendVibration(0.05, 80.0, 1))
    ensures HandleEvent(ConfigGraphicHandler(), "leave", Some(obj), env) ==
              [SendElevation(0.0), SendVibration(0.05, 80.0, 1), LogObject("Mouse left image", obj)]
  {
  }

  /** A failing elevation reset skips the vibration and the log line. */
  lemma ConfigLeaveResetFails(obj: UIObject, env: Call -> bool)
    requires RaisesIn(env, SendElevation(0.0))
    ensures HandleEvent(ConfigGraphicHandler(), "leave", Some(obj), env) ==
              [SendElevation(0.0)] + ErrorReport("leave", "GraphicHandler")
  {
  }

  /** The full graphic-handler run on entering a located image: register
      the capture region, then the configured effect. */
  lemma ConfigGraphicEnterRun(obj: UIObject, env: Call -> bool)
    requires obj.location.Some?
    requires !RaisesIn(env, AddCaptureRegion(GRAPHIC_HANDLER_ID, obj.location.value))
    requires !RaisesIn(env, SendVibration(0.1, 180.0, 1))
    ensures GraphicHandleEvent(ConfigGraphicHandler(), "enter", Some(obj), env) ==
              Outcome([AddCaptureRegion(GRAPHIC_HANDLER_ID, obj.location.value),
                       SendVibration(0.1, 180.0, 1), LogObject("Mouse entered image", obj)], None)
  {
    ConfigEnter(obj, env);
  }

  /** Border events under the configuration: a continuous vibration on
      entering, the stop command on leaving. */
  lemma ConfigBorder(env: Call -> bool)
    requires !RaisesIn(env, SendVibration(0.1, 200.0, 0)) && !RaisesIn(env, SendVibration(0.0, 0.0, 0))
    ensures TriggerEvent(ConfigBorderHandler(), "border_enter", env) ==
              [SendVibration(0.1, 200.0, 0), LogLine("Mouse entered screen border")]
    ensures TriggerEvent(ConfigBorderHandler(), "border_leave", env) ==
              [SendVibration(0.0, 0.0, 0), LogLine("Mouse left screen border")]
  {
  }

  /** Only the four configured events do anything. */
  lemma ConfigUnmappedEventsSilent(event: string, obj: Option<UIObject>, env: Call -> bool)
    ensures event != "enter" && event != "leave" ==>
              HandleEvent(ConfigGraphicHandler(), event, obj, env) == []
              && GraphicHandleEvent(ConfigGraphicHandler(), event, obj, env) == Outcome([], None)
    ensures event != "border_enter" && event != "border_leave" ==>
              TriggerEvent(ConfigBorderHandler(), event, env) == []
  {
  }

  /** The alternative table: single vibrations, no elevation reset on leave,
      no log lines. */
  lemma ListGraphic(obj: Option<UIObject>, env: Call -> bool)
    requires !RaisesIn(env, SendVibration(0.1, 180.0, 1)) && !RaisesIn(env, SendVibration(0.05, 80.0, 1))
    ensures HandleEvent(ListGraphicHandler(), "enter", obj, env) == [SendVibration(0.1, 180.0, 1)]
    ensures HandleEvent(ListGraphicHandler(), "leave", obj, env) == [SendVibration(0.05, 80.0, 1)]
    ensures forall c :: c in HandleEvent(ListGraphicHandler(), "leave", obj, env) ==> !c.SendElevation?
  {
  }

  /** The alternative border table leaves the border with a weaker
      continuous vibration, not with the stop command. */
  lemma ListBorder(env: Call -> bool)
    requires !RaisesIn(env, SendVibration(0.1, 200.0, 0)) && !RaisesIn(env, SendVibration(0.05, 100.0, 0))
    ensures TriggerEvent(ListBorderHandler(), "border_enter", env) == [SendVibration(0.1, 200.0, 0)]
    ensures TriggerEvent(ListBorderHandler(), "border_leave", env) == [SendVibration(0.05, 100.0, 0)]
    ensures TriggerEvent(ListBorderHandler(), "border_leave", env) != TriggerEvent(ConfigBorderHandler(), "border_leave", env)
  {
    ConfigBorderLeaveStarts(env);
  }

  lemma ConfigBorderLeaveStarts(env: Call -> bool)
    ensures 0 < |TriggerEvent(ConfigBorderHandler(), "border_leave", env)|
    ensures TriggerEvent(ConfigBorderHandler(), "border_leave", env)[0] == SendVibration(0.0, 0.0, 0)
  {
  }
}
