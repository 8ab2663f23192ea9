/** The emulator window that runs inside the add-on
    (`TouchpointEmulatorGUI`): the driver pushes state into it through
    setters, vibrations are logged only while the window is shown, and the
    elevation slews only on refreshes of a shown window. Drawing, colour
    maps and wx scheduling are not modelled; a `wx.CallAfter` takes effect
    at once. */
module EmulatorGui {
  import opened Wrappers
  import opened Protocol
  import opened Numeric
  import opened EmulatorCore
  import Emulator

  datatype GuiState = GuiState(
    shown: bool,
    hardwareConnected: bool,
    currentElevation: real,
    targetElevation: real,
    maxElevationSpeed: real,
    log: seq<LogEntry>,
    depthMap: Option<seq<seq<real>>>)

  /** The window as its constructor leaves it: not shown, device
      disconnected, elevation at rest, speed limit one unit per second.
      `shown` stands for `is_open and frame`. */
  function InitialGui(): (g: GuiState)
    ensures !g.shown && !g.hardwareConnected
    ensures g.currentElevation == 0.0 && g.targetElevation == 0.0 && g.maxElevationSpeed == 1.0
    ensures g.log == [] && g.depthMap.None?
  {
    GuiState(false, false, 0.0, 0.0, 1.0, [], None)
  }

  function SetHardwareStatus(g: GuiState, connected: bool): (g': GuiState)
    ensures g' == g.(hardwareConnected := connected)
  {
    g.(hardwareConnected := connected)
  }

  function SetElevation(g: GuiState, elevation: real): (g': GuiState)
    ensures g' == g.(targetElevation := elevation)
  {
    g.(targetElevation := elevation)
  }

  function SetElevationSpeed(g: GuiState, speed: real): (g': GuiState)
    ensures g' == g.(maxElevationSpeed := speed)
  {
    g.(maxElevationSpeed := speed)
  }

  /** `set_vibration`: logged only while the window is shown. */
  function SetVibration(g: GuiState, amplitude: real, frequency: real, duration: int): (g': GuiState)
    ensures !g.shown ==> g' == g
    ensures g.shown ==> g' == g.(log := AppendBounded(g.log, VibrationEntry(amplitude, frequency, duration)))
  {
    if g.shown then g.(log := AppendBounded(g.log, VibrationEntry(amplitude, frequency, duration))) else g
  }

  /** `update_depth_map` keeps a copy of the map, or clears it. */
  function UpdateDepthMap(g: GuiState, dm: Option<seq<seq<real>>>): (g': GuiState)
    ensures g' == g.(depthMap := dm)
  {
    g.(depthMap := dm)
  }

  /** `_update_display`: nothing while the window is hidden, otherwise the
      shared slew step. */
  function UpdateDisplay(g: GuiState, dt: real): (g': GuiState)
    ensures !g.shown ==> g' == g
    ensures g' == g.(currentElevation := g'.currentElevation)
    ensures g.shown && 0.0 <= g.maxElevationSpeed * dt ==>
              Abs(g.targetElevation - g'.currentElevation) <= Abs(g.targetElevation - g.currentElevation)
    ensures Abs(g.targetElevation - g.currentElevation) <= DEAD_BAND ==> g' == g
  {
    if !g.shown then g
    else g.(currentElevation := SlewStep(g.currentElevation, g.targetElevation, g.maxElevationSpeed * dt))
  }

  /** The command router used by `WindowMatchesStandalone`: each command
      routed to the setter that corresponds to the stand-alone emulator's
      handling of its packet. No code of the window itself dispatches
      packets, and the STATUS route in particular is not source behaviour. */
  function Forward(g: GuiState, c: Command): GuiState {
    match c
    case Ping => g
    case Elevation(v) => SetElevation(g, v)
    case ElevationSpeed(v) => SetElevationSpeed(g, v)
    case Vibration(a, f, d) => SetVibration(g, a, f, d)
    case Status(code) => SetHardwareStatus(g, code == 1)
  }

  /** The part of the state both emulators hold. */
  predicate Mirrors(g: GuiState, e: Emulator.EmulatorState) {
    && g.hardwareConnected == e.hardwareConnected
    && g.currentElevation == e.currentElevation
    && g.targetElevation == e.targetElevation
    && g.maxElevationSpeed == e.maxElevationSpeed
    && g.log == e.log
  }

  /** The two emulators implement the same device: a shown window given a
      command, and the stand-alone emulator given its packet, stay in step.
      A hidden window drops vibration lines and freezes the elevation, so it
      can fall out of step. */
  lemma WindowMatchesStandalone(g: GuiState, e: Emulator.EmulatorState, c: Command)
    requires g.shown && Mirrors(g, e)
    ensures Mirrors(Forward(g, c), Emulator.Receive(e, Encode(c)))
  {
    DecodeEncode(c);
    match c
    case Ping =>
    case Elevation(v) =>
    case ElevationSpeed(v) =>
    case Vibration(a, f, d) =>
    case Status(code) =>
  }

  /** A shown window's refresh and the stand-alone emulator's refresh slew
      the elevation by the same step. */
  lemma WindowRefreshMatchesStandalone(g: GuiState, e: Emulator.EmulatorState, dt: real)
    requires g.shown && Mirrors(g, e)
    ensures Mirrors(UpdateDisplay(g, dt), Emulator.Refresh(e, dt))
  {
    assert UpdateDisplay(g, dt).currentElevation == Emulator.Refresh(e, dt).currentElevation;
  }

  lemma HiddenWindowDiverges(e: Emulator.EmulatorState)
    requires Mirrors(InitialGui(), e)
    ensures !Mirrors(Forward(InitialGui(), Vibration(0.1, 180.0, 1)), Emulator.Receive(e, Encode(Vibration(0.1, 180.0, 1))))
  {
    DecodeEncode(Vibration(0.1, 180.0, 1));
  }
}
