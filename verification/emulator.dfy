/** The stand-alone hardware emulator (`TouchpointEmulator`): it pings the
    add-on until answered, applies each received packet to its state, and
    slews the displayed elevation on every refresh. The packet handlers are
    the ones registered per header; a handler whose reads fail prints the
    error and changes nothing, which is `Decode` returning `None`. */
module Emulator {
  import opened Wrappers
  import opened Protocol
  import opened Numeric
  import opened EmulatorCore
  import Driver

  datatype EmulatorState = EmulatorState(
    addonConnected: bool,
    hardwareConnected: bool,
    currentElevation: real,
    targetElevation: real,
    maxElevationSpeed: real,
    log: seq<LogEntry>)

  /** The state `__init__` sets up. */
  function InitialEmulator(): (s: EmulatorState)
    ensures !s.addonConnected && !s.hardwareConnected
    ensures s.currentElevation == 0.0 && s.targetElevation == 0.0 && s.maxElevationSpeed == 1.0
    ensures s.log == [] && LineCount(s.log) <= LOG_LINE_LIMIT
  {
    EmulatorState(false, false, 0.0, 0.0, 1.0, [])
  }

  /** The effect of one decoded command on the state. */
  function Apply(s: EmulatorState, c: Command): (s': EmulatorState)
    ensures c == Ping ==> s' == s.(addonConnected := true)
    ensures c.Elevation? ==> s' == s.(targetElevation := c.value)
    ensures c.ElevationSpeed? ==> s' == s.(maxElevationSpeed := c.speed)
    ensures c.Vibration? ==> s' == s.(log := AppendBounded(s.log, VibrationEntry(c.amplitude, c.frequency, c.duration)))
    ensures c.Status? ==> s' == s.(hardwareConnected := c.code == 1)
  {
    match c
    case Ping => if !s.addonConnected then s.(addonConnected := true) else s
    case Elevation(v) => s.(targetElevation := v)
    case ElevationSpeed(v) => s.(maxElevationSpeed := v)
    case Vibration(a, f, d) => s.(log := AppendBounded(s.log, VibrationEntry(a, f, d)))
    case Status(code) => s.(hardwareConnected := code == 1)
  }

  /** A packet arriving at the emulator's header handlers. */
  function Receive(s: EmulatorState, p: Packet): (s': EmulatorState)
    ensures Decode(p).None? ==> s' == s
    ensures Decode(p).Some? ==> s' == Apply(s, Decode(p).value)
    ensures s'.currentElevation == s.currentElevation
    ensures s.addonConnected ==> s'.addonConnected
    ensures LineCount(s.log) <= LOG_LINE_LIMIT ==> LineCount(s'.log) <= LOG_LINE_LIMIT
  {
    match Decode(p)
    case None => s
    case Some(c) => Apply(s, c)
  }

  function ReceiveAll(s: EmulatorState, ps: seq<Packet>): EmulatorState
    decreases |ps|
  {
    if |ps| == 0 then s else ReceiveAll(Receive(s, ps[0]), ps[1..])
  }

  /** Packets never move the displayed elevation (only a refresh does),
      never disconnect the add-on, and keep the log within its bound. */
  lemma {:induction false} ReceiveAllInvariants(s: EmulatorState, ps: seq<Packet>)
    requires LineCount(s.log) <= LOG_LINE_LIMIT
    ensures ReceiveAll(s, ps).currentElevation == s.currentElevation
    ensures s.addonConnected ==> ReceiveAll(s, ps).addonConnected
    ensures LineCount(ReceiveAll(s, ps).log) <= LOG_LINE_LIMIT
    decreases |ps|
  {
    if |ps| > 0 {
      ReceiveAllInvariants(Receive(s, ps[0]), ps[1..]);
    }
  }

  /** What one iteration of `_ping_loop` sends. */
  function PingLoopStep(s: EmulatorState): (sent: seq<Packet>)
    ensures sent == [] || sent == [Encode(Ping)]
    ensures sent == [Encode(Ping)] <==> !s.addonConnected
  {
    if !s.addonConnected then [Encode(Ping)] else []
  }

  /** Once the add-on's PING arrives the loop stops pinging, whatever
      arrives afterwards. */
  lemma PingingStopsAfterAnswer(s: EmulatorState, later: seq<Packet>)
    requires LineCount(s.log) <= LOG_LINE_LIMIT
    ensures PingLoopStep(ReceiveAll(Receive(s, Encode(Ping)), later)) == []
  {
    DecodeEncode(Ping);
    ReceiveAllInvariants(Receive(s, Encode(Ping)), later);
  }

  /** One refresh of `_update_display` after `dt` seconds. */
  function Refresh(s: EmulatorState, dt: real): (s': EmulatorState)
    ensures s' == s.(currentElevation := s'.currentElevation)
    ensures 0.0 <= s.maxElevationSpeed * dt ==>
              Abs(s.targetElevation - s'.currentElevation) <= Abs(s.targetElevation - s.currentElevation)
    ensures Abs(s.targetElevation - s.currentElevation) <= DEAD_BAND ==> s' == s
  {
    s.(currentElevation := SlewStep(s.currentElevation, s.targetElevation, s.maxElevationSpeed * dt))
  }

  /** End to end: whatever an enabled add-on driver sends, the emulator
      reads back exactly the value sent: the target elevation, the speed
      limit, or a log line classifying the vibration. */
  lemma DriverToEmulator(s: EmulatorState, op: Driver.DriverOp)
    requires LineCount(s.log) <= LOG_LINE_LIMIT
    ensures var calls := Driver.Apply(Driver.NewDriver(), op);
            |calls| == 1 && calls[0].Send? &&
            var s' := Receive(s, calls[0].packet);
            && (op.OpElevation? ==> s' == s.(targetElevation := op.elevation))
            && (op.OpSpeed? ==> s' == s.(maxElevationSpeed := op.speed))
            && (op.OpVibration? ==>
                  s'.log[|s'.log| - 1] == VibrationEntry(op.amplitude, op.frequency, op.duration)
                  && s' == s.(log := s'.log))
  {
    match op
    case OpElevation(e) => DecodeEncode(Elevation(e));
    case OpSpeed(v) => DecodeEncode(ElevationSpeed(v));
    case OpVibration(a, f, d) => DecodeEncode(Vibration(a, f, d));
  }
}
