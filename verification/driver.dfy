/** The add-on's serial driver (`HardwareDriver`): an `enabled` gate in front
    of three packet senders, and a connection step that opens the port and
    runs the bounded PING handshake. The serial port is abstract: `begin`'s
    result is a parameter and `wait_for_header` is the handshake's oracle. */
module Driver {
  import opened Wrappers
  import opened Protocol
  import opened Handshake

  datatype HardwareDriver = HardwareDriver(enabled: bool)

  /** The driver as its constructor leaves it. */
  function NewDriver(): (d: HardwareDriver)
    ensures d.enabled
  {
    HardwareDriver(true)
  }

  /** A single unacknowledged send of the packet for `c`. */
  predicate IsPlainSendOf(calls: seq<TransportCall>, c: Command) {
    |calls| == 1 && calls[0].Send? && !calls[0].guaranteed && Decode(calls[0].packet) == Some(c)
  }

  function SendVibration(d: HardwareDriver, amplitude: real, frequency: real, duration: int): (calls: seq<TransportCall>)
    ensures !d.enabled ==> calls == []
    ensures d.enabled ==> IsPlainSendOf(calls, Vibration(amplitude, frequency, duration))
    ensures d.enabled ==> calls[0].packet.header == H_VIBRATION
  {
    if !d.enabled then [] else [Send(Encode(Vibration(amplitude, frequency, duration)), false)]
  }

  function SendElevation(d: HardwareDriver, elevation: real): (calls: seq<TransportCall>)
    ensures !d.enabled ==> calls == []
    ensures d.enabled ==> IsPlainSendOf(calls, Elevation(elevation))
    ensures d.enabled ==> calls[0].packet.header == H_ELEVATION
  {
    if !d.enabled then [] else [Send(Encode(Elevation(elevation)), false)]
  }

  /** The device-side rate limit must not be lost, so this is the one send
      made with guaranteed delivery. */
  function SetMaxElevationSpeed(d: HardwareDriver, speed: real): (calls: seq<TransportCall>)
    ensures !d.enabled ==> calls == []
    ensures d.enabled ==> |calls| == 1 && calls[0].Send? && calls[0].guaranteed
    ensures d.enabled ==> Decode(calls[0].packet) == Some(ElevationSpeed(speed))
  {
    if !d.enabled then [] else [Send(Encode(ElevationSpeed(speed)), true)]
  }

  /** The driver's three public senders, as one operation type. */
  datatype DriverOp =
    | OpVibration(amplitude: real, frequency: real, duration: int)
    | OpElevation(elevation: real)
    | OpSpeed(speed: real)

  function Apply(d: HardwareDriver, op: DriverOp): seq<TransportCall> {
    match op
    case OpVibration(a, f, dur) => SendVibration(d, a, f, dur)
    case OpElevation(e) => SendElevation(d, e)
    case OpSpeed(s) => SetMaxElevationSpeed(d, s)
  }

  /** A disabled driver is silent, and only ELEVATION_SPEED asks the
      transport for guaranteed delivery. */
  lemma GuaranteedOnlyForSpeed(d: HardwareDriver, op: DriverOp)
    ensures !d.enabled ==> Apply(d, op) == []
    ensures forall c :: c in Apply(d, op) ==> c.Send? && (c.guaranteed <==> op.OpSpeed?)
  {
  }

  /** `initialize` with the handshake as its authors intended it (logging
      being a side effect of no consequence). `result` is the method's
      return value: nothing when the port does not open, otherwise the new
      `enabled`. */
  method Initialize(d: HardwareDriver, beginOk: bool, oracle: seq<bool>)
    returns (d': HardwareDriver, calls: seq<TransportCall>, result: Option<bool>)
    ensures !beginOk ==> !d'.enabled && calls == [] && result == None
    ensures beginOk ==> result == Some(d'.enabled)
    ensures beginOk ==> (d'.enabled <==> exists i :: 0 <= i < MAX_PING_ATTEMPTS && Answered(oracle, i))
    ensures beginOk && d'.enabled ==> 0 < |calls| && calls[|calls| - 1] == PingAck()
    ensures beginOk && !d'.enabled ==> calls == [Flush] + Attempts(MAX_PING_ATTEMPTS)
  {
    if !beginOk {
      d' := d.(enabled := false);
      calls := [];
      result := None;
      return;
    }
    var ok;
    ok, calls := AwaitPing(oracle, Some(MAX_PING_ATTEMPTS));
    d' := d.(enabled := ok);
    result := Some(ok);
  }

  /** Why `initialize` can fail as written: `_wait_for_ping` calls
      `self.logMessage`, which `HardwareDriver` does not define. */
  datatype InitError = AttributeError

  datatype InitOutcome = InitOutcome(driver: HardwareDriver, calls: seq<TransportCall>, raised: Option<InitError>)

  /** `initialize` as written: once the port opens, the handshake flushes
      and then raises on the undefined `self.logMessage`; the exception
      leaves `enabled` as it was. */
  function InitializeAsWritten(d: HardwareDriver, beginOk: bool): (r: InitOutcome)
    ensures !beginOk ==> !r.driver.enabled && r.calls == [] && r.raised == None
    ensures beginOk ==> r.raised == Some(AttributeError) && r.driver == d
    ensures beginOk ==> PingAck() !in r.calls && WaitForHeader(H_PING, PING_TIMEOUT_MS) !in r.calls
  {
    if !beginOk then InitOutcome(d.(enabled := false), [], None)
    else InitOutcome(d, [Flush], Some(AttributeError))
  }

  /** The discrepancy, on a device that never answers: as written, a fresh
      driver stays enabled after `initialize` and keeps sending, though no
      handshake ran; the intended handshake disables it. */
  method AsWrittenStaysEnabled() returns (asWritten: seq<TransportCall>, intended: seq<TransportCall>)
    ensures |asWritten| == 1 && intended == []
  {
    var r := InitializeAsWritten(NewDriver(), true);
    asWritten := SendVibration(r.driver, 0.1, 180.0, 1);
    var d', calls, result := Initialize(NewDriver(), true, []);
    assert !Answered([], 0);
    intended := SendVibration(d', 0.1, 180.0, 1);
  }
}
