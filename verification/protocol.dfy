/** The packet vocabulary shared by the add-on's driver, the plugin and the
    emulator: one-byte headers followed by typed fields. Byte framing,
    checksums and float32 encoding belong to the framing library and are
    abstracted to a sequence of typed fields. */
module Protocol {
  import opened Wrappers

  const H_PING: int := 0xFF
  const H_ELEVATION: int := 0x10
  const H_ELEVATION_SPEED: int := 0x11
  const H_VIBRATION: int := 0x20
  const H_STATUS: int := 0x30

  /** Per-attempt timeout of every `wait_for_header` call, in milliseconds. */
  const PING_TIMEOUT_MS: int := 1000

  /** One field written by `write_float`, `write_int16` or `write_uint8`. */
  datatype Field = Float(f: real) | Int16(i: int) | UInt8(u: int)

  datatype Packet = Packet(header: int, fields: seq<Field>)

  /** A call made on the framing library's protocol object. */
  datatype TransportCall =
    | Flush
    | WaitForHeader(header: int, timeoutMs: int)
    | Send(packet: Packet, guaranteed: bool)

  /** The commands the packets carry, as a receiver reads them. */
  datatype Command =
    | Ping
    | Elevation(value: real)
    | ElevationSpeed(speed: real)
    | Vibration(amplitude: real, frequency: real, duration: int)
    | Status(code: int)

  /** The packet a sender builds for a command: header, then the fields in
      the order the `write_*` calls make them. */
  function Encode(c: Command): Packet {
    match c
    case Ping => Packet(H_PING, [])
    case Elevation(v) => Packet(H_ELEVATION, [Float(v)])
    case ElevationSpeed(s) => Packet(H_ELEVATION_SPEED, [Float(s)])
    case Vibration(a, f, d) => Packet(H_VIBRATION, [Float(a), Float(f), Int16(d)])
    case Status(code) => Packet(H_STATUS, [UInt8(code)])
  }

  function ReadFloat(fields: seq<Field>, pos: nat): Option<real> {
    if pos < |fields| && fields[pos].Float? then Some(fields[pos].f) else None
  }

  function ReadInt16(fields: seq<Field>, pos: nat): Option<int> {
    if pos < |fields| && fields[pos].Int16? then Some(fields[pos].i) else None
  }

  function ReadUInt8(fields: seq<Field>, pos: nat): Option<int> {
    if pos < |fields| && fields[pos].UInt8? then Some(fields[pos].u) else None
  }

  /** What a receiver's header handler reads: the fields in order; a read
      past the payload or of the wrong kind fails (the handler's `except`),
      and unread trailing fields are ignored. Unknown headers have no
      handler. */
  function Decode(p: Packet): Option<Command> {
    if p.header == H_PING then Some(Ping)
    else if p.header == H_ELEVATION then
      match ReadFloat(p.fields, 0)
      case Some(v) => Some(Elevation(v))
      case None => None
    else if p.header == H_ELEVATION_SPEED then
      match ReadFloat(p.fields, 0)
      case Some(s) => Some(ElevationSpeed(s))
      case None => None
    else if p.header == H_VIBRATION then
      match (ReadFloat(p.fields, 0), ReadFloat(p.fields, 1), ReadInt16(p.fields, 2))
      case (Some(a), Some(f), Some(d)) => Some(Vibration(a, f, d))
      case _ => None
    else if p.header == H_STATUS then
      match ReadUInt8(p.fields, 0)
      case Some(code) => Some(Status(code))
      case None => None
    else None
  }

  /** Every command survives being written and read back. */
  lemma DecodeEncode(c: Command)
    ensures Decode(Encode(c)) == Some(c)
  {
  }

  /** Conversely, whatever decodes is the encoding of the decoded command,
      followed only by fields the receiver never reads. */
  lemma EncodeDecode(p: Packet)
    requires Decode(p).Some?
    ensures Encode(Decode(p).value).header == p.header
    ensures Encode(Decode(p).value).fields <= p.fields
  {
  }

  /** The header identifies the command: two commands of different kinds
      never share a packet. */
  lemma EncodeInjective(c1: Command, c2: Command)
    requires Encode(c1) == Encode(c2)
    ensures c1 == c2
  {
    DecodeEncode(c1);
    DecodeEncode(c2);
  }

  /** The vibration commands among `cs`, in order. */
  function Vibrations(cs: seq<Command>): seq<Command>
    decreases |cs|
  {
    if |cs| == 0 then []
    else (if cs[0].Vibration? then [cs[0]] else []) + Vibrations(cs[1..])
  }

  lemma {:induction false} VibrationsAppend(a: seq<Command>, b: seq<Command>)
    ensures Vibrations(a + b) == Vibrations(a) + Vibrations(b)
    decreases |a|
  {
    if |a| == 0 {
      assert a + b == b;
    } else {
      var head := if a[0].Vibration? then [a[0]] else [];
      assert (a + b)[0] == a[0];
      assert (a + b)[1..] == a[1..] + b;
      assert Vibrations(a + b) == head + Vibrations(a[1..] + b);
      VibrationsAppend(a[1..], b);
      assert Vibrations(a) == head + Vibrations(a[1..]);
    }
  }
}
