/** The mouse-relay half of the test scripts: the device sends pointer
    deltas and button states, and the host replays them through the
    automation library, whose calls are recorded as `MouseAction` values.
    `mouse_emulator_test.py` applies each three-byte packet at once and
    remembers the last click state; the other scripts register a movement
    handler and a button handler that only accumulate, and drain the
    accumulated values from their main loop. The handlers of those scripts
    are textually the same and are defined once here. */
module MouseRelay {
  import opened Wrappers
  import opened Numeric
  import opened Geometry

  /** Header of a movement packet (and, in the first script, of the
      combined movement-and-click packet). */
  const H_MOUSE: int := 0x01
  /** Header of a button packet. */
  const H_BUTTON: int := 0x02

  /** A call into the automation library. */
  datatype MouseAction = MoveRel(dx: int, dy: int) | MouseDown | MouseUp

  /** A packet as a header handler sees it: its header and payload bytes. */
  datatype RawPacket = RawPacket(header: int, payload: seq<int>)

  predicate IsBytes(bs: seq<int>) {
    forall k :: 0 <= k < |bs| ==> IsByte(bs[k])
  }

  /** A pointer displacement. */
  datatype Delta = Delta(dx: int, dy: int)

  const NoDelta: Delta := Delta(0, 0)

  function Plus(a: Delta, b: Delta): Delta {
    Delta(a.dx + b.dx, a.dy + b.dy)
  }

  lemma PlusAssoc(a: Delta, b: Delta, c: Delta)
    ensures Plus(Plus(a, b), c) == Plus(a, Plus(b, c))
  {
  }

  /** `moveRel` is called only for a displacement that is not zero. */
  function MoveIfAny(d: Delta): (acts: seq<MouseAction>)
    ensures acts == [] <==> d == NoDelta
    ensures acts != [] ==> acts == [MoveRel(d.dx, d.dy)]
  {
    if d.dx != 0 || d.dy != 0 then [MoveRel(d.dx, d.dy)] else []
  }

  /** The signed displacement two movement bytes carry. */
  function DeltaOf(x: int, y: int): (d: Delta)
    requires IsByte(x) && IsByte(y)
    ensures -128 <= d.dx <= 127 && -128 <= d.dy <= 127
    ensures (d.dx - x) % 256 == 0 && (d.dy - y) % 256 == 0
  {
    Delta(SignedByte(x), SignedByte(y))
  }

  /** The total displacement of the `moveRel` calls among `acts`. */
  function Moved(acts: seq<MouseAction>): Delta
    decreases |acts|
  {
    if |acts| == 0 then NoDelta
    else Plus(if acts[0].MoveRel? then Delta(acts[0].dx, acts[0].dy) else NoDelta, Moved(acts[1..]))
  }

  lemma {:induction false} MovedAppend(a: seq<MouseAction>, b: seq<MouseAction>)
    ensures Moved(a + b) == Plus(Moved(a), Moved(b))
    decreases |a|
  {
    if |a| == 0 {
      assert a + b == b;
    } else {
      assert (a + b)[1..] == a[1..] + b;
      MovedAppend(a[1..], b);
    }
  }

  lemma MovedSingle(a: MouseAction)
    ensures Moved([a]) == if a.MoveRel? then Delta(a.dx, a.dy) else NoDelta
  {
    assert [a][1..] == [];
  }

  /** The button calls among `acts`: `true` for a press, `false` for a
      release. */
  function ButtonEvents(acts: seq<MouseAction>): seq<bool>
    decreases |acts|
  {
    if |acts| == 0 then []
    else (if acts[0].MoveRel? then [] else [acts[0] == MouseDown]) + ButtonEvents(acts[1..])
  }

  lemma {:induction false} ButtonEventsAppend(a: seq<MouseAction>, b: seq<MouseAction>)
    ensures ButtonEvents(a + b) == ButtonEvents(a) + ButtonEvents(b)
    decreases |a|
  {
    if |a| == 0 {
      assert a + b == b;
    } else {
      assert (a + b)[1..] == a[1..] + b;
      ButtonEventsAppend(a[1..], b);
    }
  }

  lemma ButtonEventsSingle(a: MouseAction)
    ensures ButtonEvents([a]) == if a.MoveRel? then [] else [a == MouseDown]
  {
    assert [a][1..] == [];
  }

  // ---------------------------------------------------------------------
  // The immediate relay of mouse_emulator_test.py
  // ---------------------------------------------------------------------

  /** The remembered click state and the calls one packet makes. */
  datatype ClickStep = ClickStep(pressed: bool, actions: seq<MouseAction>)

  /** A packet the handler acts on: present, header 0x01, three bytes. */
  predicate AcceptsClick(pkt: Option<RawPacket>) {
    pkt.Some? && pkt.value.header == H_MOUSE && |pkt.value.payload| == 3
  }

  predicate WellFormed(pkts: seq<Option<RawPacket>>) {
    forall i :: 0 <= i < |pkts| ==> pkts[i].Some? ==> IsBytes(pkts[i].value.payload)
  }

  /** The button call the shared edge detector's transition stands for. */
  function ButtonCall(edge: Option<bool>): (acts: seq<MouseAction>)
    ensures acts == [] || acts == [MouseDown] || acts == [MouseUp]
    ensures ButtonEvents(acts) == if edge.Some? then [edge.value] else []
  {
    match edge
    case None => []
    case Some(down) =>
      var a := if down then MouseDown else MouseUp;
      ButtonEventsSingle(a);
      [a]
  }

  /** The handler `create_mouse_handler` returns. An absent packet, another
      header or a payload of other than three bytes is ignored. Otherwise
      the pointer moves by the signed deltas (when either is non-zero) and
      the click byte is edge-detected against the remembered state: the
      press and release calls are exactly the transitions of the shared
      edge detector, and the memory becomes the new click state. */
  function ClickHandler(pressed: bool, pkt: Option<RawPacket>): (r: ClickStep)
    requires pkt.Some? ==> IsBytes(pkt.value.payload)
    ensures !AcceptsClick(pkt) ==> r == ClickStep(pressed, [])
    ensures AcceptsClick(pkt) ==>
              var p := pkt.value.payload;
              var edge := BorderEdge(pressed, ByteIsSet(p[2]));
              && r.pressed == edge.0
              && r.actions == MoveIfAny(DeltaOf(p[0], p[1])) + ButtonCall(edge.1)
    ensures MouseDown in r.actions <==> AcceptsClick(pkt) && ByteIsSet(pkt.value.payload[2]) && !pressed
    ensures MouseUp in r.actions <==> AcceptsClick(pkt) && !ByteIsSet(pkt.value.payload[2]) && pressed
  {
    if pkt.None? || pkt.value.header != H_MOUSE then ClickStep(pressed, [])
    else if |pkt.value.payload| != 3 then ClickStep(pressed, [])
    else
      var p := pkt.value.payload;
      var move := MoveIfAny(DeltaOf(p[0], p[1]));
      var click := ByteIsSet(p[2]);
      if click && !pressed then ClickStep(true, move + [MouseDown])
      else if !click && pressed then ClickStep(false, move + [MouseUp])
      else ClickStep(pressed, move)
  }

  /** Packets handled one after another. */
  function ClickRun(pressed: bool, pkts: seq<Option<RawPacket>>): ClickStep
    requires WellFormed(pkts)
    decreases |pkts|
  {
    if |pkts| == 0 then ClickStep(pressed, [])
    else
      var first := ClickHandler(pressed, pkts[0]);
      var rest := ClickRun(first.pressed, pkts[1..]);
      ClickStep(rest.pressed, first.actions + rest.actions)
  }

  /** The click bits of the packets the handler accepts, in order. */
  function Clicks(pkts: seq<Option<RawPacket>>): seq<bool>
    requires WellFormed(pkts)
    decreases |pkts|
  {
    if |pkts| == 0 then []
    else if AcceptsClick(pkts[0]) then [ByteIsSet(pkts[0].value.payload[2])] + Clicks(pkts[1..])
    else Clicks(pkts[1..])
  }

  /** Over any packet stream the handler's press and release calls are the
      edge detector's transitions of the click bits. */
  lemma {:induction false} ClickRunIsEdgeDetector(pressed: bool, pkts: seq<Option<RawPacket>>)
    requires WellFormed(pkts)
    ensures ButtonEvents(ClickRun(pressed, pkts).actions) == Edges(pressed, Clicks(pkts))
    decreases |pkts|
  {
    if |pkts| > 0 {
      var first := ClickHandler(pressed, pkts[0]);
      var rest := ClickRun(first.pressed, pkts[1..]);
      assert ClickRun(pressed, pkts).actions == first.actions + rest.actions;
      ClickRunIsEdgeDetector(first.pressed, pkts[1..]);
      ButtonEventsAppend(first.actions, rest.actions);
      if AcceptsClick(pkts[0]) {
        var p := pkts[0].value.payload;
        var c := ByteIsSet(p[2]);
        var edge := BorderEdge(pressed, c);
        var cs := Clicks(pkts);
        assert cs == [c] + Clicks(pkts[1..]);
        assert cs[0] == c && cs[1..] == Clicks(pkts[1..]);
        DrainFacts(MoveIfAny(DeltaOf(p[0], p[1])), ButtonCall(edge.1), DeltaOf(p[0], p[1]));
        assert ButtonEvents(first.actions) == if edge.1.Some? then [edge.1.value] else [];
        assert Edges(pressed, cs) == (if edge.1.Some? then [edge.1.value] else []) + Edges(edge.0, cs[1..]);
      } else {
        assert first.actions == [];
        assert Clicks(pkts) == Clicks(pkts[1..]);
      }
    }
  }

  /** The handler's memory is the last click bit it accepted. */
  lemma {:induction false} ClickRunRemembersLast(pressed: bool, pkts: seq<Option<RawPacket>>)
    requires WellFormed(pkts)
    ensures ClickRun(pressed, pkts).pressed == LastOr(pressed, Clicks(pkts))
    decreases |pkts|
  {
    if |pkts| > 0 {
      var first := ClickHandler(pressed, pkts[0]);
      var rest := ClickRun(first.pressed, pkts[1..]);
      assert ClickRun(pressed, pkts).pressed == rest.pressed;
      ClickRunRemembersLast(first.pressed, pkts[1..]);
      var tail := Clicks(pkts[1..]);
      if AcceptsClick(pkts[0]) {
        var c := ByteIsSet(pkts[0].value.payload[2]);
        assert first.pressed == c;
        assert Clicks(pkts) == [c] + tail;
        LastOrCons(pressed, c, tail);
      } else {
        assert first.pressed == pressed;
        assert Clicks(pkts) == tail;
      }
    }
  }

  /** Starting released, presses and releases alternate and begin with a
      press: the relay can never send two presses without a release. */
  lemma ClicksAlternate(pkts: seq<Option<RawPacket>>)
    requires WellFormed(pkts)
    ensures var evs := ButtonEvents(ClickRun(false, pkts).actions);
            forall i :: 0 <= i < |evs| ==> evs[i] == (i % 2 == 0)
  {
    ClickRunIsEdgeDetector(false, pkts);
    EdgesAlternate(false, Clicks(pkts));
  }

  // ---------------------------------------------------------------------
  // The accumulating relay of the other scripts
  // ---------------------------------------------------------------------

  /** The globals the handlers write and the main loop drains. */
  datatype Relay = Relay(accX: int, accY: int, buttonChanged: bool, buttonState: bool)

  function InitialRelay(): (s: Relay)
    ensures s.accX == 0 && s.accY == 0 && !s.buttonChanged && !s.buttonState
  {
    Relay(0, 0, false, false)
  }

  function Pending(s: Relay): Delta {
    Delta(s.accX, s.accY)
  }

  /** The movement handler: a payload of other than two bytes is ignored;
      otherwise the signed deltas are added to the accumulators. */
  function OnMove(s: Relay, payload: seq<int>): (s': Relay)
    requires IsBytes(payload)
    ensures |payload| != 2 ==> s' == s
    ensures |payload| == 2 ==>
              s' == s.(accX := s'.accX, accY := s'.accY)
              && Pending(s') == Plus(Pending(s), DeltaOf(payload[0], payload[1]))
              && -128 <= s'.accX - s.accX <= 127 && -128 <= s'.accY - s.accY <= 127
  {
    if |payload| != 2 then s
    else s.(accX := s.accX + SignedByte(payload[0]), accY := s.accY + SignedByte(payload[1]))
  }

  /** The button handler: a payload of other than one byte is ignored;
      otherwise the state becomes the byte's truth value and the change
      flag is raised. The accumulators are untouched. */
  function OnButton(s: Relay, payload: seq<int>): (s': Relay)
    requires IsBytes(payload)
    ensures |payload| != 1 ==> s' == s
    ensures |payload| == 1 ==> s'.buttonChanged && (s'.buttonState <==> payload[0] != 0)
    ensures Pending(s') == Pending(s)
  {
    if |payload| != 1 then s
    else s.(buttonState := ByteIsSet(payload[0]), buttonChanged := true)
  }

  predicate AcceptsMove(pkt: RawPacket) {
    pkt.header == H_MOUSE && |pkt.payload| == 2
  }

  predicate AcceptsButton(pkt: RawPacket) {
    pkt.header == H_BUTTON && |pkt.payload| == 1
  }

  /** A packet routed by header to the handler registered for it; packets
      with any other header have no handler. */
  function Receive(s: Relay, pkt: RawPacket): (s': Relay)
    requires IsBytes(pkt.payload)
    ensures !AcceptsMove(pkt) && !AcceptsButton(pkt) ==> s' == s
  {
    if pkt.header == H_MOUSE then OnMove(s, pkt.payload)
    else if pkt.header == H_BUTTON then OnButton(s, pkt.payload)
    else s
  }

  predicate AllBytes(pkts: seq<RawPacket>) {
    forall i :: 0 <= i < |pkts| ==> IsBytes(pkts[i].payload)
  }

  function ReceiveAll(s: Relay, pkts: seq<RawPacket>): Relay
    requires AllBytes(pkts)
    decreases |pkts|
  {
    if |pkts| == 0 then s else ReceiveAll(Receive(s, pkts[0]), pkts[1..])
  }

  /** The total displacement of the accepted movement packets. */
  function Sent(pkts: seq<RawPacket>): Delta
    requires AllBytes(pkts)
    decreases |pkts|
  {
    if |pkts| == 0 then NoDelta else Plus(PacketDelta(pkts[0]), Sent(pkts[1..]))
  }

  /** The button states of the accepted button packets, in order. */
  function Buttons(pkts: seq<RawPacket>): seq<bool>
    requires AllBytes(pkts)
    decreases |pkts|
  {
    if |pkts| == 0 then []
    else (if AcceptsButton(pkts[0]) then [ByteIsSet(pkts[0].payload[0])] else []) + Buttons(pkts[1..])
  }

  /** Between drains the accumulators hold their old value plus the sum of
      every accepted delta. */
  lemma {:induction false} AccumulatorsAreSums(s: Relay, pkts: seq<RawPacket>)
    requires AllBytes(pkts)
    ensures Pending(ReceiveAll(s, pkts)) == Plus(Pending(s), Sent(pkts))
    decreases |pkts|
  {
    if |pkts| > 0 {
      var p := pkts[0];
      var rest := pkts[1..];
      var s1 := Receive(s, p);
      assert ReceiveAll(s, pkts) == ReceiveAll(s1, rest);
      AccumulatorsAreSums(s1, rest);
      ReceiveStep(s, p);
      assert Sent(pkts) == Plus(PacketDelta(p), Sent(rest));
      PlusAssoc(Pending(s), PacketDelta(p), Sent(rest));
    }
  }

  /** Between drains the button state is the last accepted one and the
      change flag is raised iff some button packet was accepted. */
  lemma {:induction false} ButtonStateIsLast(s: Relay, pkts: seq<RawPacket>)
    requires AllBytes(pkts)
    ensures ReceiveAll(s, pkts).buttonChanged == (s.buttonChanged || |Buttons(pkts)| > 0)
    ensures ReceiveAll(s, pkts).buttonState == LastOr(s.buttonState, Buttons(pkts))
    decreases |pkts|
  {
    if |pkts| > 0 {
      var p := pkts[0];
      var rest := pkts[1..];
      var s1 := Receive(s, p);
      assert ReceiveAll(s, pkts) == ReceiveAll(s1, rest);
      ButtonStateIsLast(s1, rest);
      ReceiveStep(s, p);
      var tail := Buttons(rest);
      if AcceptsButton(p) {
        var b := ByteIsSet(p.payload[0]);
        assert Buttons(pkts) == [b] + tail;
        LastOrCons(s.buttonState, b, tail);
      } else {
        assert Buttons(pkts) == tail;
      }
    }
  }

  /** One packet adds its accepted delta, and an accepted button packet
      sets the state and raises the flag; nothing else changes. */
  lemma ReceiveStep(s: Relay, pkt: RawPacket)
    requires IsBytes(pkt.payload)
    ensures Pending(Receive(s, pkt)) == Plus(Pending(s), PacketDelta(pkt))
    ensures AcceptsButton(pkt) ==>
              Receive(s, pkt).buttonChanged && Receive(s, pkt).buttonState == ByteIsSet(pkt.payload[0])
    ensures !AcceptsButton(pkt) ==>
              Receive(s, pkt).buttonChanged == s.buttonChanged && Receive(s, pkt).buttonState == s.buttonState
  {
  }

  /** What the main loop's drain takes out, and the calls it makes. */
  datatype Drained = Drained(state: Relay, actions: seq<MouseAction>)

  /** The main loop's drain under the lock, then the calls outside it:
      the pending displacement is replayed in one `moveRel` (none when it is
      zero), a raised change flag replays the stored button state, and the
      accumulators and the flag are cleared. */
  function DrainStep(s: Relay): (r: Drained)
    ensures Pending(r.state) == NoDelta && !r.state.buttonChanged && r.state.buttonState == s.buttonState
    ensures Moved(r.actions) == Pending(s)
    ensures forall a :: a in r.actions && a.MoveRel? ==> a != MoveRel(0, 0)
    ensures ButtonEvents(r.actions) == if s.buttonChanged then [s.buttonState] else []
  {
    var move := MoveIfAny(Pending(s));
    var button := ButtonCall(if s.buttonChanged then Some(s.buttonState) else None);
    DrainFacts(move, button, Pending(s));
    Drained(Relay(0, 0, false, s.buttonState), move + button)
  }

  lemma DrainFacts(move: seq<MouseAction>, button: seq<MouseAction>, d: Delta)
    requires move == MoveIfAny(d)
    requires button == [] || button == [MouseDown] || button == [MouseUp]
    ensures Moved(move + button) == d
    ensures ButtonEvents(move + button) == ButtonEvents(button)
  {
    MovedAppend(move, button);
    ButtonEventsAppend(move, button);
    var m := Moved(move);
    if move == [] {
      assert m == NoDelta;
    } else {
      MovedSingle(move[0]);
      ButtonEventsSingle(move[0]);
      assert m == d;
    }
    if button != [] {
      MovedSingle(button[0]);
      assert Moved(button) == NoDelta;
    } else {
      assert Moved(button) == NoDelta;
    }
  }

  /** A second drain with nothing received in between does nothing. */
  lemma DrainIdempotent(s: Relay)
    ensures DrainStep(DrainStep(s).state).actions == []
    ensures DrainStep(DrainStep(s).state).state == DrainStep(s).state
  {
  }

  /** What happens between two reads of the relay's globals. */
  datatype RelayEvent = Arrive(pkt: RawPacket) | DrainTick

  predicate EventBytes(events: seq<RelayEvent>) {
    forall i :: 0 <= i < |events| ==> events[i].Arrive? ==> IsBytes(events[i].pkt.payload)
  }

  function Arrivals(events: seq<RelayEvent>): (pkts: seq<RawPacket>)
    requires EventBytes(events)
    ensures AllBytes(pkts)
    decreases |events|
  {
    if |events| == 0 then []
    else (if events[0].Arrive? then [events[0].pkt] else []) + Arrivals(events[1..])
  }

  /** One event: a packet reaches its handler, or the main loop drains. */
  function EventStep(s: Relay, e: RelayEvent): Drained
    requires e.Arrive? ==> IsBytes(e.pkt.payload)
  {
    match e
    case Arrive(p) => Drained(Receive(s, p), [])
    case DrainTick => DrainStep(s)
  }

  /** Packets and drains interleaved in any order. */
  function Run(s: Relay, events: seq<RelayEvent>): Drained
    requires EventBytes(events)
    decreases |events|
  {
    if |events| == 0 then Drained(s, [])
    else
      var first := EventStep(s, events[0]);
      var rest := Run(first.state, events[1..]);
      Drained(rest.state, first.actions + rest.actions)
  }

  /** The displacement one accepted or ignored packet contributes. */
  function PacketDelta(p: RawPacket): Delta
    requires IsBytes(p.payload)
  {
    if AcceptsMove(p) then DeltaOf(p.payload[0], p.payload[1]) else NoDelta
  }

  /** A single event keeps replayed-plus-pending equal to the old pending
      displacement plus what arrived. */
  lemma EventConservesMovement(s: Relay, e: RelayEvent)
    requires e.Arrive? ==> IsBytes(e.pkt.payload)
    ensures var r := EventStep(s, e);
            Plus(Moved(r.actions), Pending(r.state)) == Plus(Pending(s), if e.Arrive? then PacketDelta(e.pkt) else NoDelta)
  {
    if e.Arrive? {
      assert Moved([]) == NoDelta;
    }
  }

  lemma SentCons(p: RawPacket, rest: seq<RawPacket>)
    requires IsBytes(p.payload) && AllBytes(rest)
    ensures Sent([p] + rest) == Plus(PacketDelta(p), Sent(rest))
  {
    assert ([p] + rest)[1..] == rest;
  }

  /** An arriving packet's delta comes first in the arrivals' total. */
  lemma SentArrivalsArrive(events: seq<RelayEvent>)
    requires 0 < |events| && EventBytes(events) && events[0].Arrive?
    ensures Sent(Arrivals(events)) == Plus(PacketDelta(events[0].pkt), Sent(Arrivals(events[1..])))
  {
    var later := Arrivals(events[1..]);
    assert Arrivals(events) == [events[0].pkt] + later;
    SentCons(events[0].pkt, later);
  }

  /** A drain adds nothing to the arrivals' total. */
  lemma SentArrivalsDrain(events: seq<RelayEvent>)
    requires 0 < |events| && EventBytes(events) && events[0].DrainTick?
    ensures Sent(Arrivals(events)) == Sent(Arrivals(events[1..]))
  {
    var later := Arrivals(events[1..]);
    assert [] + later == later;
    assert Arrivals(events) == later;
  }

  /** No movement is lost or invented: however packets and drains
      interleave, what has been replayed plus what is still pending equals
      the old pending displacement plus every accepted delta. */
  lemma {:induction false} RunConservesMovement(s: Relay, events: seq<RelayEvent>)
    requires EventBytes(events)
    ensures Plus(Moved(Run(s, events).actions), Pending(Run(s, events).state)) == Plus(Pending(s), Sent(Arrivals(events)))
    decreases |events|
  {
    if |events| > 0 {
      var e := events[0];
      var tail := events[1..];
      var first := EventStep(s, e);
      var rest := Run(first.state, tail);
      var arrived := if e.Arrive? then PacketDelta(e.pkt) else NoDelta;
      var later := Sent(Arrivals(tail));
      assert Run(s, events) == Drained(rest.state, first.actions + rest.actions);
      RunConservesMovement(first.state, tail);
      MovedAppend(first.actions, rest.actions);
      EventConservesMovement(s, e);
      if e.Arrive? {
        SentArrivalsArrive(events);
      } else {
        SentArrivalsDrain(events);
      }
      PlusRegroup(Moved(first.actions), Moved(rest.actions), Pending(rest.state), Pending(first.state), Pending(s), arrived, later);
    }
  }

  /** The bookkeeping step of the conservation proof: (a + b) + r equals
      p + (i + l) once b + r = f + l and a + f = p + i. */
  lemma PlusRegroup(a: Delta, b: Delta, r: Delta, f: Delta, p: Delta, i: Delta, l: Delta)
    requires Plus(b, r) == Plus(f, l)
    requires Plus(a, f) == Plus(p, i)
    ensures Plus(Plus(a, b), r) == Plus(p, Plus(i, l))
  {
  }

  /** Ending on a drain, every accepted delta has been replayed. */
  lemma FinalDrainReplaysAll(events: seq<RelayEvent>)
    requires EventBytes(events)
    ensures var r := Run(InitialRelay(), events + [DrainTick]);
            Moved(r.actions) == Sent(Arrivals(events + [DrainTick]))
  {
    var all := events + [DrainTick];
    var r := Run(InitialRelay(), all);
    RunConservesMovement(InitialRelay(), all);
    RunEndsDrained(InitialRelay(), events);
    assert Pending(r.state) == NoDelta;
    assert Pending(InitialRelay()) == NoDelta;
    ZeroPlus(Moved(r.actions), Sent(Arrivals(all)));
  }

  lemma ZeroPlus(a: Delta, b: Delta)
    requires Plus(a, NoDelta) == Plus(NoDelta, b)
    ensures a == b
  {
  }

  lemma {:induction false} RunEndsDrained(s: Relay, events: seq<RelayEvent>)
    requires EventBytes(events)
    ensures Pending(Run(s, events + [DrainTick]).state) == NoDelta
    decreases |events|
  {
    if |events| == 0 {
      assert events + [DrainTick] == [DrainTick];
      assert Run(s, [DrainTick]).state == Run(DrainStep(s).state, []).state;
    } else {
      assert (events + [DrainTick])[1..] == events[1..] + [DrainTick];
      assert (events + [DrainTick])[0] == events[0];
      RunEndsDrained(EventStep(s, events[0]).state, events[1..]);
    }
  }
}
