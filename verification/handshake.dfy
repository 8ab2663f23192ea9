/** The PING handshake every host-side program runs against the
    microcontroller: flush, then wait for a PING header with a per-attempt
    timeout, flushing after each wait, and acknowledge with one empty PING
    once a response arrives. The add-on's driver and plugin bound the loop
    at ten attempts; the test scripts wait without bound.

    `wait_for_header` is an oracle: `oracle[i]` says whether the i-th call
    returned a packet; calls past the end of the oracle time out. */
module Handshake {
  import opened Wrappers
  import opened Protocol

  /** The retry ceiling of the add-on's handshake. */
  const MAX_PING_ATTEMPTS: nat := 10

  /** Whether the i-th `wait_for_header` call returned a packet. */
  predicate Answered(oracle: seq<bool>, i: nat) {
    i < |oracle| && oracle[i]
  }

  /** The calls made by `n` loop iterations: each wait is followed by a flush. */
  function Attempts(n: nat): (calls: seq<TransportCall>)
    ensures |calls| == 2 * n
  {
    if n == 0 then [] else Attempts(n - 1) + [WaitForHeader(H_PING, PING_TIMEOUT_MS), Flush]
  }

  /** Every even position of `Attempts(n)` is a PING wait and every odd one
      the flush after it. */
  lemma {:induction false} AttemptsShape(n: nat, k: nat)
    requires k < 2 * n
    ensures Attempts(n)[k] == if k % 2 == 0 then WaitForHeader(H_PING, PING_TIMEOUT_MS) else Flush
  {
    if k < 2 * (n - 1) {
      AttemptsShape(n - 1, k);
    }
  }

  /** The empty PING packet that acknowledges the device. */
  function PingAck(): TransportCall {
    Send(Encode(Ping), false)
  }

  /** The attempt budget: `limit` attempts, or, for the unbounded loop of the
      test scripts, as many attempts as the oracle describes. */
  function Budget(oracle: seq<bool>, limit: Option<nat>): nat {
    match limit
    case Some(n) => n
    case None => |oracle|
  }

  /** The handshake loop. `ok` is whether a PING arrived within the budget;
      `calls` is the exact sequence of transport calls made. For the
      unbounded loop, `ok == false` means the loop is still waiting when the
      oracle runs out. */
  method AwaitPing(oracle: seq<bool>, limit: Option<nat>) returns (ok: bool, calls: seq<TransportCall>)
    ensures ok <==> exists i :: 0 <= i < Budget(oracle, limit) && Answered(oracle, i)
    ensures ok ==> exists k :: 0 <= k < Budget(oracle, limit) && Answered(oracle, k)
                     && (forall j :: 0 <= j < k ==> !Answered(oracle, j))
                     && calls == [Flush] + Attempts(k + 1) + [PingAck()]
    ensures !ok ==> calls == [Flush] + Attempts(Budget(oracle, limit))
  {
    var bound := Budget(oracle, limit);
    calls := [Flush];
    var response := false;
    var count: nat := 0;
    while !response && count < bound
      invariant count <= bound
      invariant response ==> 0 < count && Answered(oracle, count - 1)
      invariant forall j :: 0 <= j < count - 1 ==> !Answered(oracle, j)
      invariant !response ==> forall j :: 0 <= j < count ==> !Answered(oracle, j)
      invariant calls == [Flush] + Attempts(count)
    {
      response := Answered(oracle, count);
      calls := calls + [WaitForHeader(H_PING, PING_TIMEOUT_MS), Flush];
      count := count + 1;
    }
    ok := response;
    if ok {
      calls := calls + [PingAck()];
    }
  }

  /** The bounded and the unbounded loops agree whenever the device answers
      within the first ten attempts. */
  method BoundedMatchesUnbounded(oracle: seq<bool>, k: nat) returns (same: bool)
    requires k < MAX_PING_ATTEMPTS && k < |oracle| && oracle[k]
    ensures same
  {
    var ok1, calls1 := AwaitPing(oracle, Some(MAX_PING_ATTEMPTS));
    var ok2, calls2 := AwaitPing(oracle, None);
    assert Answered(oracle, k);
    ghost var k1 :| 0 <= k1 < MAX_PING_ATTEMPTS && Answered(oracle, k1)
      && (forall j :: 0 <= j < k1 ==> !Answered(oracle, j))
      && calls1 == [Flush] + Attempts(k1 + 1) + [PingAck()];
    ghost var k2 :| 0 <= k2 < |oracle| && Answered(oracle, k2)
      && (forall j :: 0 <= j < k2 ==> !Answered(oracle, j))
      && calls2 == [Flush] + Attempts(k2 + 1) + [PingAck()];
    assert k1 == k2;
    same := ok1 && ok2 && calls1 == calls2;
  }

  /** The handshake loop makes no send: every call it makes is a wait or a
      flush. */
  lemma AttemptsSendNothing(n: nat)
    ensures forall k :: 0 <= k < |Attempts(n)| ==> !Attempts(n)[k].Send?
  {
    forall k | 0 <= k < |Attempts(n)| ensures !Attempts(n)[k].Send? {
      AttemptsShape(n, k);
    }
  }

  /** The test scripts' `wait_for_ping`, which waits without bound: while
      the device stays silent nothing is sent, and once it answers exactly
      one PING acknowledgement goes out, as the last call. */
  method WaitForPingUnbounded(oracle: seq<bool>) returns (answered: bool, calls: seq<TransportCall>)
    ensures answered <==> exists i :: 0 <= i < |oracle| && oracle[i]
    ensures !answered ==> forall k :: 0 <= k < |calls| ==> !calls[k].Send?
    ensures answered ==> 0 < |calls| && calls[|calls| - 1] == PingAck()
                         && forall k :: 0 <= k < |calls| - 1 ==> !calls[k].Send?
    ensures answered ==> calls[0] == Flush && calls[|calls| - 2] == Flush
  {
    answered, calls := AwaitPing(oracle, None);
    assert forall i :: 0 <= i < |oracle| ==> (Answered(oracle, i) <==> oracle[i]);
    if answered {
      ghost var k :| 0 <= k < |oracle| && Answered(oracle, k)
        && (forall j :: 0 <= j < k ==> !Answered(oracle, j))
        && calls == [Flush] + Attempts(k + 1) + [PingAck()];
      AttemptsSendNothing(k + 1);
      AttemptsShape(k + 1, 2 * k + 1);
      assert forall m :: 0 <= m < |calls| - 1 ==> m == 0 || calls[m] == Attempts(k + 1)[m - 1];
    } else {
      AttemptsSendNothing(|oracle|);
      assert forall m :: 0 <= m < |calls| ==> m == 0 || calls[m] == Attempts(|oracle|)[m - 1];
    }
  }
}
