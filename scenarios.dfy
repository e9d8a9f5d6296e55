/** Sequences of socket events applied to a call table, with what the
    handlers' contracts let a client conclude about the notifications and the
    resulting table. */
module Scenarios {
  import opened Seqs
  import opened Protocol
  import opened Server

  /** A second `leave-call` by the same socket leaves the table as the first
      one left it; it still tells the room, if the call is still there. */
  method LeaveTwice(t: CallTable, s: SocketId, code: Code)
    returns (first: seq<Notification>, between: Calls, betweenOrder: seq<Code>, second: seq<Notification>)
    requires t.Valid()
    modifies t
    ensures t.Valid()
    ensures t.calls == between && t.order == betweenOrder
    ensures code in between ==> s !in between[code].participants
    ensures second == if code in between then [Notify(Room(code), ParticipantLeft)] else []
  {
    first := t.Leave(s, code);
    between, betweenOrder := t.calls, t.order;
    second := t.Leave(s, code);
  }

  /** X creates a call, Y asks to join, X rejects Y: Y is told, and the call
      is back to X alone with nobody waiting. */
  method RejectScenario(x: SocketId, y: SocketId, code: Code)
    returns (created: seq<Notification>, joined: seq<Notification>,
             rejected: seq<Notification>, call: Call)
    requires x != y
    ensures created == [Notify(Socket(x), CallCreated(code))]
    ensures joined == [Notify(Socket(y), CallWaitingForApproval), Notify(Socket(x), ParticipantWaiting(y))]
    ensures rejected == [Notify(Socket(y), CallRejected)]
    ensures call == Call(x, [x], None)
  {
    var t := new CallTable();
    created := t.Create(x, code);
    joined := t.Join(y, code);
    rejected := t.Reject(x, code, y);
    call := t.calls[code];
  }

  /** X creates a call and accepts Y; an offer from X reaches Y and an
      answer from Y reaches X, each unchanged and tagged with its sender. */
  method AcceptScenario(x: SocketId, y: SocketId, code: Code, offer: Payload, answer: Payload)
    returns (accepted: seq<Notification>, toY: seq<Notification>, toX: seq<Notification>)
    requires x != y && x != "" && y != ""
    ensures accepted == [Notify(Room(code), ParticipantAccepted(y, 2))]
    ensures toY == [Notify(Socket(y), Receive(Offer, offer, x))]
    ensures toX == [Notify(Socket(x), Receive(Answer, answer, y))]
  {
    var t := new CallTable();
    var created := t.Create(x, code);
    var joined := t.Join(y, code);
    accepted := t.Accept(x, code, y);
    assert t.calls[code].participants == [x, y];
    PairRelay(x, y);
    toY := t.Relay(Offer, x, code, offer);
    toX := t.Relay(Answer, y, code, answer);
  }

  /** X and Y are in a call and Y disconnects: X's room is told, the call is
      back to X alone, and a third socket Z may then ask to join. */
  method DisconnectScenario(x: SocketId, y: SocketId, z: SocketId, code: Code)
    returns (left: seq<Notification>, afterLeave: Call, zJoined: seq<Notification>)
    requires x != y
    ensures left == [Notify(Room(code), ParticipantLeft)]
    ensures afterLeave == Call(x, [x], None)
    ensures zJoined == [Notify(Socket(z), CallWaitingForApproval), Notify(Socket(x), ParticipantWaiting(z))]
  {
    var t := new CallTable();
    var created := t.Create(x, code);
    var joined := t.Join(y, code);
    assert t.calls == map[code := Call(x, [x], Some(y))];
    var accepted := t.Accept(x, code, y);
    assert [x] + [y] == [x, y];
    assert t.calls == map[code := Call(x, [x, y], None)];
    assert t.order == [code];
    assert Without([x, y], y) == [x];
    assert [code][..0] == [];
    left := t.Disconnect(y);
    assert code in t.calls;
    afterLeave := t.calls[code];
    zJoined := t.Join(z, code);
  }

  /** A creator that has sent `leave-call` is still connected and is still the
      recorded creator, so it can go on accepting: Z is appended after Y, the
      one participant left. */
  method CreatorLeavesStillAccepts(x: SocketId, y: SocketId, z: SocketId, code: Code)
    returns (left: seq<Notification>, accepted: seq<Notification>, call: Call)
    requires x != y
    ensures left == [Notify(Room(code), ParticipantLeft)]
    ensures accepted == [Notify(Room(code), ParticipantAccepted(z, 2))]
    ensures call == Call(x, [y, z], None)
  {
    var t := new CallTable();
    var created := t.Create(x, code);
    var joined := t.Join(y, code);
    var admitted := t.Accept(x, code, y);
    assert [x] + [y] == [x, y];
    assert t.calls[code] == Call(x, [x, y], None);
    assert Without([x, y], x) == [y];
    left := t.Leave(x, code);
    accepted := t.Accept(x, code, z);
    call := t.calls[code];
  }

  /** `accept-participant` checks neither the waiting socket nor the size of
      the call: after Y is admitted and Z is turned away as `call-full`, X can
      still accept Z, and the call then has three participants. */
  method ThirdParticipant(x: SocketId, y: SocketId, z: SocketId, code: Code)
    returns (full: seq<Notification>, accepted: seq<Notification>, participants: seq<SocketId>)
    ensures full == [Notify(Socket(z), CallFull)]
    ensures accepted == [Notify(Room(code), ParticipantAccepted(z, 2))]
    ensures participants == [x, y, z] && |participants| == 3
  {
    var t := new CallTable();
    var created := t.Create(x, code);
    var joined := t.Join(y, code);
    var admitted := t.Accept(x, code, y);
    full := t.Join(z, code);
    accepted := t.Accept(x, code, z);
    participants := t.calls[code].participants;
  }

  /** A second `join-call` while one socket is waiting is not refused: it
      replaces the waiting socket, and the creator is told about both. */
  method JoinReplacesWaiting(x: SocketId, y: SocketId, z: SocketId, code: Code)
    returns (second: seq<Notification>, waiting: Option<SocketId>)
    ensures second == [Notify(Socket(z), CallWaitingForApproval), Notify(Socket(x), ParticipantWaiting(z))]
    ensures waiting == Some(z)
  {
    var t := new CallTable();
    var created := t.Create(x, code);
    var first := t.Join(y, code);
    second := t.Join(z, code);
    waiting := t.calls[code].waiting;
  }

  /** `create-call` with a code already in use replaces the earlier call:
      its creator no longer owns it and may no longer accept anyone. */
  method CreateOverwrites(x: SocketId, y: SocketId, code: Code)
    returns (call: Call, byX: seq<Notification>)
    requires x != y
    ensures call == Call(y, [y], None)
    ensures byX == []
  {
    var t := new CallTable();
    var first := t.Create(x, code);
    var second := t.Create(y, code);
    byX := t.Accept(x, code, x);
    call := t.calls[code];
  }
}
