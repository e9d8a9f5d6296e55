/** The server's `calls` table and its socket handlers. Each handler takes the
    sending socket's id and the message fields, updates the table in place and
    returns the notifications it emits, in emission order. */
module Server {
  import opened Seqs
  import opened Protocol

  class CallTable {
    /** The entries of the `calls` Map. */
    var calls: Calls
    /** The Map's iteration order: codes in insertion order (a code deleted
        and created again goes to the end). */
    var order: seq<Code>

    /** Every stored call has a participant, and `order` lists each code of
        the table exactly once. */
    ghost predicate Valid()
      reads this
    {
      && NonEmptyCalls(calls)
      && (forall c :: c in order <==> c in calls)
      && Distinct(order)
    }

    /** The empty table the server starts with. */
    constructor ()
      ensures Valid() && calls == map[] && order == []
    {
      calls := map[];
      order := [];
    }

    /** `calls.delete(code)`: the entry goes, and so does its place in the
        iteration order. */
    method Delete(code: Code)
      requires Valid() && code in calls
      modifies this
      ensures Valid()
      ensures calls == old(calls) - {code}
      ensures order == Without(old(order), code)
    {
      WithoutKeepsDistinct(order, code);
      calls := calls - {code};
      order := Without(order, code);
    }

    /** `create-call`: stores a fresh call under `code` with the sender as its
        creator and only participant. An entry already under `code` is
        overwritten in place (no collision check); a new code goes to the end
        of the iteration order. */
    method Create(sender: SocketId, code: Code) returns (notes: seq<Notification>)
      requires Valid()
      modifies this
      ensures Valid()
      ensures calls == old(calls)[code := Call(sender, [sender], None)]
      ensures order == if code in old(calls) then old(order) else old(order) + [code]
      ensures notes == [Notify(Socket(sender), CallCreated(code))]
    {
      if code !in calls {
        order := order + [code];
      }
      calls := calls[code := Call(sender, [sender], None)];
      notes := [Notify(Socket(sender), CallCreated(code))];
    }

    /** `join-call`: an unknown code gets `call-not-found`, a call with two or
        more participants gets `call-full`; otherwise the sender becomes the
        one waiting socket (replacing any earlier one) and the creator is told. */
    method Join(sender: SocketId, code: Code) returns (notes: seq<Notification>)
      requires Valid()
      modifies this
      ensures Valid() && order == old(order) && KeepsCreators(old(calls), calls)
      ensures code !in old(calls) ==>
        calls == old(calls) && notes == [Notify(Socket(sender), CallNotFound)]
      ensures code in old(calls) && |old(calls)[code].participants| >= 2 ==>
        calls == old(calls) && notes == [Notify(Socket(sender), CallFull)]
      ensures code in old(calls) && |old(calls)[code].participants| < 2 ==>
        && calls == old(calls)[code := old(calls)[code].(waiting := Some(sender))]
        && notes == [Notify(Socket(sender), CallWaitingForApproval),
                     Notify(Socket(old(calls)[code].creator), ParticipantWaiting(sender))]
    {
      if code !in calls {
        notes := [Notify(Socket(sender), CallNotFound)];
        return;
      }
      var call := calls[code];
      if |call.participants| >= 2 {
        notes := [Notify(Socket(sender), CallFull)];
        return;
      }
      calls := calls[code := call.(waiting := Some(sender))];
      notes := [Notify(Socket(sender), CallWaitingForApproval),
                Notify(Socket(call.creator), ParticipantWaiting(sender))];
    }

    /** `accept-participant`: only the recorded creator of an existing call may
        accept. `participantId` is appended to the participants without
        comparing it with the waiting socket and without a size check, and
        the waiting slot is cleared. The whole room is told, with a count of 2
        whatever the real count is. */
    method Accept(sender: SocketId, code: Code, participantId: SocketId) returns (notes: seq<Notification>)
      requires Valid()
      modifies this
      ensures Valid() && order == old(order) && KeepsCreators(old(calls), calls)
      ensures code !in old(calls) || old(calls)[code].creator != sender ==>
        calls == old(calls) && notes == []
      ensures code in old(calls) && old(calls)[code].creator == sender ==>
        && calls == old(calls)[code := Call(sender, old(calls)[code].participants + [participantId], None)]
        && notes == [Notify(Room(code), ParticipantAccepted(participantId, 2))]
    {
      if code !in calls || calls[code].creator != sender {
        notes := [];
        return;
      }
      var call := calls[code];
      calls := calls[code := call.(participants := call.participants + [participantId])];
      calls := calls[code := calls[code].(waiting := None)];
      notes := [Notify(Room(code), ParticipantAccepted(participantId, 2))];
    }

    /** `reject-participant`: only the recorded creator of an existing call may
        reject. The waiting slot is cleared whoever `participantId` is, the
        participants stay as they are, and only `participantId` is told. */
    method Reject(sender: SocketId, code: Code, participantId: SocketId) returns (notes: seq<Notification>)
      requires Valid()
      modifies this
      ensures Valid() && order == old(order) && KeepsCreators(old(calls), calls)
      ensures code !in old(calls) || old(calls)[code].creator != sender ==>
        calls == old(calls) && notes == []
      ensures code in old(calls) && old(calls)[code].creator == sender ==>
        && calls == old(calls)[code := old(calls)[code].(waiting := None)]
        && notes == [Notify(Socket(participantId), CallRejected)]
    {
      if code !in calls || calls[code].creator != sender {
        notes := [];
        return;
      }
      calls := calls[code := calls[code].(waiting := None)];
      notes := [Notify(Socket(participantId), CallRejected)];
    }

    /** `send-offer`, `send-answer` and `send-ice-candidate`: nothing is sent for
        an unknown code or a call with fewer than two participants; otherwise
        the payload goes, unchanged and tagged with the sender, to the first
        participant other than the sender, if there is one and its id is not
        empty. The table is only read. */
    method Relay(kind: SignalKind, sender: SocketId, code: Code, payload: Payload) returns (notes: seq<Notification>)
      ensures |notes| <= 1
      ensures code !in calls || |calls[code].participants| < 2 ==> notes == []
      ensures forall n :: n in notes ==>
        && n.event == Receive(kind, payload, sender)
        && n.target.Socket? && n.target.id != sender && Truthy(n.target.id)
        && code in calls && n.target.id in calls[code].participants
      ensures code in calls && |calls[code].participants| >= 2 ==>
        var ps := calls[code].participants;
        var k := FindOther(ps, sender);
        notes == if k < |ps| && Truthy(ps[k])
                 then [Notify(Socket(ps[k]), Receive(kind, payload, sender))]
                 else []
    {
      notes := [];
      if code !in calls || |calls[code].participants| < 2 {
        return;
      }
      var ps := calls[code].participants;
      var k := FindOther(ps, sender);
      if k < |ps| && Truthy(ps[k]) {
        notes := [Notify(Socket(ps[k]), Receive(kind, payload, sender))];
      }
    }

    /** The step `leave-call` and `disconnect` share: filter `s` out of the
        participants of the call under `code`, delete the call if nobody is
        left, and otherwise tell its room that someone left. */
    method RemoveParticipant(code: Code, s: SocketId) returns (notes: seq<Notification>)
      requires Valid() && code in calls
      modifies this
      ensures Valid() && KeepsCreators(old(calls), calls)
      ensures code in calls ==> s !in calls[code].participants
      ensures Without(old(calls)[code].participants, s) == [] ==>
        && calls == old(calls) - {code}
        && order == Without(old(order), code)
        && notes == []
      ensures Without(old(calls)[code].participants, s) != [] ==>
        && calls == old(calls)[code := old(calls)[code].(participants := Without(old(calls)[code].participants, s))]
        && order == old(order)
        && notes == [Notify(Room(code), ParticipantLeft)]
    {
      var call := calls[code];
      var rest := Without(call.participants, s);
      if rest == [] {
        Delete(code);
        notes := [];
      } else {
        calls := calls[code := call.(participants := rest)];
        notes := [Notify(Room(code), ParticipantLeft)];
      }
    }

    /** `leave-call`: an unknown code changes nothing; otherwise the sender is
        filtered out of the call (whether or not it was in it). */
    method Leave(sender: SocketId, code: Code) returns (notes: seq<Notification>)
      requires Valid()
      modifies this
      ensures Valid() && KeepsCreators(old(calls), calls)
      ensures code in calls ==> sender !in calls[code].participants
      ensures code !in old(calls) ==>
        calls == old(calls) && order == old(order) && notes == []
      ensures code in old(calls) && Without(old(calls)[code].participants, sender) == [] ==>
        && calls == old(calls) - {code}
        && order == Without(old(order), code)
        && notes == []
      ensures code in old(calls) && Without(old(calls)[code].participants, sender) != [] ==>
        && calls == old(calls)[code := old(calls)[code].(participants := Without(old(calls)[code].participants, sender))]
        && order == old(order)
        && notes == [Notify(Room(code), ParticipantLeft)]
    {
      if code in calls {
        notes := RemoveParticipant(code, sender);
      } else {
        notes := [];
      }
    }

    /** One iteration of the disconnect loop: if the departing socket is in
        the call under `codes[i]`, remove it there. */
    method Visit(codes: seq<Code>, i: nat, ghost calls0: Calls, sender: SocketId, notes: seq<Notification>)
      returns (notes': seq<Notification>)
      requires Valid() && Distinct(codes) && i < |codes|
      requires SweptTo(codes, i, calls0, sender, calls, order, notes)
      modifies this
      ensures Valid()
      ensures SweptTo(codes, i + 1, calls0, sender, calls, order, notes')
    {
      var code := codes[i];
      ghost var (calls1, order1) := (calls, order);
      notes' := notes;
      if sender in calls[code].participants {
        var left := RemoveParticipant(code, sender);
        notes' := notes + left;
      }
      SweepAdvance(codes, i, calls0, sender, calls1, order1, notes, calls, order, notes');
    }

    /** `disconnect`: walks the table in iteration order and removes the
        departing socket from every call it is in, deleting calls left empty
        and telling the room of every other such call. */
    method Disconnect(sender: SocketId) returns (notes: seq<Notification>)
      requires Valid()
      modifies this
      ensures Valid()
      ensures calls == Disconnected(old(calls), sender)
      ensures order == SurvivingCodes(old(order), old(calls), sender)
      ensures notes == DepartureNotes(old(order), old(calls), sender)
    {
      ghost var calls0 := calls;
      var codes := order;
      notes := [];
      var i := 0;
      SweepStart(codes, calls0, sender);
      while i < |codes|
        invariant i <= |codes|
        invariant Valid()
        invariant SweptTo(codes, i, calls0, sender, calls, order, notes)
      {
        notes := Visit(codes, i, calls0, sender, notes);
        i := i + 1;
      }
      SweepDone(codes, calls0, sender, calls, order, notes);
    }
  }
}
