/** The values the signaling server works with: socket ids, call codes, the call
    record stored under each code, and the notifications the handlers emit.
    Also the pure pieces of the handlers: relay target selection and the
    specification of the disconnect sweep over the whole table. */
module Protocol {
  import opened Seqs

  /** A transport-assigned socket id. */
  type SocketId = string

  /** The short code a call is stored under (and the name of its room). */
  type Code = string

  /** An offer, answer or ICE candidate, relayed as an opaque blob. */
  type Payload = string

  datatype Option<T> = None | Some(value: T)

  /** One entry of the `calls` map: who created the call, who is in it (in the
      order they were added) and who, if anyone, is waiting for approval. */
  datatype Call = Call(creator: SocketId, participants: seq<SocketId>, waiting: Option<SocketId>)

  /** Where a notification goes: one socket, or every socket in the room named
      by a call code. */
  datatype Target = Socket(id: SocketId) | Room(code: Code)

  /** The three signaling messages relayed between the members of a call. */
  datatype SignalKind = Offer | Answer | IceCandidate

  /** The events the server emits. `Receive(Offer, p, s)` is `receive-offer`
      carrying `{offer: p, from: s}`, and likewise for the answer and the ICE
      candidate. */
  datatype Event =
    | CallCreated(callCode: Code)
    | CallNotFound
    | CallFull
    | CallWaitingForApproval
    | ParticipantWaiting(participantId: SocketId)
    | ParticipantAccepted(acceptedId: SocketId, participantCount: nat)
    | CallRejected
    | ParticipantLeft
    | Receive(kind: SignalKind, payload: Payload, from: SocketId)

  datatype Notification = Notify(target: Target, event: Event)

  /** The table as a map from codes to calls. */
  type Calls = map<Code, Call>

  /** Every stored call has somebody in it. */
  ghost predicate NonEmptyCalls(calls: Calls) {
    forall c :: c in calls ==> calls[c].participants != []
  }

  /** An operation that only updates or deletes entries: it adds no code and
      keeps the creator of every call that survives. */
  ghost predicate KeepsCreators(before: Calls, after: Calls) {
    forall c :: c in after ==> c in before && after[c].creator == before[c].creator
  }

  /** JavaScript's `truthy` test on a found id: `undefined` and `""` are falsy. */
  predicate Truthy(id: SocketId) {
    id != ""
  }

  /** The index of the first participant other than `sender`, or `|ps|` when
      there is none: the position `ps.find(id => id !== sender)` stops at. */
  function FindOther(ps: seq<SocketId>, sender: SocketId): (k: nat)
    ensures k <= |ps|
    ensures forall j :: 0 <= j < k ==> ps[j] == sender
    ensures k < |ps| ==> ps[k] != sender
  {
    if ps == [] then 0
    else if ps[0] != sender then 0
    else 1 + FindOther(ps[1..], sender)
  }

  /** Between the two members of a two-party call each one's messages go to
      the other. */
  lemma PairRelay(a: SocketId, b: SocketId)
    requires a != b
    ensures FindOther([a, b], a) == 1 && FindOther([a, b], b) == 0
  {
  }

  /** A call from which removing `s` leaves nobody: it is deleted. */
  predicate Emptied(call: Call, s: SocketId) {
    s in call.participants && Without(call.participants, s) == []
  }

  /** What becomes of one call when socket `s` disconnects: nothing changes
      unless `s` is a participant; then `s` is filtered out, and the call is
      gone (`None`) if nobody is left. */
  function Departed(call: Call, s: SocketId): (r: Option<Call>)
    ensures r.None? <==> Emptied(call, s)
    ensures r.Some? ==> s !in r.value.participants
    ensures r.Some? ==>
      && r.value.creator == call.creator && r.value.waiting == call.waiting
      && r.value.participants == Without(call.participants, s)
      && (call.participants != [] ==> r.value.participants != [])
  {
    if s !in call.participants then Some(call)
    else if Without(call.participants, s) == [] then None
    else Some(call.(participants := Without(call.participants, s)))
  }

  /** The entry under `c`, if any. */
  function Lookup(calls: Calls, c: Code): Option<Call> {
    if c in calls then Some(calls[c]) else None
  }

  /** The table once socket `s` has been removed from every call it is in:
      calls left empty are gone, every other call that held `s` keeps its other
      participants, and calls without `s` are as they were. */
  function Disconnected(calls: Calls, s: SocketId): (r: Calls)
    ensures forall c :: c in r ==> s !in r[c].participants
    ensures forall c :: c in calls && s !in calls[c].participants ==> c in r && r[c] == calls[c]
    ensures forall c :: c in calls && s in calls[c].participants ==>
      (c in r <==> Without(calls[c].participants, s) != [])
    ensures forall c :: c in r ==>
      c in calls && r[c].participants == Without(calls[c].participants, s) &&
      r[c].creator == calls[c].creator && r[c].waiting == calls[c].waiting
    ensures NonEmptyCalls(calls) ==> NonEmptyCalls(r)
  {
    map c | c in calls && Departed(calls[c], s).Some? :: Departed(calls[c], s).value
  }

  /** A table that agrees with `Departed` on every code of a list covering
      the whole original table is the `Disconnected` table. */
  lemma SweptAll(calls0: Calls, calls: Calls, codes: seq<Code>, s: SocketId)
    requires forall c :: c in calls0 <==> c in codes
    requires forall c :: c in calls ==> c in calls0
    requires forall j :: 0 <= j < |codes| ==> Lookup(calls, codes[j]) == Departed(calls0[codes[j]], s)
    ensures calls == Disconnected(calls0, s)
  {
    var goal := Disconnected(calls0, s);
    forall c | c in calls0
      ensures Lookup(calls, c) == Departed(calls0[c], s)
    {
      var j :| 0 <= j < |codes| && codes[j] == c;
    }
    assert calls.Keys == goal.Keys;
  }

  /** The codes of `codes` whose calls survive the removal of `s`, in order. */
  function SurvivingCodes(codes: seq<Code>, calls: Calls, s: SocketId): seq<Code>
  {
    if codes == [] then []
    else
      var last := codes[|codes| - 1];
      var init := SurvivingCodes(codes[..|codes| - 1], calls, s);
      if last in calls && Emptied(calls[last], s) then init else init + [last]
  }

  /** The `participant-left` notifications the sweep over `codes` emits, in
      order: one to the room of every call that held `s` and survives. */
  function DepartureNotes(codes: seq<Code>, calls: Calls, s: SocketId): seq<Notification>
  {
    if codes == [] then []
    else
      var last := codes[|codes| - 1];
      var init := DepartureNotes(codes[..|codes| - 1], calls, s);
      if last in calls && s in calls[last].participants && !Emptied(calls[last], s)
      then init + [Notify(Room(last), ParticipantLeft)]
      else init
  }

  /** The surviving codes are exactly the listed codes whose calls are not
      emptied, and a list without repeats stays without repeats. */
  lemma {:induction false} SurvivingCodesMembers(codes: seq<Code>, calls: Calls, s: SocketId)
    ensures forall c :: c in SurvivingCodes(codes, calls, s) <==>
      c in codes && !(c in calls && Emptied(calls[c], s))
    ensures Distinct(codes) ==> Distinct(SurvivingCodes(codes, calls, s))
  {
    if codes != [] {
      var init := codes[..|codes| - 1];
      var last := codes[|codes| - 1];
      assert codes == init + [last];
      SurvivingCodesMembers(init, calls, s);
      if Distinct(codes) {
        assert Distinct(init);
        assert last !in init;
      }
    }
  }

  /** The sweep announces a departure to the room of a call exactly when the
      call held `s` and survives; it announces nothing else. */
  lemma {:induction false} DepartureNotesMembers(codes: seq<Code>, calls: Calls, s: SocketId)
    ensures forall n :: n in DepartureNotes(codes, calls, s) ==>
      n.event == ParticipantLeft && n.target.Room?
    ensures forall c :: Notify(Room(c), ParticipantLeft) in DepartureNotes(codes, calls, s) <==>
      c in codes && c in calls && s in calls[c].participants && !Emptied(calls[c], s)
  {
    if codes != [] {
      var init := codes[..|codes| - 1];
      var last := codes[|codes| - 1];
      assert codes == init + [last];
      DepartureNotesMembers(init, calls, s);
    }
  }

  /** One more step of the sweep keeps the code at position `i` unless its
      call is emptied. */
  lemma SurvivorsStep(codes: seq<Code>, i: nat, calls: Calls, s: SocketId)
    requires i < |codes|
    ensures SurvivingCodes(codes[..i + 1], calls, s) ==
      SurvivingCodes(codes[..i], calls, s) +
      (if codes[i] in calls && Emptied(calls[codes[i]], s) then [] else [codes[i]])
  {
    assert codes[..i + 1][..i] == codes[..i];
  }

  /** One more step of the sweep announces the code at position `i` exactly
      when its call held `s` and survives. */
  lemma NotesStep(codes: seq<Code>, i: nat, calls: Calls, s: SocketId)
    requires i < |codes|
    ensures DepartureNotes(codes[..i + 1], calls, s) ==
      DepartureNotes(codes[..i], calls, s) +
      (if codes[i] in calls && s in calls[codes[i]].participants && !Emptied(calls[codes[i]], s)
       then [Notify(Room(codes[i]), ParticipantLeft)] else [])
  {
    assert codes[..i + 1][..i] == codes[..i];
  }

  /** In a list without repeats, the element at `i` is neither before nor
      after position `i`. */
  lemma NotElsewhere(codes: seq<Code>, i: nat)
    requires i < |codes| && Distinct(codes)
    ensures codes[i] !in codes[..i] && codes[i] !in codes[i + 1..]
  {
    forall j | 0 <= j < |codes| && j != i ensures codes[j] != codes[i] { }
  }

  /** The sweep passes a code whose call is not emptied: the table's order is
      unchanged, split one position further on. */
  lemma KeepAtSweep(codes: seq<Code>, i: nat, calls: Calls, s: SocketId)
    requires i < |codes|
    requires !(codes[i] in calls && Emptied(calls[codes[i]], s))
    ensures SurvivingCodes(codes[..i], calls, s) + codes[i..] ==
      SurvivingCodes(codes[..i + 1], calls, s) + codes[i + 1..]
  {
    SurvivorsStep(codes, i, calls, s);
    assert codes[i..] == [codes[i]] + codes[i + 1..];
  }

  /** The sweep deletes the code at its position: removing it from the table's
      order drops exactly that code, which occurs neither among the codes
      already kept nor among those still to visit. */
  lemma DeleteAtSweep(codes: seq<Code>, i: nat, calls: Calls, s: SocketId)
    requires i < |codes| && Distinct(codes)
    requires codes[i] in calls && Emptied(calls[codes[i]], s)
    ensures Without(SurvivingCodes(codes[..i], calls, s) + codes[i..], codes[i]) ==
      SurvivingCodes(codes[..i + 1], calls, s) + codes[i + 1..]
  {
    var code, kept, rest := codes[i], SurvivingCodes(codes[..i], calls, s), codes[i + 1..];
    NotKeptYet(codes, i, calls, s);
    WithoutConcat(kept, codes[i..], code);
    assert codes[i..] == [code] + rest;
    NotElsewhere(codes, i);
    assert Without(codes[i..], code) == rest;
    SurvivorsStep(codes, i, calls, s);
  }

  /** The code at the sweep's position is not among the codes already kept. */
  lemma NotKeptYet(codes: seq<Code>, i: nat, calls: Calls, s: SocketId)
    requires i < |codes| && Distinct(codes)
    ensures codes[i] !in SurvivingCodes(codes[..i], calls, s)
    ensures Without(SurvivingCodes(codes[..i], calls, s), codes[i]) == SurvivingCodes(codes[..i], calls, s)
  {
    NotElsewhere(codes, i);
    SurvivingCodesMembers(codes[..i], calls, s);
  }

  /** The state of the disconnect sweep after visiting `codes[..i]`: visited
      calls are as `Departed` makes them, unvisited ones untouched, the order
      keeps the surviving visited codes followed by the unvisited ones, and
      the departures of the visited calls have been announced. */
  ghost predicate SweptTo(codes: seq<Code>, i: nat, calls0: Calls, s: SocketId,
                          calls: Calls, order: seq<Code>, notes: seq<Notification>)
  {
    && i <= |codes|
    && (forall c :: c in calls ==> c in calls0)
    && (forall j :: i <= j < |codes| ==>
          codes[j] in calls && codes[j] in calls0 && calls[codes[j]] == calls0[codes[j]])
    && (forall j :: 0 <= j < i ==>
          codes[j] in calls0 && Lookup(calls, codes[j]) == Departed(calls0[codes[j]], s))
    && order == SurvivingCodes(codes[..i], calls0, s) + codes[i..]
    && notes == DepartureNotes(codes[..i], calls0, s)
  }

  /** One visit of the sweep, as the disconnect handler performs it on the
      call under `codes[i]`, takes the sweep from `i` to `i + 1`. */
  lemma SweepAdvance(codes: seq<Code>, i: nat, calls0: Calls, s: SocketId,
                     calls: Calls, order: seq<Code>, notes: seq<Notification>,
                     calls': Calls, order': seq<Code>, notes': seq<Notification>)
    requires Distinct(codes) && i < |codes|
    requires SweptTo(codes, i, calls0, s, calls, order, notes)
    requires s !in calls[codes[i]].participants ==>
      calls' == calls && order' == order && notes' == notes
    requires s in calls[codes[i]].participants && Without(calls[codes[i]].participants, s) == [] ==>
      calls' == calls - {codes[i]} && order' == Without(order, codes[i]) && notes' == notes
    requires s in calls[codes[i]].participants && Without(calls[codes[i]].participants, s) != [] ==>
      && calls' == calls[codes[i] := calls[codes[i]].(participants := Without(calls[codes[i]].participants, s))]
      && order' == order
      && notes' == notes + [Notify(Room(codes[i]), ParticipantLeft)]
    ensures SweptTo(codes, i + 1, calls0, s, calls', order', notes')
  {
    var code := codes[i];
    assert calls[code] == calls0[code];
    NotesStep(codes, i, calls0, s);
    assert forall j :: 0 <= j < |codes| && j != i ==> codes[j] != code;
    if s in calls[code].participants && Without(calls[code].participants, s) == [] {
      DeleteAtSweep(codes, i, calls0, s);
    } else {
      KeepAtSweep(codes, i, calls0, s);
    }
  }

  /** Before the sweep nothing is visited. */
  lemma SweepStart(codes: seq<Code>, calls0: Calls, s: SocketId)
    requires forall c :: c in codes ==> c in calls0
    ensures SweptTo(codes, 0, calls0, s, calls0, codes, [])
  {
    assert codes[..0] == [];
    assert codes[0..] == codes;
  }

  /** A sweep that has visited every code of the table leaves exactly the
      `Disconnected` table, the surviving codes and the departure notes. */
  lemma SweepDone(codes: seq<Code>, calls0: Calls, s: SocketId,
                  calls: Calls, order: seq<Code>, notes: seq<Notification>)
    requires forall c :: c in calls0 <==> c in codes
    requires SweptTo(codes, |codes|, calls0, s, calls, order, notes)
    ensures calls == Disconnected(calls0, s)
    ensures order == SurvivingCodes(codes, calls0, s)
    ensures notes == DepartureNotes(codes, calls0, s)
  {
    assert codes[..|codes|] == codes;
    assert codes[|codes|..] == [];
    SweptAll(calls0, calls, codes, s);
  }
}
