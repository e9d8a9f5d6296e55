# Call table of a two-party signaling server

This project models the state machine of a small WebRTC signaling server
(`server.js`). The server keeps one in-memory table, `calls`, from a short
call code to a call record `{creator, participants, waiting}`. Socket events
read and update that table and emit notifications:

- `create-call` stores a new call;
- `join-call` puts the joiner in a one-slot waiting room;
- `accept-participant` and `reject-participant` are for the call's creator only;
- `send-offer`, `send-answer` and `send-ice-candidate` are relayed to the other member;
- `leave-call` takes the sender out of one call;
- `disconnect` takes the sender out of every call.

The table is the class `Server.CallTable`. Its field `calls: map<Code, Call>` holds the
entries of the JavaScript `Map`. Its field `order: seq<Code>` holds the Map's iteration
order, which decides the order in which `disconnect` notifies the rooms. Each handler is
a method. It takes the sender's socket id and the message fields, updates the table in
place, and returns the list of notifications it emits, each a target and an event. A
target is one socket (`Socket(id)`) or the room named by a call code (`Room(code)`).

`Disconnect` walks a copy of `order` taken when it starts. The JavaScript loop walks the
live Map instead, but it only ever deletes the entry it is visiting, so both visit the
same entries in the same order.

The object invariant `Valid()` holds before and after every handler. It says:

- every stored call has at least one participant;
- `order` lists every code of the table exactly once.

Every handler except `create-call` keeps the creator of every call that survives, and
adds no code (`KeepsCreators`).

Files:

- `seqs.dfy`: the list filter `Without`, which is JavaScript's
  `filter(id => id !== x)`, and its lemmas.
- `protocol.dfy`: ids, the call record, events and notifications. Also the relay target
  (`FindOther`) and the specification of the disconnect sweep (`Departed`,
  `Disconnected`, `SurvivingCodes`, `DepartureNotes`) with the lemmas that drive its
  loop.
- `call_table.dfy`: the class and its handlers.
- `scenarios.dfy`: event sequences applied to fresh tables. They show what the
  handlers' contracts let a client conclude.

## Behaviour of server.js worth noting

- `create-call` overwrites an existing entry under the same code. Nothing detects or
  avoids the clash (`Scenarios.CreateOverwrites`).
- `join-call` refuses only an unknown code and a call with two or more participants.
  A second joiner replaces the waiting one (`Scenarios.JoinReplacesWaiting`), and a
  socket that is already a participant, the creator included, may join again.
- `accept-participant` does not compare `participantId` with the waiting socket, and
  does not check the size of the call. So a call can reach three participants
  (`Scenarios.ThirdParticipant`): the call-full answer to `join-call` does not bound
  the size of a call. The `participant-accepted` event always carries the count 2.
- Accept and reject from anyone but the recorded creator, or for an unknown code, are
  silently ignored. No reply is sent.
- `leave-call` and `disconnect` never clear `waiting`.
- A creator who leaves does not end the call, and the record keeps that socket as its
  creator. A creator who only sent `leave-call` is still connected and can still accept
  and reject in that call (`Scenarios.CreatorLeavesStillAccepts`). After the creator
  disconnects, no connected socket has its id, so nobody can accept or reject in that
  call any more.
- `leave-call` by a socket that is not a participant still sends `participant-left` to
  the room.
- The room a call's notifications go to is named by the call code itself.

## Model

| member | source | states |
|---|---|---|
| `Server.CallTable.constructor` | server.js:18 | the table starts empty, with an empty iteration order, and satisfies the invariant |
| `Server.CallTable.Delete` | server.js:130 | `calls.delete(code)` removes exactly that entry, and that code from the iteration order; the invariant is kept |
| `Server.CallTable.Create` | server.js:24-33 | afterwards `calls[code] == {creator: sender, participants: [sender], waiting: null}`; any previous entry under `code` is replaced, in place in the order; every other code is untouched; `call-created{code}` goes to the sender only |
| `Server.CallTable.Join` | server.js:38-58 | an unknown code sends only `call-not-found` to the sender, and a call with 2 or more participants only `call-full`; in both cases the table is unchanged; otherwise only `waiting` changes, to the sender, replacing any earlier value; `call-waiting-for-approval` goes to the sender, then `participant-waiting{sender}` to the creator |
| `Server.CallTable.Accept` | server.js:64-78 | for an unknown code or a sender who is not the recorded creator, nothing changes and nothing is sent; otherwise `participantId` is appended at the end of the participants, with no check against `waiting` or the size; `waiting` becomes null; the creator is kept; the room gets `participant-accepted{participantId, 2}` |
| `Server.CallTable.Reject` | server.js:84-89 | for an unknown code or a non-creator, nothing happens; otherwise only `waiting` becomes null, the participants are unchanged, and `call-rejected` goes to `participantId` only |
| `Server.CallTable.Relay` | server.js:94-122 | never changes the table (no `modifies`); sends nothing for an unknown code or a call with fewer than 2 participants; otherwise sends at most one message, to the first participant other than the sender if that id is truthy; the message carries the payload unchanged and `from = sender` |
| `Server.CallTable.RemoveParticipant` | server.js:128-133 | every occurrence of the socket is filtered out of the call; the call is deleted exactly when nobody is left, and otherwise `participant-left` goes to its room; the invariant and the creators are kept |
| `Server.CallTable.Leave` | server.js:125-135 | an unknown code is a no-op; otherwise the sender is filtered out, the call is deleted exactly when it becomes empty, and the room is told otherwise, even when the sender was not a participant; afterwards the sender is not in that call |
| `Server.CallTable.Visit` | server.js:141-148 | one pass of the disconnect loop over the call at position `i` advances the sweep invariant `SweptTo` from `i` to `i + 1` |
| `Server.CallTable.Disconnect` | server.js:137-150 | the loop over the Map's entries leaves exactly the `Disconnected` table, keeps the surviving codes in their original order, and emits the departure notes in iteration order |
| `Seqs.Without` | server.js:128 | the filtered list contains no `x`, contains exactly the other elements of the input, and is the input itself when `x` is absent (so a second filtering changes nothing) |
| `Seqs.WithoutCounts` | server.js:128 | every occurrence of `x` is removed, and every other element keeps its number of occurrences |
| `Seqs.WithoutConcat` | server.js:142 | filtering distributes over concatenation, so the remaining participants keep their original relative order |
| `Seqs.WithoutKeepsDistinct` | server.js:144 | deleting a code from a duplicate-free iteration order leaves it duplicate-free |
| `Protocol.FindOther` | server.js:98 | `find(id => id !== sender)`: every participant before the returned index is the sender, and the one at the index, if any, is not |
| `Protocol.Truthy` | server.js:99 | the `if (target)` test: a found id is used only when it is not the empty string |
| `Protocol.PairRelay` | server.js:98-101 | in a two-member call each member's messages go to the other member |
| `Protocol.Departed` | server.js:141-147 | a call without the socket is unchanged; a call with it loses every occurrence of it and keeps its creator and `waiting`; the call is gone exactly when it becomes empty |
| `Protocol.Disconnected` | server.js:140-149 | afterwards the socket is in no call's participants; calls without it are untouched; calls that held it survive exactly when others remain; creators and `waiting` are kept; non-empty calls stay non-empty |
| `Protocol.SurvivingCodes` | server.js:143-144 | reference definition of the iteration order after disconnect: the codes in their original order, minus those whose calls were emptied and deleted |
| `Protocol.DepartureNotes` | server.js:145-146 | reference definition of disconnect's emits: one `participant-left` per visited call that held the socket and survives, in iteration order |
| `Protocol.SurvivingCodesMembers` | server.js:144 | the codes left in the iteration order are exactly the codes whose calls were not emptied, still without repeats |
| `Protocol.DepartureNotesMembers` | server.js:146 | disconnect sends `participant-left` to a call's room exactly when the call held the socket and survives, and sends nothing else |
| `Protocol.SurvivorsStep` | server.js:143-144 | visiting one more code keeps that code in the iteration order unless its call is emptied |
| `Protocol.NotesStep` | server.js:145-146 | visiting one more code adds its room's `participant-left` exactly when the call held the socket and survives |
| `Protocol.NotKeptYet` | server.js:144 | the code being visited is not among the codes already kept, so deleting it leaves those untouched |
| `Protocol.KeepAtSweep` | server.js:145-146 | passing a code whose call is kept leaves the iteration order as it was |
| `Protocol.DeleteAtSweep` | server.js:143-144 | deleting the visited code from the order drops that code alone |
| `Protocol.NotElsewhere` | server.js:140 | a Map key occurs at exactly one position of the iteration order |
| `Protocol.SweepStart` | server.js:140 | before the loop, no code has been visited |
| `Protocol.SweptAll` | server.js:140-149 | agreeing with `Departed` on every code of the table means being the `Disconnected` table |
| `Protocol.SweepAdvance` | server.js:141-148 | one visit, performed as the handler does it, extends the sweep by one code |
| `Protocol.SweepDone` | server.js:140-149 | once every code is visited, the table, the order and the notes are those of the specification |
| `Scenarios.LeaveTwice` | server.js:125-135 | a second `leave-call` by the same socket leaves the table, both its entries and its iteration order, as the first left it, and still notifies the room if the call survives |
| `Scenarios.RejectScenario` | server.js:84-89 | create, join, then reject: the joiner is told `call-rejected`, and the call is back to `{creator, [creator], null}` |
| `Scenarios.AcceptScenario` | server.js:94-112 | after an accept, an offer from the creator reaches the joiner, and an answer from the joiner reaches the creator, each unchanged and tagged with its sender |
| `Scenarios.DisconnectScenario` | server.js:137-150 | when the second member disconnects, the room is told, the call is back to the creator alone, and a new socket can ask to join |
| `Scenarios.CreatorLeavesStillAccepts` | server.js:64-78 | a creator that has left its call, but is still connected, can still accept: the accepted socket is appended after the remaining participant and the room is told |
| `Scenarios.ThirdParticipant` | server.js:64-69 | after `call-full` has turned a third socket away, the creator can still accept it, and the call then has 3 participants |
| `Scenarios.JoinReplacesWaiting` | server.js:52 | a second joiner replaces the waiting socket instead of being refused |
| `Scenarios.CreateOverwrites` | server.js:26 | creating under a code in use replaces the call, and the earlier creator loses the right to accept |

## Left out

- The HTTP server, CORS, `server.listen` and the `/health` route (server.js:1-16,
  153-160). This is framework plumbing.
- Console logging.
- Code generation with `Math.random().toString(36)` (server.js:25). It is random, so
  `Create` takes the code as a parameter.
- Room membership in the transport: `socket.join(code)` (server.js:32) and
  `io.sockets.sockets.get(...)?.join(code)` (server.js:72). A room emit is recorded as
  the target `Room(code)`. Which sockets are in the room, and so receive it, is not
  modelled.
- Delivery of emits. It is fire-and-forget. The model records the intended
  notifications in emission order.
- Concurrency. Node runs one handler at a time, so each handler is one atomic method.
- Malformed messages. The model assumes every message carries its fields as strings.
  The case where destructuring a missing payload throws is not modelled. Neither are
  non-string `participantId` values, for which JavaScript's truthiness differs from
  `Truthy`.
- Payloads. Offers, answers and candidates are opaque strings here. The server passes
  them through untouched.
