# Lobby room registry

A model of the lobby server's room registry (`index.js`). The server keeps
one process-wide `Map` from a six-character room code to a room. A room has
a code, a status (always `"lobby"`), the host's player id and its roster of
players in join order. Each player has an id, a display name and the
WebSocket connection bound to them. Clients send `create_room` and
`join_room` messages. Closing a connection runs `leaveRoom`. After every
change the room's state (code, status, host and each player's id and name)
is broadcast to the room's players.

The project has six modules:

- `JsText` (`text.dfy`): the JavaScript string operations the handlers use:
  `toUpperCase`, `trim`, `slice(0, n)` and `||` defaulting of a missing
  field.
- `RegistrySpec` (`registry_spec.dfy`): the registry as a value. `Rooms` is
  the map and its iteration order, and `Step` is a registry together with
  the list of messages an operation sends. Each operation is a function:
  `Create`, `Enter`/`Join`, `Find`, `Vacate`/`Leave`, plus the
  `MakeRoomState` projection and the invariant `Valid`.
- `RegistryProps` (`registry_props.dfy`): lemmas about those functions:
  - the invariant holds initially and every operation keeps it;
  - each operation's exact effect;
  - the round trip from a generated code to a successful join;
  - the close-handling defect described under Findings.
- `CorrectedClose` (`close.dfy`): the correction of that defect. `LeaveAll`
  repeats `leaveRoom` until the connection holds no seat; the registry's
  seat count is its termination measure.
- `Gateway` (`gateway.dfy`): the message handler's dispatch on `type` once
  the message is decoded.
- `Server` (`server.dfy`): the class `Registry`, holding the `rooms` map and
  its iteration `order` as fields that its methods update in place. Every
  method is proved to produce exactly the state and messages of the
  matching `RegistrySpec` function. The handlers (`CreateRoom`, `JoinRoom`,
  `LeaveRoom`, `Disconnect`, `HandleMessage`) also keep `Valid`; the two
  steps they delegate to (`Enter`, `Vacate`) need no invariant.
  `FindRoomByWs` is the source's loop with an early return.

JavaScript `Map` iteration order is insertion order. It is modelled as the
sequence `order`: `set` on a new key appends that key, `set` on a present
key keeps its place, and `delete` removes it. Connections are opaque
comparable handles (`Conn`). The values `nanoid` returns are parameters:
`rawCode` for `nanoid(6)` and `playerId` for `nanoid(10)`. Sending is
modelled as the ordered list of `Outbound(connection, event)` messages the
operation emits.

`createRoom` does not check whether the generated code is already
registered. The model keeps that behaviour: `Create` overwrites the earlier
room, and `CreatePreservesValid` shows the invariant survives it.

## Model

| member | source | states |
|---|---|---|
| JsText.UpperChar | index.js:40 | a lower-case ASCII letter maps to the capital at the same place in the alphabet (`a` to `A`, …, `z` to `Z`); every other character is unchanged |
| JsText.UpperCharSpace | index.js:58 | upper-casing a character neither creates nor removes whitespace |
| JsText.ToUpper | index.js:40 | upper-casing keeps the length and maps each character in place by `UpperChar` |
| JsText.SkipSpace | index.js:58 | the end of the whitespace run starting at `i`: every character before it is whitespace, and it is the end of the string or a non-whitespace character |
| JsText.SkipSpaceBack | index.js:58 | the start of the whitespace run ending at `n`, not below `lo`: every character from it to `n` is whitespace, and the character before it (above `lo`) is not |
| JsText.Trim | index.js:58 | the result is the input with its whole leading whitespace run and a trailing whitespace run cut off, every kept character in its place (`TrimmedFrom`); the result neither starts nor ends with whitespace |
| JsText.TrimPadded | index.js:58 | whitespace before and after a string without whitespace at its ends is exactly what trimming removes |
| JsText.TrimIdempotent | index.js:58 | trimming twice is trimming once |
| JsText.ToUpperOfFixed | index.js:58 | upper-casing a string that is already upper-case changes nothing |
| JsText.Prefix | index.js:42 | `slice(0, n)` gives a prefix of length `min(n, length)` |
| RegistrySpec.PlayerName | index.js:42 | the name is never empty and at most 20 characters; it is "Player" when the supplied name is absent or empty; otherwise it is a prefix of the supplied name, either the whole name or exactly 20 characters |
| RegistrySpec.NormalizeCode | index.js:58 | the normalised join code is upper-case and has no whitespace at either end (`NormalizeCodeTrims` ties it to the supplied code) |
| RegistrySpec.MakeRoomState | index.js:22-29 | the projection copies code, status and host, and lists exactly `(id, name)` of each player in roster order |
| RegistrySpec.Broadcast | index.js:18-20 | one message per roster player, to that player's connection, in roster order |
| RegistrySpec.FirstIndex | index.js:33 | the result is the lowest roster index bound to the connection, or none exactly when no player is bound to it |
| RegistrySpec.FindIn | index.js:31-37 | the result is the first room in iteration order that seats the connection, with that player's lowest index; it is none exactly when no listed room seats the connection |
| RegistrySpec.RemoveKey | index.js:88 | deleting a key from the iteration order removes exactly that key and keeps the order duplicate-free; an absent key changes nothing (`RemoveKeyCutsOut` states the order of the rest) |
| RegistrySpec.Valid | index.js:39-93 | the invariant every handler keeps: the map's keys are exactly the listed codes, each listed once; each room is stored under its own code and has 1 to 4 players, one of them the host (`EmptyValid`, `CreatePreservesValid`, `JoinPreservesValid` and `LeavePreservesValid` establish and keep it) |
| RegistrySpec.Find | index.js:31-37 | `findRoomByWs` over the whole registry; its contract is `FindIn`'s, and `Server.Registry.FindRoomByWs` is proved to return it |
| RegistrySpec.Create | index.js:39-55 | the room registered under the upper-cased code is in the lobby, has exactly one player with the new id and name, and that player is host; the other rooms are unchanged; a new code goes last in the order and a present code keeps its place; the creator gets `created_room`, then the room state |
| RegistrySpec.Enter | index.js:61-70 | the registry changes if and only if the code is registered, the room is in the lobby and it has fewer than 4 players; the three failures each send only the matching error, in the source's order of checks |
| RegistrySpec.Join | index.js:57-71 | `joinRoom`: normalise the code and the name, then `Enter`; `JoinPreservesValid`, `JoinAfterCreate` and `FullRoomRefuses` state what it keeps, achieves and refuses |
| RegistrySpec.Vacate | index.js:77-92 | removal of one seat; `VacateRemovesSeat`, `VacateHandsOverHost` and `VacatePreservesValid` state its effect |
| RegistrySpec.Leave | index.js:73-93 | `leaveRoom`; `LeaveUnseated`, `LeavePreservesValid`, `LeaveKeepsOthers` and `CorrectedClose.LeaveFreesOneSeat` state its effect |
| RegistryProps.EmptyValid | index.js:10 | the empty registry of a fresh server satisfies the invariant and has every room in the lobby |
| RegistryProps.CreatePreservesValid | index.js:39-55 | `createRoom` keeps the invariant, including when it overwrites a room under the same code |
| RegistryProps.EnterAppends | index.js:64-70 | a successful join appends exactly the new player at the end of the roster; earlier players, their order, code, status and host are kept, as are all other rooms and the iteration order; the joiner gets `joined_room`, then the whole new roster gets the room state |
| RegistryProps.EnterPreservesValid | index.js:61-67 | a join keeps the invariant; in particular no roster grows beyond 4 players and the host stays seated |
| RegistryProps.JoinPreservesValid | index.js:57-71 | `joinRoom`, with its code and name normalisation, keeps the invariant |
| RegistryProps.FullRoomRefuses | index.js:64 | a join into a lobby room with 4 players is answered "Room is full" and changes nothing |
| RegistryProps.RemoveKeyCutsOut | index.js:88 | in a duplicate-free order, deleting the key at index `i` leaves exactly the keys before `i` followed by the keys after `i` |
| RegistryProps.LeaveUnseated | index.js:74-75 | `leaveRoom` for a connection seated nowhere changes nothing and sends nothing |
| RegistryProps.SpliceAt | index.js:79 | `splice(i, 1)` keeps the players before `i` in place and shifts the later ones down by one |
| RegistryProps.VacateRemovesSeat | index.js:77-92 | removing the player at index `i` leaves exactly the roster without that player (the rest in order); a room left empty is deleted from the map and the order, with nothing sent; otherwise the room keeps its place and status and its remaining players get the new state; no other room changes |
| RegistryProps.VacateHandsOverHost | index.js:82-84 | when the host leaves and players remain, the first remaining player becomes host; when another player leaves, the host stays |
| RegistryProps.VacatePreservesValid | index.js:77-90 | removing any seat keeps the invariant: every remaining room has a seated host, and no empty room stays registered |
| RegistryProps.LeavePreservesValid | index.js:73-93 | `leaveRoom` keeps the invariant |
| RegistryProps.LeaveKeepsOthers | index.js:77-79 | a player on another connection keeps their room and seat through `leaveRoom` |
| RegistryProps.CreateKeepsLobby | index.js:46 | `createRoom` keeps every room's status at "lobby" |
| RegistryProps.EnterKeepsLobby | index.js:61-67 | `joinRoom` keeps every room's status at "lobby" |
| RegistryProps.LeaveKeepsLobby | index.js:73-93 | `leaveRoom` keeps every room's status at "lobby" |
| RegistryProps.JoinNeverAlreadyStarted | index.js:63 | while every room is in the lobby, no join is answered "Game already started" |
| RegistryProps.NormalizeIdempotent | index.js:58 | normalising an already normalised code changes nothing |
| RegistryProps.NormalizeCodeTrims | index.js:58 | the normalised code is the upper-cased supplied code with only whitespace cut from its ends, every kept character in its place |
| RegistryProps.PaddedCodeNormal | index.js:58 | a generated code with whitespace around it normalises to the upper-cased code |
| RegistryProps.GeneratedCodeNormal | index.js:58 | an upper-cased `nanoid` code, and its lower-case original, both normalise to the registered code |
| RegistryProps.JoinAfterCreate | index.js:39-71 | joining with the code just created succeeds: the joiner is seated second and the creator stays host |
| RegistryProps.LastLeaveForgetsCode | index.js:87-89 | after the last player leaves, the room is gone and a join with its code is answered "Room not found" |
| RegistryProps.OneLeaveKeepsSecondSeat | index.js:118-120 | a connection seated in two rooms is still seated in one of them after the single `leaveRoom` of a close |
| RegistryProps.TwoCreatesThenClose | index.js:118-120 | two `create_room` from one connection, then its close: the first room is deleted, but the second stays registered with the closed connection as its only player and host |
| RegistryProps.TwoCreates | index.js:39-55 | the exact registry after two creates with different codes on a fresh server |
| RegistryProps.TwoRoomsLeaveFirst | index.js:73-93 | with one connection hosting two one-player rooms, `leaveRoom` deletes the first room in order and keeps the second unchanged |
| CorrectedClose.SeatCountUpdate | index.js:79 | replacing a room (as after a `splice`) changes the registry's seat count by the change in that room's roster length; a step towards the termination measure of `LeaveAll` |
| CorrectedClose.VacateFreesOneSeat | index.js:77-89 | removing a seat lowers the registry's seat count by exactly one |
| CorrectedClose.LeaveFreesOneSeat | index.js:73-93 | `leaveRoom` on a seated connection frees exactly one seat |
| CorrectedClose.FindNoneUnseated | index.js:31-37 | when the scan finds nothing, the connection is seated in no registered room |
| CorrectedClose.LeaveAll | index.js:118-120 | corrected close: repeat `leaveRoom` until the connection is seated nowhere; the invariant holds afterwards and no seat is bound to the connection |
| CorrectedClose.LeaveAllKeepsOthers | index.js:118-120 | the corrected close removes no seat of any other connection |
| Gateway.Dispatch | index.js:109-115 | absent or empty `type` gives "Missing type"; `create_room` and `join_room` (and only those) go to their operations; any other type gives "Unknown event: " followed by the type |
| Gateway.StartGameIsUnknown | index.js:112-115 | `start_game` is refused as an unknown event |
| Server.Registry.constructor | index.js:10 | a fresh registry is empty and satisfies the invariant |
| Server.Registry.FindRoomByWs | index.js:31-37 | the loop over the rooms in iteration order returns exactly the seat `Find` describes |
| Server.Registry.CreateRoom | index.js:39-55 | the in-place update leaves exactly the registry and messages of `Create`, and keeps the invariant |
| Server.Registry.JoinRoom | index.js:57-71 | normalisation followed by `Enter` leaves exactly the registry and messages of `Join`, and keeps the invariant |
| Server.Registry.Enter | index.js:61-70 | the three refusals, then the in-place append, leave exactly the registry and messages of `RegistrySpec.Enter` |
| Server.Registry.LeaveRoom | index.js:73-93 | the scan and then the removal leave exactly the registry and messages of `Leave`, and keep the invariant |
| Server.Registry.Vacate | index.js:77-92 | the splice, host hand-over and deletion leave exactly the registry and messages of `RegistrySpec.Vacate` |
| Server.Registry.Disconnect | index.js:118-120 | the corrected close loop leaves exactly the registry and messages of `LeaveAll`, keeps the invariant, and leaves no seat bound to the connection |
| Server.Registry.HandleMessage | index.js:109-115 | a decoded message runs `Create` or `Join` as `Dispatch` routes it; a refused message changes nothing and sends the error only to the sender |

## Left out

- The WebSocket server, the `hello` greeting, `send`'s `readyState` check and the actual sending are I/O. Sends are modelled as the ordered intent list `out`; a send to a closed connection is not dropped.
- Decoding the raw text, and the "Invalid JSON" reply, are a library call. Messages are modelled already decoded, with `type`, `name` and `roomCode` absent or strings.
- A `type` that is not a string is not modelled. In the source `0`, `NaN` and `false` fail the falsy test (index.js:110) and get "Missing type"; any other value, such as `5` or `["join_room"]`, gets "Unknown event: " followed by its template-string form (index.js:115), here `5` and `join_room`.
- A `name` or `roomCode` that is not a string is not modelled. In the source `0`, `NaN` and `false` fall back to the default. Any other number, `true` or a plain object throws a TypeError at `slice` (index.js:42, 59) or `toUpperCase` (index.js:58), and so does an array `roomCode`. An array `name` is kept, cut to at most 20 elements.
- `nanoid` is a library call. Its randomness, the uniqueness of its ids and its alphabet are not modelled; codes and ids are parameters. `GeneratedCodeNormal` states the alphabet as a precondition.
- `process.env.PORT`, `console.log`, and the connection and close event wiring are configuration, logging and the event loop. The close handler is modelled only as the operation it runs.
- JsText.ToUpper: upper-cases ASCII letters only. JavaScript `toUpperCase` also maps letters outside ASCII, some of them to several characters.
- JsText.Prefix: counts characters. JavaScript `slice` counts UTF-16 code units, so a name with characters outside the Basic Multilingual Plane is cut at a different place.
- Room objects that the source changes in place (the `push` and `splice` on `players`, and the assignment to `hostId`) are modelled as room values replaced in the registry map. No reference to a room outlives a handler, so no aliasing is lost.
- A room's status only ever holds "lobby". There is no `start_game` handler, no deck, no shuffle and no dealing in the source, so none is modelled; the "Game already started" branch is modelled but shown to be unreachable.

## Findings

| source | as written | input that shows it | evidently intended | confidence | as-written member | corrected member |
|---|---|---|---|---|---|---|
| index.js:118-120 | the close handler calls `leaveRoom` once, and `leaveRoom` removes only the first seat `findRoomByWs` finds | one connection sends `create_room` twice (different generated codes), then closes | closing a connection frees every seat bound to it, so no room keeps a closed connection as host or player | medium, not executed | RegistryProps.TwoCreatesThenClose | CorrectedClose.LeaveAll |
| index.js:73-93 | `findRoomByWs` stops at the first room, so one `leaveRoom` leaves any second seat of the same connection in place | a connection seated in rooms `k1` and `k2` (by create then join, or two creates) | every seat of the closing connection is released | medium, not executed | RegistryProps.OneLeaveKeepsSecondSeat | Server.Registry.Disconnect |
