/** The lobby's room registry as values: the process-wide map from room code
    to room, the order in which that map is iterated, and the three registry
    operations (create, join, leave) as functions from one registry to the
    next together with the messages they send. */
module RegistrySpec {
  import opened JsText

  /** An opaque, comparable handle for a client's WebSocket connection. */
  datatype Conn = Conn(handle: nat)

  /** A seated player; `ws` is the connection messages for them go to. */
  datatype Player = Player(id: string, name: string, ws: Conn)

  /** A room: its code, its status string, its host's id and its roster in
      join order. */
  datatype Room = Room(code: string, status: string, hostId: string, players: seq<Player>)

  /** What the `room_state` message shows of a player: no connection. */
  datatype PlayerView = PlayerView(id: string, name: string)

  datatype RoomState = RoomState(code: string, status: string, hostId: string, players: seq<PlayerView>)

  /** The outbound message kinds of the registry operations. */
  datatype Event =
    | CreatedRoom(roomCode: string, playerId: string)
    | JoinedRoom(roomCode: string, playerId: string)
    | RoomStateChanged(state: RoomState)
    | Error(message: string)

  /** One `send(ws, type, data)` the server performs. */
  datatype Outbound = Outbound(to: Conn, event: Event)

  /** The registry: the `Map` from code to room and its iteration order
      (the order in which codes were first inserted). */
  datatype Rooms = Rooms(byCode: map<string, Room>, order: seq<string>)

  /** The registry after an operation and the messages the operation sent,
      in sending order. */
  datatype Step = Step(rooms: Rooms, out: seq<Outbound>)

  /** Where a connection sits: the room's code and the player's index in
      that room's roster. */
  datatype Seat = Seat(code: string, idx: nat)

  const Lobby: string := "lobby"
  const MaxPlayers: nat := 4
  const MaxNameLength: nat := 20
  const DefaultName: string := "Player"
  const RoomNotFound: string := "Room not found"
  const GameAlreadyStarted: string := "Game already started"
  const RoomIsFull: string := "Room is full"

  /** The registry of a freshly started server. */
  const Empty: Rooms := Rooms(map[], [])

  /** The player name: the supplied name, or "Player" when it is absent or
      empty, cut to its first 20 characters. So it is never empty and at
      most 20 characters long. */
  function PlayerName(name: Option<string>): (r: string)
    ensures 0 < |r| <= MaxNameLength
    ensures name.None? || name.value == [] ==> r == DefaultName
    ensures name.Some? && name.value != [] ==>
              r <= name.value && (r == name.value || |r| == MaxNameLength)
  {
    var n := if name.Some? && name.value != [] then name.value else DefaultName;
    Prefix(n, MaxNameLength)
  }

  /** The code a joiner supplied (empty when absent), upper-cased and then
      trimmed: upper-case, with no whitespace at either end
      (`NormalizeCodeTrims` ties it to the supplied code). */
  function NormalizeCode(roomCode: Option<string>): (r: string)
    ensures r == [] || (!IsSpace(r[0]) && !IsSpace(r[|r| - 1]))
    ensures UpperFixed(r)
  {
    var raw := if roomCode.Some? then roomCode.value else "";
    var u := ToUpper(raw);
    ToUpperFixes(raw);
    TrimKeepsUpperFixed(u);
    Trim(u)
  }

  /** Some player of `ps` is bound to `ws`. */
  ghost predicate Seated(ps: seq<Player>, ws: Conn) {
    exists i :: 0 <= i < |ps| && ps[i].ws == ws
  }

  /** `hostId` is the id of some player of the room. */
  ghost predicate HostSeated(room: Room) {
    exists i :: 0 <= i < |room.players| && room.players[i].id == room.hostId
  }

  /** A registered room is never empty, never over capacity, and its host is
      one of its players. */
  ghost predicate RoomOk(room: Room) {
    0 < |room.players| <= MaxPlayers && HostSeated(room)
  }

  ghost predicate Distinct(s: seq<string>) {
    forall i, j :: 0 <= i < j < |s| ==> s[i] != s[j]
  }

  /** The iteration order lists registered codes, each once. */
  ghost predicate Indexed(st: Rooms) {
    (forall k :: k in st.order ==> k in st.byCode) && Distinct(st.order)
  }

  /** The registry invariant: the order lists exactly the registered codes,
      each once; every room is stored under its own code and is `RoomOk`. */
  ghost predicate Valid(st: Rooms) {
    && (forall k :: k in st.byCode <==> k in st.order)
    && Distinct(st.order)
    && (forall k :: k in st.byCode ==> st.byCode[k].code == k && RoomOk(st.byCode[k]))
  }

  /** Every registered room is in the `lobby` status. */
  ghost predicate AllLobby(st: Rooms) {
    forall k :: k in st.byCode ==> st.byCode[k].status == Lobby
  }

  /** Each player's id and name, in roster order, without the connection. */
  function Views(ps: seq<Player>): (r: seq<PlayerView>)
    ensures |r| == |ps|
    ensures forall i :: 0 <= i < |ps| ==> r[i] == PlayerView(ps[i].id, ps[i].name)
  {
    if ps == [] then [] else [PlayerView(ps[0].id, ps[0].name)] + Views(ps[1..])
  }

  /** The broadcast projection of a room: its code, status and host, and
      exactly `(id, name)` of each player in roster order; the host of a
      room whose host is seated is listed. */
  function MakeRoomState(room: Room): (r: RoomState)
    ensures r.code == room.code && r.status == room.status && r.hostId == room.hostId
    ensures |r.players| == |room.players|
    ensures forall i :: 0 <= i < |room.players| ==>
              r.players[i] == PlayerView(room.players[i].id, room.players[i].name)
    ensures HostSeated(room) ==> exists i :: 0 <= i < |r.players| && r.players[i].id == r.hostId
  {
    RoomState(room.code, room.status, room.hostId, Views(room.players))
  }

  /** `broadcast(room, type, data)`: one send per player, in roster order. */
  function Broadcast(ps: seq<Player>, e: Event): (r: seq<Outbound>)
    ensures |r| == |ps|
    ensures forall i :: 0 <= i < |ps| ==> r[i] == Outbound(ps[i].ws, e)
  {
    if ps == [] then [] else [Outbound(ps[0].ws, e)] + Broadcast(ps[1..], e)
  }

  /** `findIndex` over a roster by connection: the lowest index bound to
      `ws`, or none when no player is. */
  function FirstIndex(ps: seq<Player>, ws: Conn): (r: Option<nat>)
    ensures r.Some? ==>
              r.value < |ps| && ps[r.value].ws == ws && forall j :: 0 <= j < r.value ==> ps[j].ws != ws
    ensures r.None? <==> !Seated(ps, ws)
  {
    if ps == [] then None
    else if ps[0].ws == ws then Some(0)
    else
      var r := FirstIndex(ps[1..], ws);
      if r.None? then
        assert forall i :: 1 <= i < |ps| ==> ps[i] == ps[1..][i - 1];
        None
      else
        assert ps[1..][r.value] == ps[r.value + 1];
        Some(r.value + 1)
  }

  /** The scan of `findRoomByWs` over the rooms listed in `order`: the first
      room with a player bound to `ws`, with that player's lowest index, or
      none when no listed room has one. */
  function FindIn(byCode: map<string, Room>, order: seq<string>, ws: Conn): (r: Option<Seat>)
    requires forall k :: k in order ==> k in byCode
    requires Distinct(order)
    ensures r.Some? ==>
              && r.value.code in order
              && r.value.idx < |byCode[r.value.code].players|
              && byCode[r.value.code].players[r.value.idx].ws == ws
              && (forall j :: 0 <= j < r.value.idx ==> byCode[r.value.code].players[j].ws != ws)
              && (forall p, q :: 0 <= q < p < |order| && order[p] == r.value.code ==>
                    !Seated(byCode[order[q]].players, ws))
    ensures r.None? <==> forall q :: 0 <= q < |order| ==> !Seated(byCode[order[q]].players, ws)
  {
    if order == [] then None
    else
      var i := FirstIndex(byCode[order[0]].players, ws);
      if i.Some? then
        Some(Seat(order[0], i.value))
      else
        var r := FindIn(byCode, order[1..], ws);
        assert forall q :: 1 <= q < |order| ==> order[q] == order[1..][q - 1];
        r
  }

  /** `findRoomByWs(ws)` over the whole registry. */
  function Find(st: Rooms, ws: Conn): (r: Option<Seat>)
    requires Indexed(st)
  {
    FindIn(st.byCode, st.order, ws)
  }

  /** The iteration order after `Map.delete(k)`: every occurrence of `k`
      gone, everything else kept (`RemoveKeyCutsOut` states the order). */
  function RemoveKey(s: seq<string>, k: string): (r: seq<string>)
    ensures forall x :: x in r <==> x in s && x != k
    ensures Distinct(s) ==> Distinct(r)
    ensures k !in s ==> r == s
  {
    if s == [] then []
    else
      var t := RemoveKey(s[1..], k);
      assert forall x :: x in s[1..] ==> x in s;
      if s[0] == k then t
      else
        assert Distinct(s) ==> s[0] !in s[1..];
        [s[0]] + t
  }

  /** `createRoom`: registers under the upper-cased generated code a lobby
      room whose only player, the creator, is its host, overwriting any room
      already under that code (a present key keeps its place in the
      iteration order, a new key goes last); acknowledges to the creator and
      broadcasts the room state. */
  function Create(st: Rooms, name: Option<string>, ws: Conn, rawCode: string, playerId: string): (s: Step)
    ensures var code := ToUpper(rawCode);
            && code in s.rooms.byCode
            && var room := s.rooms.byCode[code];
            && room.code == code && room.status == Lobby
            && |room.players| == 1 && room.players[0].id == room.hostId == playerId
            && room.players[0].ws == ws && room.players[0].name == PlayerName(name)
            && s.rooms.byCode.Keys == st.byCode.Keys + {code}
            && (forall k :: k in st.byCode && k != code ==> s.rooms.byCode[k] == st.byCode[k])
            && s.rooms.order == (if code in st.byCode then st.order else st.order + [code])
            && s.out == [Outbound(ws, CreatedRoom(code, playerId)),
                         Outbound(ws, RoomStateChanged(MakeRoomState(room)))]
  {
    var code := ToUpper(rawCode);
    var room := Room(code, Lobby, playerId, [Player(playerId, PlayerName(name), ws)]);
    var order := if code in st.byCode then st.order else st.order + [code];
    Step(Rooms(st.byCode[code := room], order),
         [Outbound(ws, CreatedRoom(code, playerId))] + Broadcast(room.players, RoomStateChanged(MakeRoomState(room))))
  }

  /** `joinRoom` accepts when the (normalised) code is registered, the room
      is in the lobby and has fewer than four players. */
  ghost predicate JoinAccepted(st: Rooms, code: string) {
    code in st.byCode && st.byCode[code].status == Lobby && |st.byCode[code].players| < MaxPlayers
  }

  /** `joinRoom` once the code and the name are normalised: refuses,
      changing nothing and telling only the sender why, an unknown code, a
      room not in the lobby and a full room (checked in that order);
      otherwise appends the new player to the roster, acknowledges to the
      sender and broadcasts the room state. */
  function Enter(st: Rooms, code: string, name: string, ws: Conn, playerId: string): (s: Step)
    ensures !JoinAccepted(st, code) <==> s.rooms == st
    ensures code !in st.byCode ==> s.out == [Outbound(ws, Error(RoomNotFound))]
    ensures code in st.byCode && st.byCode[code].status != Lobby ==>
              s.out == [Outbound(ws, Error(GameAlreadyStarted))]
    ensures code in st.byCode && st.byCode[code].status == Lobby
            && |st.byCode[code].players| >= MaxPlayers ==>
              s.out == [Outbound(ws, Error(RoomIsFull))]
  {
    if code !in st.byCode then Step(st, [Outbound(ws, Error(RoomNotFound))])
    else
      var room := st.byCode[code];
      if room.status != Lobby then Step(st, [Outbound(ws, Error(GameAlreadyStarted))])
      else if |room.players| >= MaxPlayers then Step(st, [Outbound(ws, Error(RoomIsFull))])
      else
        var room' := room.(players := room.players + [Player(playerId, name, ws)]);
        assert |room'.players| != |room.players|;
        Step(Rooms(st.byCode[code := room'], st.order),
             [Outbound(ws, JoinedRoom(code, playerId))]
             + Broadcast(room'.players, RoomStateChanged(MakeRoomState(room'))))
  }

  /** `joinRoom`: the supplied code normalised by `NormalizeCode`, the name
      by `PlayerName`, then `Enter`. */
  function Join(st: Rooms, roomCode: Option<string>, name: Option<string>, ws: Conn, playerId: string): (s: Step)
  {
    Enter(st, NormalizeCode(roomCode), PlayerName(name), ws, playerId)
  }

  /** What `leaveRoom` does with the seat it found: removes that player;
      hands the host role to the first remaining player if the host left;
      deletes a room left empty, and otherwise broadcasts its new state. */
  function Vacate(st: Rooms, seat: Seat): (s: Step)
    requires seat.code in st.byCode && seat.idx < |st.byCode[seat.code].players|
  {
    var room := st.byCode[seat.code];
    var leaving := room.players[seat.idx];
    var rest := room.players[..seat.idx] + room.players[seat.idx + 1..];
    var hostId := if room.hostId == leaving.id && |rest| > 0 then rest[0].id else room.hostId;
    var room' := room.(players := rest, hostId := hostId);
    var byCode := st.byCode[seat.code := room'];
    if |rest| == 0 then
      Step(Rooms(byCode - {room.code}, RemoveKey(st.order, room.code)), [])
    else
      Step(Rooms(byCode, st.order), Broadcast(rest, RoomStateChanged(MakeRoomState(room'))))
  }

  /** `leaveRoom(ws)`: nothing when the connection is seated nowhere,
      otherwise `Vacate` of the first seat `findRoomByWs` reports. */
  function Leave(st: Rooms, ws: Conn): (s: Step)
    requires Indexed(st)
  {
    match Find(st, ws)
    case None => Step(st, [])
    case Some(seat) => Vacate(st, seat)
  }
}
