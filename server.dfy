/** The process-wide room registry as the server holds it: one object whose
    `rooms` map and iteration `order` the handlers update in place. Each
    handler is proved to leave the registry and to send exactly what the
    corresponding function of `RegistrySpec` describes, and to keep the
    registry invariant. Generated codes and ids are parameters. */
module Server {
  import opened JsText
  import opened RegistrySpec
  import opened RegistryProps
  import opened CorrectedClose
  import opened Gateway

  lemma AppendAssoc(a: seq<Outbound>, b: seq<Outbound>, c: seq<Outbound>)
    ensures a + (b + c) == (a + b) + c
  {
  }

  class Registry {
    /** `rooms`: code to room. */
    var rooms: map<string, Room>
    /** The codes of `rooms` in `Map` iteration (first insertion) order. */
    var order: seq<string>

    function State(): Rooms
      reads this
    {
      Rooms(rooms, order)
    }

    ghost predicate Valid()
      reads this
    {
      RegistrySpec.Valid(State())
    }

    /** `new Map()`. */
    constructor ()
      ensures Valid() && State() == Empty
    {
      rooms := map[];
      order := [];
    }

    /** `findRoomByWs(ws)`: rooms in iteration order, the first one holding a
        player bound to `ws`, with that player's lowest index. */
    method FindRoomByWs(ws: Conn) returns (found: Option<Seat>)
      requires Valid()
      ensures found == Find(State(), ws)
    {
      var i := 0;
      while i < |order|
        invariant 0 <= i <= |order|
        invariant Find(State(), ws) == FindIn(rooms, order[i..], ws)
      {
        assert order[i..][0] == order[i] && order[i..][1..] == order[i + 1..];
        var idx := FirstIndex(rooms[order[i]].players, ws);
        if idx.Some? {
          return Some(Seat(order[i], idx.value));
        }
        i := i + 1;
      }
      return None;
    }

    /** `createRoom(data, ws)`, with `rawCode` and `playerId` the values
        `nanoid(6)` and `nanoid(10)` returned. */
    method CreateRoom(data: Payload, ws: Conn, rawCode: string, playerId: string) returns (out: seq<Outbound>)
      requires Valid()
      modifies this
      ensures Valid()
      ensures Step(State(), out) == Create(old(State()), data.name, ws, rawCode, playerId)
    {
      CreatePreservesValid(State(), data.name, ws, rawCode, playerId);
      var code := ToUpper(rawCode);
      var name := PlayerName(data.name);
      var room := Room(code, Lobby, playerId, [Player(playerId, name, ws)]);
      if code !in rooms {
        order := order + [code];
      }
      rooms := rooms[code := room];
      out := [Outbound(ws, CreatedRoom(code, playerId))]
             + Broadcast(room.players, RoomStateChanged(MakeRoomState(room)));
    }

    /** `joinRoom(data, ws)`, with `playerId` the value `nanoid(10)` returned:
        normalise the code and the name, then `Enter`. */
    method JoinRoom(data: Payload, ws: Conn, playerId: string) returns (out: seq<Outbound>)
      requires Valid()
      modifies this
      ensures Valid()
      ensures Step(State(), out) == Join(old(State()), data.roomCode, data.name, ws, playerId)
    {
      JoinPreservesValid(State(), data.roomCode, data.name, ws, playerId);
      var code := NormalizeCode(data.roomCode);
      var name := PlayerName(data.name);
      out := Enter(code, name, ws, playerId);
    }

    /** The part of `joinRoom` after normalisation: refuse an unknown code,
        a room not in the lobby and a full room, otherwise append the new
        player and send the acknowledgement and the room state. */
    method Enter(code: string, name: string, ws: Conn, playerId: string) returns (out: seq<Outbound>)
      modifies this
      ensures Step(State(), out) == RegistrySpec.Enter(old(State()), code, name, ws, playerId)
    {
      if code !in rooms {
        return [Outbound(ws, Error(RoomNotFound))];
      }
      var room := rooms[code];
      if room.status != Lobby {
        return [Outbound(ws, Error(GameAlreadyStarted))];
      }
      if |room.players| >= MaxPlayers {
        return [Outbound(ws, Error(RoomIsFull))];
      }
      room := room.(players := room.players + [Player(playerId, name, ws)]);
      rooms := rooms[code := room];
      out := [Outbound(ws, JoinedRoom(code, playerId))]
             + Broadcast(room.players, RoomStateChanged(MakeRoomState(room)));
    }

    /** `leaveRoom(ws)`: find the connection's seat, then `Vacate` it. */
    method LeaveRoom(ws: Conn) returns (out: seq<Outbound>)
      requires Valid()
      modifies this
      ensures Valid()
      ensures Step(State(), out) == Leave(old(State()), ws)
    {
      LeavePreservesValid(State(), ws);
      ValidIndexed(State());
      var found := FindRoomByWs(ws);
      if found.None? {
        return [];
      }
      out := Vacate(found.value);
    }

    /** The part of `leaveRoom` once a seat is found: splice the player out,
        hand the host role to the first remaining player if the host left,
        and delete a room left empty or else broadcast its new state. */
        method Vacate(seat: Seat) returns (out: seq<Outbound>)
      requires seat.code in rooms && seat.idx < |rooms[seat.code].players|
      modifies this
      ensures Step(State(), out) == RegistrySpec.Vacate(old(State()), seat)
    {
      var code, idx := seat.code, seat.idx;
      var room := rooms[code];
      var leaving := room.players[idx];
      room := room.(players := room.players[..idx] + room.players[idx + 1..]);
      if room.hostId == leaving.id && |room.players| > 0 {
        room := room.(hostId := room.players[0].id);
      }
      rooms := rooms[code := room];
      if |room.players| == 0 {
        rooms := rooms - {room.code};
        order := RemoveKey(order, room.code);
        return [];
      }
      out := Broadcast(room.players, RoomStateChanged(MakeRoomState(room)));
    }

    /** Corrected close handling: `leaveRoom` until the connection holds no
        seat in any room. */
    method Disconnect(ws: Conn) returns (out: seq<Outbound>)
      requires Valid()
      modifies this
      ensures Valid()
      ensures Step(State(), out) == LeaveAll(old(State()), ws)
      ensures forall k :: k in rooms ==> !Seated(rooms[k].players, ws)
    {
      out := [];
      var found := FindRoomByWs(ws);
      while found.Some?
        invariant Valid()
        invariant found == Find(State(), ws)
        invariant LeaveAll(old(State()), ws)
                  == Step(LeaveAll(State(), ws).rooms, out + LeaveAll(State(), ws).out)
        decreases SeatCount(rooms, order)
      {
        ghost var before := State();
        LeaveFreesOneSeat(before, ws);
        LeaveAllUnfold(before, ws);
        var more := LeaveRoom(ws);
        ghost var rest := LeaveAll(State(), ws);
        AppendAssoc(out, more, rest.out);
        out := out + more;
        found := FindRoomByWs(ws);
      }
      LeaveAllUnfold(State(), ws);
      assert out + [] == out;
    }

    /** The `message` handler once the text is decoded: dispatch on `type`,
        then run the operation, or send the error to the sender alone. */
    method HandleMessage(msg: Message, ws: Conn, rawCode: string, playerId: string) returns (out: seq<Outbound>)
      requires Valid()
      modifies this
      ensures Valid()
      ensures Dispatch(msg.kind) == ToCreateRoom ==>
                Step(State(), out) == Create(old(State()), msg.data.name, ws, rawCode, playerId)
      ensures Dispatch(msg.kind) == ToJoinRoom ==>
                Step(State(), out) == Join(old(State()), msg.data.roomCode, msg.data.name, ws, playerId)
      ensures Dispatch(msg.kind).Refuse? ==>
                State() == old(State()) && out == [Outbound(ws, Error(Dispatch(msg.kind).message))]
    {
      match Dispatch(msg.kind)
      case ToCreateRoom =>
        out := CreateRoom(msg.data, ws, rawCode, playerId);
      case ToJoinRoom =>
        out := JoinRoom(msg.data, ws, playerId);
      case Refuse(message) =>
        out := [Outbound(ws, Error(message))];
    }
  }
}
