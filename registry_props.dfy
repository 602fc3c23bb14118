/** What the registry operations promise: the invariant `Valid` each keeps,
    the exact effect of each on the rooms it touches, the round trip of a
    room code from `created_room` to `join_room`, and the effect of a close
    on a connection that is seated more than once. */
module RegistryProps {
  import opened JsText
  import opened RegistrySpec

  lemma ValidIndexed(st: Rooms)
    requires Valid(st)
    ensures Indexed(st)
  {
  }

  /** `Map.delete` keeps the iteration order of the other keys: in a
      duplicate-free order, exactly the position that held `k` is cut out. */
  lemma {:induction false} RemoveKeyCutsOut(s: seq<string>, k: string, i: nat)
    requires Distinct(s) && i < |s| && s[i] == k
    ensures RemoveKey(s, k) == s[..i] + s[i + 1..]
  {
    if i == 0 {
      assert k !in s[1..];
      assert s[..0] + s[1..] == s[1..];
    } else {
      assert s[0] != k;
      assert Distinct(s[1..]);
      RemoveKeyCutsOut(s[1..], k, i - 1);
      assert s[..i] + s[i + 1..] == [s[0]] + (s[1..][..i - 1] + s[1..][i..]);
    }
  }

  /** The registry of a freshly started server satisfies the invariant. */
  lemma EmptyValid()
    ensures Valid(Empty) && AllLobby(Empty)
  {
  }

  // ---------------------------------------------------------------- create

  /** `createRoom` keeps the invariant, including when it overwrites a room. */
  lemma CreatePreservesValid(st: Rooms, name: Option<string>, ws: Conn, rawCode: string, playerId: string)
    requires Valid(st)
    ensures Valid(Create(st, name, ws, rawCode, playerId).rooms)
  {
    var s := Create(st, name, ws, rawCode, playerId).rooms;
    var code := ToUpper(rawCode);
    assert HostSeated(s.byCode[code]) by {
      assert s.byCode[code].players[0].id == s.byCode[code].hostId;
    }
    if code !in st.byCode {
      assert code !in st.order;
      forall i, j | 0 <= i < j < |s.order| ensures s.order[i] != s.order[j] {
        if j == |st.order| {
          assert s.order[i] == st.order[i];
          assert st.order[i] in st.order;
        }
      }
    }
  }

  // ------------------------------------------------------------------ join

  /** A successful `joinRoom` appends exactly one player, the new one, at the
      end of the roster, leaving the earlier players and their order, every
      other room and the iteration order untouched; the sender gets
      `joined_room` with the normalised code, then the whole new roster gets
      the room state. */
  lemma EnterAppends(st: Rooms, code: string, name: string, ws: Conn, playerId: string)
    requires JoinAccepted(st, code)
    ensures var s := Enter(st, code, name, ws, playerId);
            var before := st.byCode[code];
            && s.rooms.order == st.order
            && s.rooms.byCode.Keys == st.byCode.Keys
            && (forall k :: k in st.byCode && k != code ==> s.rooms.byCode[k] == st.byCode[k])
            && var room := s.rooms.byCode[code];
            && room.players[..|before.players|] == before.players
            && room.players == before.players + [Player(playerId, name, ws)]
            && room.code == before.code && room.status == before.status && room.hostId == before.hostId
            && s.out == [Outbound(ws, JoinedRoom(code, playerId))]
                        + Broadcast(room.players, RoomStateChanged(MakeRoomState(room)))
  {
  }

  /** `joinRoom` keeps the invariant; in particular no roster grows past four
      players. */
  lemma EnterPreservesValid(st: Rooms, code: string, name: string, ws: Conn, playerId: string)
    requires Valid(st)
    ensures Valid(Enter(st, code, name, ws, playerId).rooms)
  {
    if JoinAccepted(st, code) {
      var s := Enter(st, code, name, ws, playerId).rooms;
      EnterAppends(st, code, name, ws, playerId);
      var before := st.byCode[code];
      var i :| 0 <= i < |before.players| && before.players[i].id == before.hostId;
      assert s.byCode[code].players[i] == before.players[i];
      assert RoomOk(s.byCode[code]);
      forall x | x in s.byCode ensures s.byCode[x].code == x && RoomOk(s.byCode[x]) {
        if x != code { assert s.byCode[x] == st.byCode[x]; }
      }
    }
  }

  /** `joinRoom` keeps the invariant. */
  lemma JoinPreservesValid(st: Rooms, roomCode: Option<string>, name: Option<string>, ws: Conn, playerId: string)
    requires Valid(st)
    ensures Valid(Join(st, roomCode, name, ws, playerId).rooms)
  {
    EnterPreservesValid(st, NormalizeCode(roomCode), PlayerName(name), ws, playerId);
  }

  /** A fifth join is refused with "Room is full" and changes nothing. */
  lemma FullRoomRefuses(st: Rooms, code: string, name: string, ws: Conn, playerId: string)
    requires code in st.byCode && st.byCode[code].status == Lobby
    requires |st.byCode[code].players| == MaxPlayers
    ensures Enter(st, code, name, ws, playerId) == Step(st, [Outbound(ws, Error(RoomIsFull))])
  {
  }

  // ----------------------------------------------------------------- leave

  /** A connection in no room: `leaveRoom` changes nothing and sends nothing. */
  lemma LeaveUnseated(st: Rooms, ws: Conn)
    requires Valid(st)
    requires forall k :: k in st.byCode ==> !Seated(st.byCode[k].players, ws)
    ensures Leave(st, ws) == Step(st, [])
  {
    ValidIndexed(st);
    assert forall q :: 0 <= q < |st.order| ==> st.order[q] in st.byCode;
  }

  /** `players.splice(i, 1)` keeps the players before `i` in place and moves
      those after it down by one. */
  lemma SpliceAt(ps: seq<Player>, i: nat)
    requires i < |ps|
    ensures var rest := ps[..i] + ps[i + 1..];
            && |rest| == |ps| - 1
            && (forall j :: 0 <= j < i ==> rest[j] == ps[j])
            && (forall j :: i <= j < |rest| ==> rest[j] == ps[j + 1])
  {
  }

  /** `leaveRoom` on the seat `(k, i)` removes exactly the player at index
      `i`, the others keeping their relative order; a room left empty is
      deleted, with nothing sent; otherwise the room stays in its place and
      its remaining players get the new state; no other room is touched. */
  lemma VacateRemovesSeat(st: Rooms, k: string, i: nat)
    requires k in st.byCode && st.byCode[k].code == k && i < |st.byCode[k].players|
    ensures var rest := st.byCode[k].players[..i] + st.byCode[k].players[i + 1..];
            var s := Vacate(st, Seat(k, i)).rooms;
            && (|rest| == 0 <==> k !in s.byCode)
            && s.byCode.Keys == st.byCode.Keys - (if |rest| == 0 then {k} else {})
            && (forall k' :: k' in st.byCode && k' != k ==> s.byCode[k'] == st.byCode[k'])
    ensures var rest := st.byCode[k].players[..i] + st.byCode[k].players[i + 1..];
            var s := Vacate(st, Seat(k, i));
            |rest| == 0 ==> s.rooms.order == RemoveKey(st.order, k) && s.out == []
    ensures var rest := st.byCode[k].players[..i] + st.byCode[k].players[i + 1..];
            var s := Vacate(st, Seat(k, i));
            |rest| > 0 ==>
              && s.rooms.order == st.order
              && s.rooms.byCode[k].players == rest
              && s.rooms.byCode[k].code == k
              && s.rooms.byCode[k].status == st.byCode[k].status
              && s.out == Broadcast(rest, RoomStateChanged(MakeRoomState(s.rooms.byCode[k])))
  {
  }

  /** Host hand-over: when the host leaves and players remain, the first
      remaining player becomes host; when anyone else leaves, the host stays. */
  lemma VacateHandsOverHost(st: Rooms, k: string, i: nat)
    requires Valid(st)
    requires k in st.byCode && i < |st.byCode[k].players|
    requires k in Vacate(st, Seat(k, i)).rooms.byCode
    ensures var before := st.byCode[k];
            var after := Vacate(st, Seat(k, i)).rooms.byCode[k];
            && (before.hostId == before.players[i].id ==> after.hostId == after.players[0].id)
            && (before.hostId != before.players[i].id ==> after.hostId == before.hostId)
  {
    assert st.byCode[k].code == k;
  }

  /** Removing any seat keeps the invariant: above all, the host of every
      remaining room is still one of its players, and no empty room stays
      registered. */
  lemma VacatePreservesValid(st: Rooms, k: string, i: nat)
    requires Valid(st)
    requires k in st.byCode && i < |st.byCode[k].players|
    ensures Valid(Vacate(st, Seat(k, i)).rooms)
  {
    var before := st.byCode[k];
    var rest := before.players[..i] + before.players[i + 1..];
    var s := Vacate(st, Seat(k, i)).rooms;
    VacateRemovesSeat(st, k, i);
    SpliceAt(before.players, i);
    if |rest| == 0 {
      forall x ensures x in s.byCode <==> x in s.order {
        assert x in s.order <==> x in st.order && x != k;
      }
      assert Distinct(s.order);
      forall x | x in s.byCode ensures s.byCode[x].code == x && RoomOk(s.byCode[x]) {
        assert s.byCode[x] == st.byCode[x];
      }
    } else {
      var after := s.byCode[k];
      VacateHandsOverHost(st, k, i);
      if before.hostId == before.players[i].id {
        assert after.players[0].id == after.hostId;
      } else {
        var h :| 0 <= h < |before.players| && before.players[h].id == before.hostId;
        assert h != i;
        if h < i {
          assert after.players[h] == before.players[h];
        } else {
          assert after.players[h - 1] == before.players[h];
        }
      }
      assert RoomOk(after);
      forall x | x in s.byCode ensures s.byCode[x].code == x && RoomOk(s.byCode[x]) {
        if x != k { assert s.byCode[x] == st.byCode[x]; }
      }
    }
  }

  /** `leaveRoom` keeps the invariant. */
  lemma LeavePreservesValid(st: Rooms, ws: Conn)
    requires Valid(st)
    ensures Valid(Leave(st, ws).rooms)
  {
    ValidIndexed(st);
    match Find(st, ws)
    case None =>
    case Some(seat) =>
      VacatePreservesValid(st, seat.code, seat.idx);
  }

  /** A player on another connection keeps their seat through `leaveRoom`. */
  lemma LeaveKeepsOthers(st: Rooms, ws: Conn, k: string, p: Player)
    requires Valid(st)
    requires k in st.byCode && p in st.byCode[k].players && p.ws != ws
    ensures var s := Leave(st, ws).rooms;
            k in s.byCode && p in s.byCode[k].players
  {
    ValidIndexed(st);
    match Find(st, ws)
    case None =>
    case Some(seat) =>
      VacateRemovesSeat(st, seat.code, seat.idx);
      if seat.code == k {
        var before := st.byCode[k].players;
        SpliceAt(before, seat.idx);
        var j :| 0 <= j < |before| && before[j] == p;
        var rest := before[..seat.idx] + before[seat.idx + 1..];
        assert j != seat.idx;
        if j < seat.idx {
          assert rest[j] == p;
        } else {
          assert rest[j - 1] == p;
        }
      }
  }

  // ------------------------------------------------------ status and reach

  /** Nothing in the registry sets a status other than `lobby`: not
      `createRoom`, ... */
  lemma CreateKeepsLobby(st: Rooms, name: Option<string>, ws: Conn, rawCode: string, playerId: string)
    requires AllLobby(st)
    ensures AllLobby(Create(st, name, ws, rawCode, playerId).rooms)
  {
  }

  /** ... not `joinRoom`, ... */
  lemma EnterKeepsLobby(st: Rooms, code: string, name: string, ws: Conn, playerId: string)
    requires AllLobby(st)
    ensures AllLobby(Enter(st, code, name, ws, playerId).rooms)
  {
    if JoinAccepted(st, code) {
      EnterAppends(st, code, name, ws, playerId);
    }
  }

  /** ... and not `leaveRoom`. */
  lemma LeaveKeepsLobby(st: Rooms, ws: Conn)
    requires Valid(st) && AllLobby(st)
    ensures AllLobby(Leave(st, ws).rooms)
  {
    ValidIndexed(st);
    match Find(st, ws)
    case None =>
    case Some(seat) =>
      VacateRemovesSeat(st, seat.code, seat.idx);
  }

  /** Hence, as long as every room is in the lobby, "Game already started"
      is never the answer to a join. */
  lemma JoinNeverAlreadyStarted(st: Rooms, code: string, name: string, ws: Conn, playerId: string)
    requires AllLobby(st)
    ensures Enter(st, code, name, ws, playerId).out != [Outbound(ws, Error(GameAlreadyStarted))]
  {
    if code in st.byCode && |st.byCode[code].players| >= MaxPlayers {
      assert Error(RoomIsFull) != Error(GameAlreadyStarted);
    }
  }

  // ------------------------------------------------------------ room codes

  /** Normalising an already normalised code changes nothing. */
  lemma NormalizeIdempotent(roomCode: Option<string>)
    ensures NormalizeCode(Some(NormalizeCode(roomCode))) == NormalizeCode(roomCode)
  {
    var n := NormalizeCode(roomCode);
    ToUpperOfFixed(n);
    TrimFixed(n);
  }

  /** The normalised code is what is left of the upper-cased supplied code
      once only the whitespace at its ends is cut off. */
  lemma NormalizeCodeTrims(raw: string)
    ensures TrimmedFrom(NormalizeCode(Some(raw)), ToUpper(raw))
  {
    assert NormalizeCode(Some(raw)) == Trim(ToUpper(raw));
  }

  /** A code made by upper-casing `nanoid` output is its own normal form,
      and so is its lower-case original: both name the room in `join_room`. */
  lemma GeneratedCodeNormal(rawCode: string)
    requires forall c :: c in rawCode ==> NanoidChar(c)
    ensures NormalizeCode(Some(ToUpper(rawCode))) == ToUpper(rawCode)
    ensures NormalizeCode(Some(rawCode)) == ToUpper(rawCode)
  {
    var u := ToUpper(rawCode);
    if rawCode != [] {
      assert rawCode[0] in rawCode && rawCode[|rawCode| - 1] in rawCode;
      NanoidNotSpace(rawCode[0]);
      NanoidNotSpace(rawCode[|rawCode| - 1]);
    }
    ToUpperFixes(rawCode);
    ToUpperOfFixed(u);
    TrimFixed(u);
  }

  /** A generated code typed back with whitespace around it, in either
      case, still names the room: the padding is trimmed away. */
  lemma PaddedCodeNormal(pre: string, raw: string, post: string)
    requires forall i :: 0 <= i < |pre| ==> IsSpace(pre[i])
    requires forall i :: 0 <= i < |post| ==> IsSpace(post[i])
    requires forall c :: c in raw ==> NanoidChar(c)
    ensures NormalizeCode(Some(pre + raw + post)) == ToUpper(raw)
  {
    var p, u, q := ToUpper(pre), ToUpper(raw), ToUpper(post);
    ToUpperAppend(pre + raw, post);
    ToUpperAppend(pre, raw);
    assert ToUpper(pre + raw + post) == p + u + q;
    assert u == [] || (!IsSpace(u[0]) && !IsSpace(u[|u| - 1])) by {
      if raw != [] {
        assert raw[0] in raw && raw[|raw| - 1] in raw;
        NanoidNotSpace(raw[0]);
        NanoidNotSpace(raw[|raw| - 1]);
      }
    }
    ToUpperKeepsSpaces(pre);
    ToUpperKeepsSpaces(post);
    TrimPadded(p, u, q);
    assert NormalizeCode(Some(pre + raw + post)) == Trim(p + u + q);
  }

  /** The code a creator is given admits a second player: joining with it
      right after `createRoom` succeeds and seats the joiner second, with
      the creator still host. */
  lemma JoinAfterCreate(st: Rooms, creator: Option<string>, host: Conn, rawCode: string, hostId: string,
                        joiner: string, guest: Conn, guestId: string)
    ensures var code := ToUpper(rawCode);
            var s1 := Create(st, creator, host, rawCode, hostId).rooms;
            var s2 := Enter(s1, code, joiner, guest, guestId).rooms;
            && JoinAccepted(s1, code)
            && s2.byCode[code].hostId == hostId
            && s2.byCode[code].players
               == [Player(hostId, PlayerName(creator), host), Player(guestId, joiner, guest)]
  {
    var code := ToUpper(rawCode);
    var s1 := Create(st, creator, host, rawCode, hostId).rooms;
    assert s1.byCode[code] == Room(code, Lobby, hostId, [Player(hostId, PlayerName(creator), host)]);
    EnterAppends(s1, code, joiner, guest, guestId);
  }

  /** After the last player leaves, the code is unknown again: a join with
      it is refused with "Room not found". */
  lemma LastLeaveForgetsCode(st: Rooms, ws: Conn, k: string, name: string, guest: Conn, playerId: string)
    requires Valid(st)
    requires k in st.byCode && st.byCode[k].players == [st.byCode[k].players[0]]
    requires st.byCode[k].players[0].ws == ws
    requires forall k' :: k' in st.byCode && k' != k ==> !Seated(st.byCode[k'].players, ws)
    ensures var s := Leave(st, ws).rooms;
            k !in s.byCode
            && Enter(s, k, name, guest, playerId).out == [Outbound(guest, Error(RoomNotFound))]
  {
    ValidIndexed(st);
    assert Seated(st.byCode[k].players, ws);
    var seat := Find(st, ws).value;
    assert seat.code == k by {
      if seat.code != k {
        assert Seated(st.byCode[seat.code].players, ws);
      }
    }
    VacateRemovesSeat(st, k, seat.idx);
  }

  // -------------------------------------------- closing a connection seated twice

  /** A connection seated in two rooms is still seated in one of them after
      a single `leaveRoom`: the close handler calls it once. */
  lemma OneLeaveKeepsSecondSeat(st: Rooms, ws: Conn, k1: string, k2: string)
    requires Valid(st)
    requires k1 in st.byCode && k2 in st.byCode && k1 != k2
    requires Seated(st.byCode[k1].players, ws) && Seated(st.byCode[k2].players, ws)
    ensures var s := Leave(st, ws).rooms;
            (k1 in s.byCode && Seated(s.byCode[k1].players, ws))
            || (k2 in s.byCode && Seated(s.byCode[k2].players, ws))
  {
    ValidIndexed(st);
    var seat := Find(st, ws).value;
    VacateRemovesSeat(st, seat.code, seat.idx);
  }

  /** Such a connection is reachable: one connection sending `create_room`
      twice from a fresh server is host of two rooms, and after its close the
      second room is still registered with the closed connection as its only
      player. */
  lemma TwoCreatesThenClose(ws: Conn, name: Option<string>, raw1: string, id1: string, raw2: string, id2: string)
    requires ToUpper(raw1) != ToUpper(raw2)
    ensures var s2 := Create(Create(Empty, name, ws, raw1, id1).rooms, name, ws, raw2, id2).rooms;
            && Valid(s2)
            && var s3 := Leave(s2, ws).rooms;
            && ToUpper(raw1) !in s3.byCode
            && ToUpper(raw2) in s3.byCode
            && s3.byCode[ToUpper(raw2)].players == [Player(id2, PlayerName(name), ws)]
  {
    var c1, c2 := ToUpper(raw1), ToUpper(raw2);
    var r1 := Room(c1, Lobby, id1, [Player(id1, PlayerName(name), ws)]);
    var r2 := Room(c2, Lobby, id2, [Player(id2, PlayerName(name), ws)]);
    TwoCreates(ws, name, raw1, id1, raw2, id2);
    TwoRoomsLeaveFirst(ws, c1, c2, r1, r2);
  }

  /** The registry after two `create_room` from one connection on a fresh
      server with different codes. */
  lemma TwoCreates(ws: Conn, name: Option<string>, raw1: string, id1: string, raw2: string, id2: string)
    requires ToUpper(raw1) != ToUpper(raw2)
    ensures var c1, c2 := ToUpper(raw1), ToUpper(raw2);
            Create(Create(Empty, name, ws, raw1, id1).rooms, name, ws, raw2, id2).rooms
            == Rooms(map[c1 := Room(c1, Lobby, id1, [Player(id1, PlayerName(name), ws)]),
                         c2 := Room(c2, Lobby, id2, [Player(id2, PlayerName(name), ws)])],
                     [c1, c2])
  {
    var c1, c2 := ToUpper(raw1), ToUpper(raw2);
    var r1 := Room(c1, Lobby, id1, [Player(id1, PlayerName(name), ws)]);
    var r2 := Room(c2, Lobby, id2, [Player(id2, PlayerName(name), ws)]);
    var s1 := Rooms(map[c1 := r1], [c1]);
    assert Create(Empty, name, ws, raw1, id1).rooms == s1 by {
      assert [] + [c1] == [c1];
    }
    assert Create(s1, name, ws, raw2, id2).rooms == Rooms(s1.byCode[c2 := r2], [c1] + [c2]);
    assert [c1] + [c2] == [c1, c2];
  }

  /** Two one-player rooms hosted by the same connection: the invariant
      holds, and `leaveRoom` deletes the first room and keeps the second. */
  lemma TwoRoomsLeaveFirst(ws: Conn, c1: string, c2: string, r1: Room, r2: Room)
    requires c1 != c2
    requires r1.code == c1 && |r1.players| == 1 && r1.players[0].id == r1.hostId && r1.players[0].ws == ws
    requires r2.code == c2 && |r2.players| == 1 && r2.players[0].id == r2.hostId
    ensures var st := Rooms(map[c1 := r1, c2 := r2], [c1, c2]);
            && Valid(st)
            && var s := Leave(st, ws).rooms;
            && c1 !in s.byCode && c2 in s.byCode && s.byCode[c2] == r2
  {
    var st := Rooms(map[c1 := r1, c2 := r2], [c1, c2]);
    assert HostSeated(r1) && HostSeated(r2);
    assert FirstIndex(r1.players, ws) == Some(0);
    assert Find(st, ws) == Some(Seat(c1, 0));
  }
}
