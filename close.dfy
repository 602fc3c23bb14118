/** Corrected close handling. The server's close handler calls `leaveRoom`
    once, which frees only the first seat bound to the connection; here
    `LeaveAll` repeats `leaveRoom` until the connection holds no seat, with
    the registry's seat count as the termination measure. */
module CorrectedClose {
  import opened JsText
  import opened RegistrySpec
  import opened RegistryProps

  /** The number of seats over the rooms listed in `order`. */
  function SeatCount(byCode: map<string, Room>, order: seq<string>): nat {
    if order == [] then 0
    else (if order[0] in byCode then |byCode[order[0]].players| else 0) + SeatCount(byCode, order[1..])
  }

  lemma {:induction false} SeatCountOther(byCode: map<string, Room>, order: seq<string>, k: string, room: Room)
    requires k !in order
    ensures SeatCount(byCode[k := room], order) == SeatCount(byCode, order)
  {
    if order != [] {
      assert order[0] != k;
      SeatCountOther(byCode, order[1..], k, room);
    }
  }

  lemma {:induction false} SeatCountUpdate(byCode: map<string, Room>, order: seq<string>, k: string, room: Room)
    requires k in byCode && k in order && Distinct(order)
    ensures SeatCount(byCode[k := room], order) + |byCode[k].players|
            == SeatCount(byCode, order) + |room.players|
  {
    if order[0] == k {
      assert k !in order[1..];
      SeatCountOther(byCode, order[1..], k, room);
    } else {
      SeatCountUpdate(byCode, order[1..], k, room);
    }
  }

  lemma {:induction false} SeatCountRemove(byCode: map<string, Room>, order: seq<string>, k: string)
    requires k in byCode ==> byCode[k].players == []
    ensures SeatCount(byCode - {k}, RemoveKey(order, k)) == SeatCount(byCode, order)
  {
    if order != [] {
      SeatCountRemove(byCode, order[1..], k);
      if order[0] != k {
        assert RemoveKey(order, k) == [order[0]] + RemoveKey(order[1..], k);
        assert ([order[0]] + RemoveKey(order[1..], k))[1..] == RemoveKey(order[1..], k);
      }
    }
  }

  /** Removing a seat frees exactly one seat of the registry. */
  lemma VacateFreesOneSeat(st: Rooms, k: string, i: nat)
    requires Valid(st)
    requires k in st.byCode && i < |st.byCode[k].players|
    ensures var s := Vacate(st, Seat(k, i)).rooms;
            SeatCount(s.byCode, s.order) + 1 == SeatCount(st.byCode, st.order)
  {
    var before := st.byCode[k];
    assert before.code == k;
    var rest := before.players[..i] + before.players[i + 1..];
    var hostId := if before.hostId == before.players[i].id && |rest| > 0 then rest[0].id else before.hostId;
    var room' := before.(players := rest, hostId := hostId);
    SeatCountUpdate(st.byCode, st.order, k, room');
    if |rest| == 0 {
      SeatCountRemove(st.byCode[k := room'], st.order, k);
    }
  }

  /** `leaveRoom` on a seated connection frees exactly one seat. */
  lemma LeaveFreesOneSeat(st: Rooms, ws: Conn)
    requires Valid(st)
    requires Indexed(st) && Find(st, ws).Some?
    ensures SeatCount(Leave(st, ws).rooms.byCode, Leave(st, ws).rooms.order) + 1
            == SeatCount(st.byCode, st.order)
  {
    var seat := Find(st, ws).value;
    VacateFreesOneSeat(st, seat.code, seat.idx);
  }

  /** Every registered room is listed in the order, so a scan that finds
      nothing means the connection is seated nowhere. */
  lemma FindNoneUnseated(st: Rooms, ws: Conn)
    requires Valid(st)
    requires Indexed(st) && Find(st, ws).None?
    ensures forall k :: k in st.byCode ==> !Seated(st.byCode[k].players, ws)
  {
    forall k | k in st.byCode ensures !Seated(st.byCode[k].players, ws) {
      var q :| 0 <= q < |st.order| && st.order[q] == k;
    }
  }

  /** Corrected close handling: `leaveRoom` repeated until the connection
      is seated nowhere. It keeps the invariant and leaves no seat bound to
      the connection. */
  function LeaveAll(st: Rooms, ws: Conn): (s: Step)
    requires Valid(st)
    ensures Valid(s.rooms)
    ensures forall k :: k in s.rooms.byCode ==> !Seated(s.rooms.byCode[k].players, ws)
    decreases SeatCount(st.byCode, st.order)
  {
    ValidIndexed(st);
    if Find(st, ws).None? then
      FindNoneUnseated(st, ws);
      Step(st, [])
    else
      LeavePreservesValid(st, ws);
      LeaveFreesOneSeat(st, ws);
      var s := Leave(st, ws);
      var t := LeaveAll(s.rooms, ws);
      Step(t.rooms, s.out + t.out)
  }

  /** One round of `LeaveAll`: nothing to do once the connection is seated
      nowhere, otherwise one `leaveRoom` and then the rest. */
  lemma LeaveAllUnfold(st: Rooms, ws: Conn)
    requires Valid(st)
    ensures Indexed(st)
    ensures Find(st, ws).None? ==> LeaveAll(st, ws) == Step(st, [])
    ensures Find(st, ws).Some? ==>
              Valid(Leave(st, ws).rooms)
              && LeaveAll(st, ws)
                 == Step(LeaveAll(Leave(st, ws).rooms, ws).rooms,
                         Leave(st, ws).out + LeaveAll(Leave(st, ws).rooms, ws).out)
  {
    LeavePreservesValid(st, ws);
  }

  /** The corrected close frees no seat of any other connection. */
  lemma {:induction false} LeaveAllKeepsOthers(st: Rooms, ws: Conn, k: string, p: Player)
    requires Valid(st)
    requires k in st.byCode && p in st.byCode[k].players && p.ws != ws
    ensures var s := LeaveAll(st, ws).rooms;
            k in s.byCode && p in s.byCode[k].players
    decreases SeatCount(st.byCode, st.order)
  {
    ValidIndexed(st);
    if Find(st, ws).Some? {
      LeavePreservesValid(st, ws);
      LeaveFreesOneSeat(st, ws);
      LeaveKeepsOthers(st, ws, k, p);
      LeaveAllKeepsOthers(Leave(st, ws).rooms, ws, k, p);
    }
  }
}
