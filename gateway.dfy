/** The `message` handler's choice of operation once the raw text has been
    decoded: a pure mapping from the message's `type` to an operation or to
    the error text sent back to the sender. */
module Gateway {
  import opened JsText

  /** The decoded `data` object; a missing object reads as both fields absent. */
  datatype Payload = Payload(name: Option<string>, roomCode: Option<string>)

  /** A decoded message with its `type` and `data` fields; a decoded `null`
      behaves as an empty object, i.e. as a message whose `type` is absent. */
  datatype Message = Message(kind: Option<string>, data: Payload)

  /** Where the handler sends a message. */
  datatype Route = ToCreateRoom | ToJoinRoom | Refuse(message: string)

  const MissingType: string := "Missing type"
  const UnknownEvent: string := "Unknown event: "

  /** The handler's choice on `type`: an absent or empty `type` is "Missing
      type"; `create_room` and `join_room` go to their operations; any other
      type is "Unknown event: " followed by the type. */
  function Dispatch(kind: Option<string>): (r: Route)
    ensures r == ToCreateRoom <==> kind == Some("create_room")
    ensures r == ToJoinRoom <==> kind == Some("join_room")
    ensures r == Refuse(MissingType) <==> kind.None? || kind.value == []
    ensures r.Refuse? && r != Refuse(MissingType) ==>
              kind.Some? && r.message == UnknownEvent + kind.value
              && kind.value != "create_room" && kind.value != "join_room"
  {
    match kind
    case None => Refuse(MissingType)
    case Some(t) =>
      if t == [] then Refuse(MissingType)
      else if t == "create_room" then ToCreateRoom
      else if t == "join_room" then ToJoinRoom
      else
        assert (UnknownEvent + t)[0] != MissingType[0];
        Refuse(UnknownEvent + t)
  }

  /** There is no `start_game` operation: it is refused as an unknown event. */
  lemma StartGameIsUnknown()
    ensures Dispatch(Some("start_game")) == Refuse("Unknown event: start_game")
  {
  }
}
