/**
 * The socket protocol: the loosely typed request fields, the outgoing
 * messages with their addressing, and the error replies.
 */
module Protocol {
  import opened Wrappers
  import opened Rooms

  /**
   * A request field that may be absent; JavaScript's `!field` holds of an
   * absent field and of the empty string.
   */
  predicate Falsy(field: Option<string>) {
    field.None? || field.value == ""
  }

  /**
   * Who receives an emitted message: the requesting connection
   * (`socket.emit`), every connection subscribed to a room
   * (`io.to(roomId).emit`), or every connection (`io.emit`).
   */
  datatype Address = ToSender | ToRoom(roomId: RoomId) | ToEveryone

  /** The public fields of a room, as `roomJoined` sends them. */
  datatype RoomInfo = RoomInfo(id: RoomId, name: string, description: string, createdAt: string)

  function Info(r: Room): (i: RoomInfo)
    ensures i.id == r.id && i.name == r.name && i.description == r.description && i.createdAt == r.createdAt
  {
    RoomInfo(r.id, r.name, r.description, r.createdAt)
  }

  /** The messages the server emits, one constructor per event name. */
  datatype Message =
    | RoomsList(summaries: seq<RoomSummary>)
    | CreateRoomError(text: string)
    | RoomCreated(room: Room)
    | JoinRoomError(text: string)
    | RoomJoined(info: RoomInfo, members: seq<Nickname>)
    | MemberJoined(nickname: Nickname)
    | MembersUpdate(members: seq<Nickname>)
    | MemberLeft(nickname: Nickname)

  datatype Event = Emit(to: Address, message: Message)

  datatype CreateError = EmptyName

  /** The three ways a join fails, in the order they are checked. */
  datatype JoinError = MissingFields | RoomNotFound | NicknameTaken

  const EmptyNameText: string := "ルーム名を入力してください"

  /** The text each join error is reported with; none is empty or the create error's text. */
  function JoinErrorText(e: JoinError): (text: string)
    ensures text != "" && text != EmptyNameText
  {
    match e
    case MissingFields => "ルームIDとニックネームが必要です"
    case RoomNotFound => "ルームが見つかりません"
    case NicknameTaken => "このニックネームは既に使用されています"
  }

  /** The three join errors are reported with three different texts. */
  lemma JoinErrorTextsDistinct(e: JoinError, f: JoinError)
    ensures JoinErrorText(e) == JoinErrorText(f) ==> e == f
  {
    if e != f {
      match e
      case MissingFields => assert JoinErrorText(e)[0] != JoinErrorText(f)[0] || |JoinErrorText(e)| != |JoinErrorText(f)|;
      case RoomNotFound => assert JoinErrorText(e)[1] != JoinErrorText(f)[1] || |JoinErrorText(e)| != |JoinErrorText(f)|;
      case NicknameTaken => assert JoinErrorText(e)[0] != JoinErrorText(f)[0];
    }
  }
}
