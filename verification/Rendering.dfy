/** The six notifications a chat server sends to a client, and their detour through Redis: a server that
    holds the addressee's session renders the notification at once, one that does not publishes a record
    from which another server's subscriber callback renders it.  */
module Rendering {
  import opened Wrappers

  /** The values of the `type` key. */
  datatype RecordType = ChatMsg | GroupMsg | ImageMsg | GroupImageMsg | FriendRequestMsg | AuthFriendRsp

  /** Null stands for a key that is not there. */
  datatype Value = Null | Num(n: int) | Text(s: string) | Flag(b: bool) | Tag(t: RecordType)

  /** A JSON object over the keys these messages use. */
  datatype Record = Record(
    kind: Value, messageId: Value, fromUid: Value, fromName: Value, fromAvatar: Value, toUid: Value, toName: Value,
    groupId: Value, groupName: Value, content: Value, time: Value, imageType: Value, width: Value, height: Value,
    fileSize: Value, message: Value, requestTime: Value, requestId: Value, accepted: Value)

  const EMPTY := Record(
    Null, Null, Null, Null, Null, Null, Null, Null, Null, Null, Null, Null, Null, Null, Null, Null, Null, Null, Null)

  datatype Image = Image(imageType: string, width: int, height: int, fileSize: int)

  datatype Sender = Sender(uid: int, name: string, avatar: string)

  /** Everything a handler knows when it is about to notify.  In FriendAuth `fromUid` asked for the
      friendship and `toUid`, whose name is `toName`, has answered; the notification goes to `fromUid`. */
  datatype Notice =
    | Chat(messageId: int, sender: Sender, toUid: int, content: string, time: string)
    | ImageChat(messageId: int, sender: Sender, toUid: int, content: string, time: string, image: Image)
    | GroupChat(messageId: int, sender: Sender, groupId: int, groupName: string, content: string, time: string)
    | GroupImage(messageId: int, sender: Sender, groupId: int, groupName: string, content: string, time: string,
                 image: Image)
    | FriendRequest(sender: Sender, toUid: int, message: string, time: string)
    | FriendAuth(requestId: int, fromUid: int, toUid: int, toName: string, accepted: bool, message: string)

  datatype Notification = Notification(id: int, fields: Record)

  const ID_NOTIFY_ADD_FRIEND_REQ := 1011
  const ID_NOTIFY_AUTH_FRIEND_RSP := 1015
  const ID_NOTIFY_TEXT_CHAT_MSG_REQ := 1019
  const ID_NOTIFY_IMAGE_CHAT_MSG_REQ := 1030
  const ID_NOTIFY_GROUP_CHAT_MSG_REQ := 2009
  const ID_NOTIFY_GROUP_IMAGE_CHAT_MSG_REQ := 2018

  function FromSender(r: Record, s: Sender): Record {
    r.(fromUid := Num(s.uid), fromName := Text(s.name), fromAvatar := Text(s.avatar))
  }

  function WithImage(r: Record, i: Image): Record {
    r.(imageType := Text(i.imageType), width := Num(i.width), height := Num(i.height), fileSize := Num(i.fileSize))
  }

  /** The local branch of each handler. */
  function Local(n: Notice): Notification {
    match n
    case Chat(id, s, _, content, time) =>
      Notification(ID_NOTIFY_TEXT_CHAT_MSG_REQ,
        FromSender(EMPTY, s).(messageId := Num(id), content := Text(content), time := Text(time)))
    case ImageChat(id, s, _, content, time, image) =>
      Notification(ID_NOTIFY_IMAGE_CHAT_MSG_REQ,
        WithImage(FromSender(EMPTY, s), image).(messageId := Num(id), content := Text(content), time := Text(time)))
    case GroupChat(id, s, g, name, content, time) =>
      Notification(ID_NOTIFY_GROUP_CHAT_MSG_REQ,
        FromSender(EMPTY, s).(messageId := Num(id), groupId := Num(g), groupName := Text(name),
                              content := Text(content), time := Text(time)))
    case GroupImage(id, s, g, name, content, time, image) =>
      Notification(ID_NOTIFY_GROUP_IMAGE_CHAT_MSG_REQ,
        WithImage(FromSender(EMPTY, s), image).(messageId := Num(id), groupId := Num(g), groupName := Text(name),
                                                content := Text(content), time := Text(time)))
    case FriendRequest(s, _, message, time) =>
      Notification(ID_NOTIFY_ADD_FRIEND_REQ,
        FromSender(EMPTY, s).(message := Text(message), requestTime := Text(time)))
    case FriendAuth(id, fromUid, toUid, toName, accepted, message) =>
      Notification(ID_NOTIFY_AUTH_FRIEND_RSP,
        EMPTY.(requestId := Num(id), fromUid := Num(toUid), fromName := Text(toName), toUid := Num(fromUid),
               accepted := Flag(accepted), message := Text(message)))
  }

  /** The record the other branch publishes. */
  function Published(n: Notice): Record {
    match n
    case Chat(id, s, toUid, content, time) =>
      FromSender(EMPTY, s).(kind := Tag(ChatMsg), messageId := Num(id), toUid := Num(toUid),
                            content := Text(content), time := Text(time))
    case ImageChat(id, s, toUid, content, time, image) =>
      WithImage(FromSender(EMPTY, s), image).(kind := Tag(ImageMsg), messageId := Num(id), toUid := Num(toUid),
                                              content := Text(content), time := Text(time))
    case GroupChat(id, s, g, name, content, time) =>
      FromSender(EMPTY, s).(kind := Tag(GroupMsg), messageId := Num(id), groupId := Num(g),
                            groupName := Text(name), content := Text(content), time := Text(time))
    case GroupImage(id, s, g, name, content, time, image) =>
      WithImage(FromSender(EMPTY, s), image).(kind := Tag(GroupImageMsg), messageId := Num(id), groupId := Num(g),
                                              groupName := Text(name), content := Text(content), time := Text(time))
    case FriendRequest(s, toUid, message, time) =>
      FromSender(EMPTY, s).(kind := Tag(FriendRequestMsg), toUid := Num(toUid), message := Text(message),
                            requestTime := Text(time))
    case FriendAuth(id, fromUid, toUid, toName, accepted, message) =>
      EMPTY.(kind := Tag(AuthFriendRsp), requestId := Num(id), fromUid := Num(fromUid), toUid := Num(toUid),
             toName := Text(toName), accepted := Flag(accepted), message := Text(message))
  }

  /** The fields the callback copies for every chat message, group chat message and image. */
  function CopyChat(m: Record): Record {
    EMPTY.(messageId := m.messageId, fromUid := m.fromUid, fromName := m.fromName, fromAvatar := m.fromAvatar,
           content := m.content, time := m.time)
  }

  function CopyGroup(r: Record, m: Record): Record {
    r.(groupId := m.groupId, groupName := m.groupName)
  }

  function CopyImage(r: Record, m: Record): Record {
    r.(imageType := m.imageType, width := m.width, height := m.height, fileSize := m.fileSize)
  }

  /** The subscriber callback's rendering of a record. */
  function Rendered(m: Record): Option<Notification> {
    match m.kind
    case Tag(ChatMsg) => Some(Notification(ID_NOTIFY_TEXT_CHAT_MSG_REQ, CopyChat(m)))
    case Tag(GroupMsg) => Some(Notification(ID_NOTIFY_GROUP_CHAT_MSG_REQ, CopyGroup(CopyChat(m), m)))
    case Tag(ImageMsg) => Some(Notification(ID_NOTIFY_IMAGE_CHAT_MSG_REQ, CopyImage(CopyChat(m), m)))
    case Tag(GroupImageMsg) =>
      Some(Notification(ID_NOTIFY_GROUP_IMAGE_CHAT_MSG_REQ, CopyImage(CopyGroup(CopyChat(m), m), m)))
    case Tag(FriendRequestMsg) =>
      Some(Notification(ID_NOTIFY_ADD_FRIEND_REQ,
        EMPTY.(fromUid := m.fromUid, fromName := m.fromName, fromAvatar := m.fromAvatar, message := m.message,
               requestTime := m.requestTime)))
    case Tag(AuthFriendRsp) =>
      Some(Notification(ID_NOTIFY_AUTH_FRIEND_RSP,
        EMPTY.(requestId := m.requestId, fromUid := m.toUid, fromName := m.toName, toUid := m.fromUid,
               accepted := m.accepted, message := m.message)))
    case _ => None
  }

  /** Whom the callback looks for: one user, or the members of a group other than the sender. */
  datatype Target = User(uid: int) | Members(groupId: int, except: int) | Nobody

  function TargetOf(m: Record): Target {
    match (m.kind, m.toUid, m.fromUid, m.groupId)
    case (Tag(ChatMsg), Num(u), _, _) => User(u)
    case (Tag(ImageMsg), Num(u), _, _) => User(u)
    case (Tag(FriendRequestMsg), Num(u), _, _) => User(u)
    case (Tag(AuthFriendRsp), _, Num(u), _) => User(u)
    case (Tag(GroupMsg), _, Num(u), Num(g)) => Members(g, u)
    case (Tag(GroupImageMsg), _, Num(u), Num(g)) => Members(g, u)
    case _ => Nobody
  }

  /** Whom the handler itself looks for. */
  function Addressee(n: Notice): Target {
    match n
    case Chat(_, _, toUid, _, _) => User(toUid)
    case ImageChat(_, _, toUid, _, _, _) => User(toUid)
    case GroupChat(_, s, g, _, _, _) => Members(g, s.uid)
    case GroupImage(_, s, g, _, _, _, _) => Members(g, s.uid)
    case FriendRequest(_, toUid, _, _) => User(toUid)
    case FriendAuth(_, fromUid, _, _, _, _) => User(fromUid)
  }

  /** A client cannot tell which way its notification came: rendering the published record gives the same
      id and fields as the local branch, for the same addressee. */
  lemma DetourIsInvisible(n: Notice)
    ensures Rendered(Published(n)) == Some(Local(n))
    ensures TargetOf(Published(n)) == Addressee(n)
  {
  }
}
