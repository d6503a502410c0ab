/** The records the chat transport exchanges with the backend (the
    `ChatRoom` and `ChatMessage` interfaces of services/chatApi.ts) and the
    signed-in user record the chat store reads its identity from.

    Timestamps travel as ISO strings and are compared through
    `new Date(..).getTime()`; they are modelled by that millisecond value. */
module ChatApi {
  import opened Transport

  /** A one-to-one conversation as the backend lists it. */
  datatype Room = Room(
    id: string,
    user1Id: int,
    user2Id: int,
    createdAt: int,
    updatedAt: int,
    otherUserName: string,
    otherUserId: int,
    otherUserImage: Option<string>,
    lastMessage: Option<string>,
    lastMessageTime: Option<int>,
    unreadCount: int)

  /** One chat message. `isOwn` is absent in what the backend sends and is
      added on the client. */
  datatype Message = Message(
    id: string,
    roomId: string,
    senderId: int,
    content: string,
    messageType: string,
    createdAt: int,
    isRead: bool,
    senderName: string,
    senderImage: Option<string>,
    isOwn: Option<bool>)

  /** The stored profile of the signed-in user (`UserData`). */
  datatype User = User(
    id: int,
    firstName: string,
    lastName: string,
    email: string,
    phone: Option<string>,
    profileImage: Option<string>)

  /** The key rooms are identified by. */
  function RoomId(r: Room): string
  {
    r.id
  }

  /** A room's contribution to the unread total. */
  function UnreadOf(r: Room): int
  {
    r.unreadCount
  }
}
