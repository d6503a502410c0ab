/** The chat store behind the messaging screens (context/chatcontext/
    ChatProvider.tsx): the room list, the open room's messages, a loading
    flag and the total unread count, together with the five operations that
    update them once a transport call settles.

    Each operation is a pure function of the state before the call and the
    outcome of the awaited transport call(s). The signed-in user, read once
    from local storage, is a parameter. */
module ChatStore {
  import opened Transport
  import opened Lists
  import opened Keyed
  import opened ChatApi
  import opened RoomOrder

  datatype ChatState = ChatState(
    rooms: seq<Room>,
    selectedRoom: Option<Room>,
    messages: seq<Message>,
    loading: bool,
    unreadCount: int)

  /** The state the provider mounts with. */
  function Initial(): (st: ChatState)
    ensures st.rooms == [] && st.messages == [] && st.selectedRoom == None
    ensures st.unreadCount == 0 && !st.loading
    ensures UnreadAgrees(st)
  {
    ChatState([], None, [], false, 0)
  }

  /** The total unread count equals the sum of the rooms' unread counts. */
  ghost predicate UnreadAgrees(st: ChatState)
  {
    st.unreadCount == Sum(st.rooms, UnreadOf)
  }

  /** The state after `createOrGetRoom`, and the room it resolves to
      (`null` when the transport call failed). */
  datatype Created = Created(state: ChatState, room: Option<Room>)

  /** `createOrGetRoom`: on success the returned room is put at the head of
      the list unless a room with its id is already listed; on failure the
      list is untouched and the call resolves to no room. Either way only the
      room list and the loading flag can change. */
  function CreateOrGetRoom(st: ChatState, reply: Reply<Room>): (r: Created)
    ensures r.state == st.(rooms := r.state.rooms, loading := false)
    ensures reply.Failed? ==> r.room == None && r.state.rooms == st.rooms
    ensures reply.Ok? ==> r.room == Some(reply.value) && Has(r.state.rooms, RoomId, reply.value.id)
    ensures reply.Ok? && Has(st.rooms, RoomId, reply.value.id) ==> r.state.rooms == st.rooms
    ensures reply.Ok? && !Has(st.rooms, RoomId, reply.value.id) ==> r.state.rooms == [reply.value] + st.rooms
  {
    match reply
    case Failed(_) => Created(st.(loading := false), None)
    case Ok(room) =>
      var rooms := if Has(st.rooms, RoomId, room.id) then st.rooms else [room] + st.rooms;
      assert !Has(st.rooms, RoomId, room.id) ==> rooms[0] == room;
      Created(st.(rooms := rooms, loading := false), Some(room))
  }

  /** Receiving the same room twice lists it exactly as receiving it once. */
  lemma CreateOrGetRoomIdempotent(st: ChatState, reply: Reply<Room>)
    ensures CreateOrGetRoom(CreateOrGetRoom(st, reply).state, reply) == CreateOrGetRoom(st, reply)
  {
  }

  /** A room list with unique ids keeps unique ids, so the returned room is
      listed exactly once. */
  lemma CreateOrGetRoomKeepsIdsUnique(st: ChatState, reply: Reply<Room>)
    requires Unique(st.rooms, RoomId)
    ensures Unique(CreateOrGetRoom(st, reply).state.rooms, RoomId)
  {
    if reply.Ok? && !Has(st.rooms, RoomId, reply.value.id) {
      var rooms := [reply.value] + st.rooms;
      forall i, j | 0 <= i < j < |rooms|
        ensures RoomId(rooms[i]) != RoomId(rooms[j])
      {
        if i == 0 {
          assert rooms[j] == st.rooms[j - 1];
        } else {
          assert rooms[i] == st.rooms[i - 1] && rooms[j] == st.rooms[j - 1];
        }
      }
    }
  }

  /** `loadUserRooms`: on success the room list is replaced by the fetched
      list (an empty list when the response body is not an array) and the
      total is recomputed from it; on failure both are reset to empty and
      zero. In every case the total agrees with the listed rooms. */
  function LoadUserRooms(st: ChatState, reply: Reply<Option<seq<Room>>>): (r: ChatState)
    ensures UnreadAgrees(r)
    ensures r.selectedRoom == st.selectedRoom && r.messages == st.messages && !r.loading
    ensures reply.Ok? && reply.value.Some? ==> r.rooms == reply.value.value
    ensures !(reply.Ok? && reply.value.Some?) ==> r.rooms == [] && r.unreadCount == 0
  {
    match reply
    case Failed(_) => st.(rooms := [], unreadCount := 0, loading := false)
    case Ok(body) =>
      var rooms := body.GetOr([]);
      st.(rooms := rooms, unreadCount := Sum(rooms, UnreadOf), loading := false)
  }

  /** With non-negative per-room counts, the total after a load is
      non-negative. */
  lemma LoadUserRoomsTotalNonNegative(st: ChatState, reply: Reply<Option<seq<Room>>>)
    requires reply.Ok? && reply.value.Some?
    requires forall i :: 0 <= i < |reply.value.value| ==> reply.value.value[i].unreadCount >= 0
    ensures LoadUserRooms(st, reply).unreadCount >= 0
  {
    SumNonNegative(reply.value.value, UnreadOf);
  }

  /** Whether `m` was sent by the signed-in user. */
  predicate SentBy(m: Message, user: Option<User>)
  {
    user.Some? && m.senderId == user.value.id
  }

  /** Marks each message with `isOwn`; nothing else about it changes. */
  function Annotate(ms: seq<Message>, user: Option<User>): (r: seq<Message>)
    ensures |r| == |ms|
    ensures forall i :: 0 <= i < |ms| ==> r[i].(isOwn := ms[i].isOwn) == ms[i]
    ensures forall i :: 0 <= i < |ms| ==> r[i].isOwn.Some?
    ensures forall i :: 0 <= i < |ms| ==> (r[i].isOwn == Some(true) <==> SentBy(ms[i], user))
  {
    seq(|ms|, i requires 0 <= i < |ms| => ms[i].(isOwn := Some(SentBy(ms[i], user))))
  }

  /** Annotating twice is annotating once, and annotation keeps every field
      the backend sent. */
  lemma AnnotateIdempotent(ms: seq<Message>, user: Option<User>)
    ensures Annotate(Annotate(ms, user), user) == Annotate(ms, user)
  {
  }

  /** `loadRoomMessages`: on success the messages are the fetched list, in
      the same order, each annotated with `isOwn`; on failure the messages
      are kept. Rooms, selection and the total are untouched. */
  function LoadRoomMessages(st: ChatState, user: Option<User>, reply: Reply<seq<Message>>): (r: ChatState)
    ensures r == st.(messages := r.messages, loading := false)
    ensures reply.Failed? ==> r.messages == st.messages
    ensures reply.Ok? ==> |r.messages| == |reply.value|
    ensures reply.Ok? ==> forall i :: 0 <= i < |reply.value| ==>
              r.messages[i].(isOwn := reply.value[i].isOwn) == reply.value[i]
              && (r.messages[i].isOwn == Some(true) <==> SentBy(reply.value[i], user))
  {
    match reply
    case Failed(_) => st.(loading := false)
    case Ok(ms) => st.(messages := Annotate(ms, user), loading := false)
  }

  /** The summary fields a room takes from a message posted to it; every
      other field of the room is kept. */
  function WithLastMessage(room: Room, m: Message): (r: Room)
    ensures r.id == room.id && r.unreadCount == room.unreadCount
    ensures r.lastMessage == Some(m.content) && r.lastMessageTime == Some(m.createdAt)
    ensures r.updatedAt == m.createdAt
    ensures r.(lastMessage := room.lastMessage, lastMessageTime := room.lastMessageTime, updatedAt := room.updatedAt) == room
  {
    room.(lastMessage := Some(m.content), lastMessageTime := Some(m.createdAt), updatedAt := m.createdAt)
  }

  /** The room list with the summary of every room with id `roomId` taken
      from `m`, before re-sorting. */
  function Summarize(rooms: seq<Room>, roomId: string, m: Message): seq<Room>
  {
    Update(rooms, RoomId, roomId, (x: Room) => WithLastMessage(x, m))
  }

  /** The state after `sendMessageToRoom`, and the error it rethrows. */
  datatype Sent = Sent(state: ChatState, thrown: Option<string>)

  /** `sendMessageToRoom`: on success the posted message, annotated, is
      appended to the messages; the rooms with that id take their summary
      from it and the list is re-sorted newest first. On failure nothing
      changes and the error is rethrown. */
  function SendMessageToRoom(st: ChatState, user: Option<User>, roomId: string, reply: Reply<Message>): (r: Sent)
    ensures r.state == st.(rooms := r.state.rooms, messages := r.state.messages)
    ensures reply.Failed? ==> r.state == st && r.thrown == Some(reply.error)
    ensures reply.Ok? ==> r.thrown == None
    ensures reply.Ok? ==> |r.state.messages| == |st.messages| + 1
                          && r.state.messages[..|st.messages|] == st.messages
    ensures reply.Ok? ==> var last := r.state.messages[|st.messages|];
                          last.(isOwn := reply.value.isOwn) == reply.value
                          && (last.isOwn == Some(true) <==> SentBy(reply.value, user))
    ensures reply.Ok? ==> NewestFirst(r.state.rooms)
    ensures reply.Ok? ==> multiset(r.state.rooms) == multiset(Summarize(st.rooms, roomId, reply.value))
  {
    match reply
    case Failed(e) => Sent(st, Some(e))
    case Ok(m) =>
      var own := Annotate([m], user);
      var messages := st.messages + own;
      assert messages[|st.messages|] == own[0];
      assert messages[..|st.messages|] == st.messages;
      Sent(st.(messages := messages, rooms := SortNewestFirst(Summarize(st.rooms, roomId, m))), None)
  }

  /** Summarising keeps every room of another id and gives every room of
      the target id the new summary, and nothing else. */
  lemma SummarizeRooms(rooms: seq<Room>, roomId: string, m: Message)
    ensures var s := Summarize(rooms, roomId, m);
            && |s| == |rooms|
            && (forall x :: x in s && x.id != roomId ==> x in rooms)
            && (forall x :: x in s && x.id == roomId ==> exists y :: y in rooms && x == WithLastMessage(y, m))
            && (forall y :: y in rooms && y.id != roomId ==> y in s)
            && (forall y :: y in rooms && y.id == roomId ==> WithLastMessage(y, m) in s)
  {
    var s := Summarize(rooms, roomId, m);
    forall x | x in s
      ensures x.id != roomId ==> x in rooms
      ensures x.id == roomId ==> exists y :: y in rooms && x == WithLastMessage(y, m)
    {
      var i :| 0 <= i < |s| && s[i] == x;
      assert x == WithLastMessage(rooms[i], m) || x == rooms[i];
    }
    forall y | y in rooms
      ensures (y.id != roomId ==> y in s) && (y.id == roomId ==> WithLastMessage(y, m) in s)
    {
      var i :| 0 <= i < |rooms| && rooms[i] == y;
      assert s[i] in s;
    }
  }

  /** Two lists with the same elements counted with multiplicity have the
      same length and the same members. */
  lemma SameMembers(a: seq<Room>, b: seq<Room>)
    requires multiset(a) == multiset(b)
    ensures |a| == |b|
    ensures forall x :: x in a <==> x in b
  {
    assert |multiset(a)| == |multiset(b)|;
    forall x
      ensures x in a <==> x in b
    {
      assert x in a <==> x in multiset(a);
      assert x in b <==> x in multiset(b);
    }
  }

  /** After a successful send, each listed room is either an untouched room
      with a different id or a room with the target id carrying the new
      summary, and every room of the old list is still represented. */
  lemma SendUpdatesOnlyTargetRoom(st: ChatState, user: Option<User>, roomId: string, m: Message)
    ensures var after := SendMessageToRoom(st, user, roomId, Ok(m)).state.rooms;
            && |after| == |st.rooms|
            && (forall x :: x in after && x.id != roomId ==> x in st.rooms)
            && (forall x :: x in after && x.id == roomId ==> exists y :: y in st.rooms && x == WithLastMessage(y, m))
            && (forall y :: y in st.rooms && y.id != roomId ==> y in after)
            && (forall y :: y in st.rooms && y.id == roomId ==> WithLastMessage(y, m) in after)
  {
    SummarizeRooms(st.rooms, roomId, m);
    SameMembers(SendMessageToRoom(st, user, roomId, Ok(m)).state.rooms, Summarize(st.rooms, roomId, m));
  }

  /** A send keeps the unread total in agreement with the rooms: neither the
      summary update nor the re-sort changes any room's unread count. */
  lemma SendKeepsUnreadAgreement(st: ChatState, user: Option<User>, roomId: string, reply: Reply<Message>)
    requires UnreadAgrees(st)
    ensures UnreadAgrees(SendMessageToRoom(st, user, roomId, reply).state)
  {
    if reply.Ok? {
      var s := Summarize(st.rooms, roomId, reply.value);
      SumPointwise(s, UnreadOf, st.rooms, UnreadOf);
      SortKeepsSum(s, UnreadOf);
    }
  }

  /** When the posted message is newer than every other room's last update,
      the room it was posted to heads the list after the send. */
  lemma SentRoomComesFirst(st: ChatState, user: Option<User>, roomId: string, m: Message)
    requires Has(st.rooms, RoomId, roomId)
    requires forall i :: 0 <= i < |st.rooms| && st.rooms[i].id != roomId ==> st.rooms[i].updatedAt < m.createdAt
    ensures var after := SendMessageToRoom(st, user, roomId, Ok(m)).state.rooms;
            |after| > 0 && after[0].id == roomId && after[0].lastMessage == Some(m.content)
  {
    var s := Summarize(st.rooms, roomId, m);
    var after := SendMessageToRoom(st, user, roomId, Ok(m)).state.rooms;
    var k :| 0 <= k < |st.rooms| && st.rooms[k].id == roomId;
    InRearrangement(s, after, k);
    var j :| 0 <= j < |after| && after[j] == s[k];
    assert after[0].updatedAt >= m.createdAt;
    var first := after[0];
    InRearrangement(after, s, 0);
    var i :| 0 <= i < |s| && s[i] == first;
    var before := st.rooms[i];
    assert before.id != roomId ==> first == before;
    assert before.id == roomId ==> first == WithLastMessage(before, m);
  }

  /** Recognises the rooms with id `roomId`. */
  function InRoom(roomId: string): Room -> bool
  {
    (x: Room) => x.id == roomId
  }

  /** The room list with the unread count of every room with id `roomId`
      set to zero. */
  function ClearUnread(rooms: seq<Room>, roomId: string): seq<Room>
  {
    Update(rooms, RoomId, roomId, (x: Room) => x.(unreadCount := 0))
  }

  /** `markAsRead`: once the read call succeeds, every room with that id has
      its unread count zeroed and nothing else about any room changes; the
      total is then replaced by the server's figure, or kept when fetching it
      fails. A failed read call changes nothing. */
  function MarkAsRead(st: ChatState, roomId: string, read: Reply<()>, total: Reply<int>): (r: ChatState)
    ensures read.Failed? ==> r == st
    ensures r == st.(rooms := r.rooms, unreadCount := r.unreadCount)
    ensures read.Ok? ==> |r.rooms| == |st.rooms|
    ensures read.Ok? ==> forall i :: 0 <= i < |st.rooms| ==>
              if st.rooms[i].id == roomId then r.rooms[i] == st.rooms[i].(unreadCount := 0)
              else r.rooms[i] == st.rooms[i]
    ensures read.Ok? && total.Ok? ==> r.unreadCount == total.value
    ensures read.Ok? && total.Failed? ==> r.unreadCount == st.unreadCount
  {
    match read
    case Failed(_) => st
    case Ok(_) =>
      st.(rooms := ClearUnread(st.rooms, roomId),
          unreadCount := if total.Ok? then total.value else st.unreadCount)
  }

  /** Clearing splits at the first room: its own count is cleared when it
      has the id, and the rest is cleared in turn. */
  lemma ClearUnreadFront(rooms: seq<Room>, roomId: string)
    requires |rooms| > 0
    ensures |ClearUnread(rooms, roomId)| == |rooms|
    ensures UnreadOf(ClearUnread(rooms, roomId)[0]) == if rooms[0].id == roomId then 0 else rooms[0].unreadCount
    ensures ClearUnread(rooms, roomId)[1..] == ClearUnread(rooms[1..], roomId)
  {
  }

  /** After a read the rooms' unread counts sum to the old sum less exactly
      what the rooms with that id held. */
  lemma {:induction false} MarkAsReadLocalSum(rooms: seq<Room>, roomId: string)
    ensures Sum(rooms, UnreadOf) == Sum(ClearUnread(rooms, roomId), UnreadOf) + Sum(Filter(rooms, InRoom(roomId)), UnreadOf)
  {
    if |rooms| > 0 {
      MarkAsReadLocalSum(rooms[1..], roomId);
      SumFront(rooms, UnreadOf);
      ClearUnreadFront(rooms, roomId);
      SumFront(ClearUnread(rooms, roomId), UnreadOf);
      SumFilterFront(rooms, InRoom(roomId), UnreadOf);
    }
  }

  /** The total after a read is the server's figure, not a local
      recomputation: when fetching that figure fails, the stale total no
      longer matches the rooms. */
  lemma MarkAsReadCanLeaveStaleTotal()
    ensures var room := Room("r1", 1, 2, 0, 0, "Bo", 2, None, None, None, 3);
            var st := ChatState([room], None, [], false, 3);
            UnreadAgrees(st) && !UnreadAgrees(MarkAsRead(st, "r1", Ok(()), Failed("network")))
  {
    var room := Room("r1", 1, 2, 0, 0, "Bo", 2, None, None, None, 3);
    var after := room.(unreadCount := 0);
    assert [room][..0] == [] && [after][..0] == [];
    assert MarkAsRead(ChatState([room], None, [], false, 3), "r1", Ok(()), Failed("network")).rooms == [after];
  }
}
