/**
 * Chat rooms and messages (backend/services/chat/chat_service.py): creating rooms with
 * titles unique per community, the idempotent default "General" room, sending messages
 * and the paged message listing.
 */
module ChatService {
  import opened Common
  import opened Paging
  import opened Models
  import opened Store

  // ---------------------------------------------------------------------------
  // Rooms

  /** Adding a room whose title is not yet used in its community keeps the store's invariant. */
  lemma AddRoomKeepsValid(t: Tables, cid: int, title: string)
    requires TablesValid(t)
    requires !HasRoomTitled(t.rooms, cid, title)
    ensures TablesValid(t.(rooms := t.rooms + [ChatRoom(t.nextChatId, cid, title)], nextChatId := t.nextChatId + 1))
  {
    var room := ChatRoom(t.nextChatId, cid, title);
    AppendKeepsKeysAscending(t.rooms, (r: ChatRoom) => r.chatId, t.nextChatId, room);
    assert forall k :: 0 <= k < |t.rooms| ==> (t.rooms + [room])[k] == t.rooms[k];
  }

  method CreateChatRoom(db: Db, cid: int, title: string, user: UserId) returns (r: Result<ChatRoom, ServiceError>)
    requires db.Valid()
    modifies db
    ensures db.Valid()
    ensures FindCommunity(old(db.communities), cid).None? ==> r == Err(CommunityNotFound)
    ensures (FindCommunity(old(db.communities), cid).Some? && !MayAccess(old(db.communities), old(db.memberships), cid, user))
              ==> r == Err(MustBeMemberToCreateChatRoom)
    ensures (FindCommunity(old(db.communities), cid).Some? && MayAccess(old(db.communities), old(db.memberships), cid, user)
             && HasRoomTitled(old(db.rooms), cid, title))
              ==> r == Err(DuplicateChatRoomTitle)
    ensures r.Ok? <==> FindCommunity(old(db.communities), cid).Some?
                       && MayAccess(old(db.communities), old(db.memberships), cid, user)
                       && !HasRoomTitled(old(db.rooms), cid, title)
    ensures r.Err? ==> unchanged(db)
    ensures r.Ok? ==> r.value == ChatRoom(old(db.nextChatId), cid, title)
    ensures r.Ok? ==> db.Snapshot() == old(db.Snapshot()).(rooms := old(db.rooms) + [r.value],
                                                             nextChatId := old(db.nextChatId) + 1)
  {
    var community := FindCommunity(db.communities, cid);
    if community.None? {
      return Err(CommunityNotFound);
    }
    if community.value.createdBy != Some(user) && FindMembership(db.memberships, user, cid).None? {
      return Err(MustBeMemberToCreateChatRoom);
    }
    if TitledRoomIndex(db.rooms, cid, title).Some? {
      return Err(DuplicateChatRoomTitle);
    }
    ghost var t := db.Snapshot();
    AddRoomKeepsValid(t, cid, title);
    var room := ChatRoom(db.nextChatId, cid, title);
    db.rooms := db.rooms + [room];
    db.nextChatId := db.nextChatId + 1;
    assert db.Snapshot() == t.(rooms := t.rooms + [room], nextChatId := t.nextChatId + 1);
    r := Ok(room);
  }

  /** `get_community_chat_rooms`: every room of the community, for its creator or members. */
  function GetCommunityChatRooms(db: Db, cid: int, user: UserId): (r: Result<seq<ChatRoom>, ServiceError>)
    reads db
    ensures FindCommunity(db.communities, cid).None? ==> r == Err(CommunityNotFound)
    ensures (FindCommunity(db.communities, cid).Some? && !MayAccess(db.communities, db.memberships, cid, user))
              ==> r == Err(MustBeMemberToViewChatRooms)
    ensures r.Ok? <==> FindCommunity(db.communities, cid).Some? && MayAccess(db.communities, db.memberships, cid, user)
    ensures r.Ok? ==> forall k :: 0 <= k < |r.value| ==> r.value[k] in db.rooms && r.value[k].communityId == cid
    ensures r.Ok? ==> forall k :: 0 <= k < |db.rooms| && db.rooms[k].communityId == cid ==> db.rooms[k] in r.value
  {
    match FindCommunity(db.communities, cid)
    case None => Err(CommunityNotFound)
    case Some(c) =>
      if c.createdBy != Some(user) && FindMembership(db.memberships, user, cid).None? then
        Err(MustBeMemberToViewChatRooms)
      else
        Ok(Filter(db.rooms, (room: ChatRoom) => room.communityId == cid))
  }

  /** The rooms after `create_default_chat_room`: unchanged if a "General" room exists, else with one added. */
  function WithGeneralRoom(rs: seq<ChatRoom>, cid: int, nextId: int): seq<ChatRoom> {
    if TitledRoomIndex(rs, cid, "General").Some? then rs else rs + [ChatRoom(nextId, cid, "General")]
  }

  /**
   * After `create_default_chat_room` the community has a "General" room, and running it a
   * second time changes nothing.
   */
  lemma DefaultRoomIdempotent(rs: seq<ChatRoom>, cid: int, n1: int, n2: int)
    ensures HasRoomTitled(WithGeneralRoom(rs, cid, n1), cid, "General")
    ensures WithGeneralRoom(WithGeneralRoom(rs, cid, n1), cid, n2) == WithGeneralRoom(rs, cid, n1)
  {
    var once := WithGeneralRoom(rs, cid, n1);
    if TitledRoomIndex(rs, cid, "General").None? {
      assert once[|rs|] == ChatRoom(n1, cid, "General");
    }
  }

  method CreateDefaultChatRoom(db: Db, cid: int) returns (room: ChatRoom)
    requires db.Valid()
    modifies db
    ensures db.Valid()
    ensures room.communityId == cid && room.title == "General"
    ensures HasRoomTitled(old(db.rooms), cid, "General") ==> unchanged(db) && room in db.rooms
    ensures !HasRoomTitled(old(db.rooms), cid, "General") ==> room == ChatRoom(old(db.nextChatId), cid, "General")
    ensures db.Snapshot() == old(db.Snapshot()).(
              rooms := WithGeneralRoom(old(db.rooms), cid, old(db.nextChatId)),
              nextChatId := if HasRoomTitled(old(db.rooms), cid, "General") then old(db.nextChatId) else old(db.nextChatId) + 1)
  {
    var existing := TitledRoomIndex(db.rooms, cid, "General");
    if existing.None? {
      AddRoomKeepsValid(db.Snapshot(), cid, "General");
      room := ChatRoom(db.nextChatId, cid, "General");
      db.rooms := db.rooms + [room];
      db.nextChatId := db.nextChatId + 1;
      return;
    }
    room := db.rooms[existing.value];
  }

  // ---------------------------------------------------------------------------
  // Messages

  /** The type a stored message gets: `message.type or 'text'`. */
  function StoredType(requested: Option<string>): (t: string)
    ensures t != ""
    ensures Truthy(requested) ==> t == requested.value
    ensures !Truthy(requested) ==> t == "text"
  {
    if Truthy(requested) then requested.value else "text"
  }

  method SendMessage(db: Db, chatId: int, content: string, msgType: Option<string>, user: UserId)
    returns (r: Result<Message, ServiceError>)
    requires db.Valid()
    modifies db
    ensures db.Valid()
    ensures FindRoom(old(db.rooms), chatId).None? ==> r == Err(ChatRoomNotFound)
    ensures (FindRoom(old(db.rooms), chatId).Some?
             && FindCommunity(old(db.communities), FindRoom(old(db.rooms), chatId).value.communityId).None?)
              ==> r == Err(NoCommunityAttribute)
    ensures (FindRoom(old(db.rooms), chatId).Some?
             && FindCommunity(old(db.communities), FindRoom(old(db.rooms), chatId).value.communityId).Some?
             && !MayAccess(old(db.communities), old(db.memberships), FindRoom(old(db.rooms), chatId).value.communityId, user))
              ==> r == Err(MustBeMemberToSendMessages)
    ensures r.Ok? <==> FindRoom(old(db.rooms), chatId).Some?
                       && FindCommunity(old(db.communities), FindRoom(old(db.rooms), chatId).value.communityId).Some?
                       && MayAccess(old(db.communities), old(db.memberships), FindRoom(old(db.rooms), chatId).value.communityId, user)
    ensures r.Err? ==> unchanged(db)
    ensures r.Ok? ==> r.value == Message(old(db.nextMsgId), chatId, Some(user), StoredType(msgType), content)
    ensures r.Ok? ==> db.Snapshot() == old(db.Snapshot()).(messages := old(db.messages) + [r.value],
                                                             nextMsgId := old(db.nextMsgId) + 1)
  {
    var room := FindRoom(db.rooms, chatId);
    if room.None? {
      return Err(ChatRoomNotFound);
    }
    var community := FindCommunity(db.communities, room.value.communityId);
    if community.None? {
      return Err(NoCommunityAttribute);
    }
    if community.value.createdBy != Some(user) && FindMembership(db.memberships, user, room.value.communityId).None? {
      return Err(MustBeMemberToSendMessages);
    }
    var m := Message(db.nextMsgId, chatId, Some(user), StoredType(msgType), content);
    ghost var t := db.Snapshot();
    AddMessageKeepsValid(t, m);
    db.messages := db.messages + [m];
    db.nextMsgId := db.nextMsgId + 1;
    assert db.Snapshot() == t.(messages := t.messages + [m], nextMsgId := t.nextMsgId + 1);
    r := Ok(m);
  }

  /** Appending a message keyed with the next serial value keeps the store's invariant. */
  lemma AddMessageKeepsValid(t: Tables, m: Message)
    requires TablesValid(t) && m.msgId == t.nextMsgId
    ensures TablesValid(t.(messages := t.messages + [m], nextMsgId := t.nextMsgId + 1))
  {
    AppendKeepsKeysAscending(t.messages, (x: Message) => x.msgId, t.nextMsgId, m);
  }

  /** A message as the listing returns it, with the two display fields it sets. */
  datatype MessageView = MessageView(message: Message, senderDisplayName: Option<string>, isSender: bool)

  /** The listing's response: the page, the room's message count, and whether older messages remain. */
  datatype MessagePage = MessagePage(messages: seq<MessageView>, totalCount: nat, hasMore: bool)

  /**
   * One message annotated for `user`: the sender's display name through the outer join
   * with users ("Unknown User" when no users row matches), and whether `user` sent it.
   */
  function ViewOf(m: Message, users: map<UserId, User>, user: UserId): (v: MessageView)
    ensures v.message == m
    ensures v.isSender <==> m.senderId == Some(user)
    ensures (m.senderId.Some? && m.senderId.value in users) ==> v.senderDisplayName == DisplayName(users[m.senderId.value])
    ensures (m.senderId.None? || m.senderId.value !in users) ==> v.senderDisplayName == Some("Unknown User")
  {
    var name := if m.senderId.Some? && m.senderId.value in users then DisplayName(users[m.senderId.value])
                else Some("Unknown User");
    MessageView(m, name, m.senderId == Some(user))
  }

  /** Every message of a sequence annotated for `user`, in the same order. */
  function ViewsOf(ms: seq<Message>, users: map<UserId, User>, user: UserId): (vs: seq<MessageView>)
    ensures |vs| == |ms|
    ensures forall k :: 0 <= k < |ms| ==> vs[k] == ViewOf(ms[k], users, user)
    decreases |ms|
  {
    if ms == [] then []
    else ViewsOf(ms[..|ms| - 1], users, user) + [ViewOf(ms[|ms| - 1], users, user)]
  }

  /** The messages of one room, oldest first. */
  function RoomMessages(ms: seq<Message>, chatId: int): seq<Message> {
    Filter(ms, (m: Message) => m.chatId == chatId)
  }

  /** The room's messages are in the order they were sent. */
  lemma RoomMessagesInSendOrder(t: Tables, chatId: int)
    requires TablesValid(t)
    ensures KeysAscending(RoomMessages(t.messages, chatId), (m: Message) => m.msgId, t.nextMsgId)
  {
    FilterKeepsKeysAscending(t.messages, (m: Message) => m.chatId == chatId, (m: Message) => m.msgId, t.nextMsgId);
  }

  /** The loop of `get_chat_messages`: walk the newest-first page backwards, annotating each message. */
  method AnnotateOldestFirst(page: seq<Message>, users: map<UserId, User>, user: UserId) returns (views: seq<MessageView>)
    ensures views == ViewsOf(Reverse(page), users, user)
  {
    ghost var rev := Reverse(page);
    views := [];
    for j := 0 to |page|
      invariant views == ViewsOf(rev[..j], users, user)
    {
      var m := page[|page| - 1 - j];
      assert rev[..j + 1] == rev[..j] + [m];
      ViewsOfSnoc(rev[..j], m, users, user);
      views := views + [ViewOf(m, users, user)];
    }
    assert rev[..|page|] == rev;
  }

  /** Annotating one more message at the end appends its view. */
  lemma ViewsOfSnoc(ms: seq<Message>, m: Message, users: map<UserId, User>, user: UserId)
    ensures ViewsOf(ms + [m], users, user) == ViewsOf(ms, users, user) + [ViewOf(m, users, user)]
  {
    assert (ms + [m])[..|ms|] == ms;
  }

  /**
   * `get_chat_messages`: after the access checks, the page at `OFFSET skip LIMIT limit`
   * of the room's messages newest first, annotated one by one in oldest-first order.
   */
  method GetChatMessages(db: Db, chatId: int, user: UserId, skip: int, limit: int)
    returns (r: Result<MessagePage, ServiceError>)
    ensures FindRoom(db.rooms, chatId).None? ==> r == Err(ChatRoomNotFound)
    ensures (FindRoom(db.rooms, chatId).Some?
             && !MayAccess(db.communities, db.memberships, FindRoom(db.rooms, chatId).value.communityId, user))
              ==> r == Err(MustBeMemberToViewMessages)
    ensures (FindRoom(db.rooms, chatId).Some?
             && MayAccess(db.communities, db.memberships, FindRoom(db.rooms, chatId).value.communityId, user)
             && (skip < 0 || limit < 0))
              ==> r == Err(NegativeOffsetOrLimit)
    ensures r.Ok? <==> FindRoom(db.rooms, chatId).Some?
                       && MayAccess(db.communities, db.memberships, FindRoom(db.rooms, chatId).value.communityId, user)
                       && skip >= 0 && limit >= 0
    ensures r.Ok? ==> r.value.totalCount == |RoomMessages(db.messages, chatId)|
    ensures r.Ok? ==> r.value.hasMore == (skip + limit < r.value.totalCount)
    ensures r.Ok? ==> r.value.messages == ViewsOf(LatestRun(RoomMessages(db.messages, chatId), skip, limit), db.users, user)
  {
    var room := FindRoom(db.rooms, chatId);
    if room.None? {
      return Err(ChatRoomNotFound);
    }
    var cid := room.value.communityId;
    var community := FindCommunity(db.communities, cid);
    var isOwner := community.Some? && community.value.createdBy == Some(user);
    if !isOwner && FindMembership(db.memberships, user, cid).None? {
      return Err(MustBeMemberToViewMessages);
    }
    var newestFirst := Reverse(RoomMessages(db.messages, chatId));
    var total := |newestFirst|;
    if skip < 0 || limit < 0 {
      return Err(NegativeOffsetOrLimit);
    }
    var page := Window(newestFirst, skip, limit);
    var views := AnnotateOldestFirst(page, db.users, user);
    r := Ok(MessagePage(views, total, skip + limit < total));
  }
}
