/**
 * Group chat rooms (src/routes/chatRoom.js): creation by an administrator
 * under a unique name, idempotent joining, posting a message record (text
 * and an optional uploaded file) and reading a room's history. A room id
 * that does not cast makes `findById` throw; whether it casts is `castable`.
 */
module ChatRoomRoutes {
  import opened Common
  import opened UserSchema
  import opened Store
  import opened AuthGate

  /**
   * `ChatRoom.findOne({ name })`. Mongoose drops a filter key whose value is
   * undefined, so an absent name matches whichever room comes first: any
   * room at all.
   */
  predicate NameInUse(rooms: map<Id, ChatRoom>, name: Option<string>)
  {
    if name.None? then rooms != map[] else NameTaken(rooms, name.value)
  }

  /** The room schema as written: `name` and `password` are both required. */
  predicate RoomSchemaAsWritten(r: ChatRoom)
  {
    r.name != "" && r.password.Some? && r.password.value != ""
  }

  /**
   * The room the create handler builds, `new ChatRoom({ name, users: [],
   * messages: [] })`, never passes the schema as written: it has no password.
   */
  lemma CreatedRoomFailsSchema(name: string)
    ensures !RoomSchemaAsWritten(ChatRoom(name, None, [], []))
  {
  }

  /**
   * The create handler as written. The 403 branch is its own role check; a
   * name in use is 400; otherwise the save fails validation, because the
   * required password is never set, and the catch answers 500. No room is
   * ever stored.
   */
  method CreateRoomAsWritten(s: Store, callerRole: Role, name: Option<string>) returns (code: int)
    requires s.Valid()
    modifies s
    ensures s.Valid() && s.Snapshot() == old(s.Snapshot())
    ensures code == FORBIDDEN <==> callerRole != AdminRole
    ensures code == BAD_REQUEST <==> callerRole == AdminRole && NameInUse(old(s.rooms), name)
    ensures code == SERVER_ERROR <==> callerRole == AdminRole && !NameInUse(old(s.rooms), name)
  {
    if callerRole != AdminRole {
      return FORBIDDEN;
    }
    if NameInUse(s.rooms, name) {
      return BAD_REQUEST;
    }
    var room := ChatRoom(if name.Some? then name.value else "", None, [], []);
    CreatedRoomFailsSchema(room.name);
    assert !RoomSchemaAsWritten(room);
    return SERVER_ERROR;
  }

  /**
   * The create handler with the password optional, as the room's access
   * secret is meant to be: an administrator's request with a present name
   * not in use stores one room under a fresh id, with that name, no password,
   * no members and no messages, and answers 201. An absent or empty name
   * fails the required `name` and is answered 500.
   */
  method CreateRoom(s: Store, callerRole: Role, name: Option<string>, freshId: Id) returns (code: int)
    requires s.Valid() && freshId !in s.rooms
    modifies s
    ensures s.Valid()
    ensures code == FORBIDDEN <==> callerRole != AdminRole
    ensures code == BAD_REQUEST <==> callerRole == AdminRole && NameInUse(old(s.rooms), name)
    ensures code == SERVER_ERROR <==>
      callerRole == AdminRole && !NameInUse(old(s.rooms), name) && !Truthy(name)
    ensures code == CREATED <==>
      callerRole == AdminRole && !NameInUse(old(s.rooms), name) && Truthy(name)
    ensures code == CREATED ==>
      s.Snapshot() == old(s.Snapshot()).(rooms := old(s.rooms)[freshId := ChatRoom(name.value, None, [], [])])
    ensures code != CREATED ==> s.Snapshot() == old(s.Snapshot())
  {
    if callerRole != AdminRole {
      return FORBIDDEN;
    }
    if NameInUse(s.rooms, name) {
      return BAD_REQUEST;
    }
    if !Truthy(name) {
      return SERVER_ERROR;
    }
    var room := ChatRoom(name.value, None, [], []);
    RoomsAdd(s.rooms, freshId, room);
    s.rooms := s.rooms[freshId := room];
    code := CREATED;
  }

  /**
   * The create route: `userAuth`, then `adminRole`, then the handler. The
   * gate answers a non-administrator with 400 before the handler runs, so
   * the handler's 403 is never sent.
   */
  method CreateRoomRoute(s: Store, caller: User, name: Option<string>, freshId: Id) returns (code: int)
    requires s.Valid() && freshId !in s.rooms
    modifies s
    ensures s.Valid()
    ensures code != FORBIDDEN
    ensures caller.role != AdminRole ==> code == BAD_REQUEST && s.Snapshot() == old(s.Snapshot())
    ensures caller.role == AdminRole ==>
      && (code == BAD_REQUEST <==> NameInUse(old(s.rooms), name))
      && (code == SERVER_ERROR <==> !NameInUse(old(s.rooms), name) && !Truthy(name))
      && (code == CREATED <==> !NameInUse(old(s.rooms), name) && Truthy(name))
    ensures code == CREATED ==>
      s.Snapshot() == old(s.Snapshot()).(rooms := old(s.rooms)[freshId := ChatRoom(name.value, None, [], [])])
    ensures code != CREATED ==> s.Snapshot() == old(s.Snapshot())
    ensures code == CREATED ==>
      name.Some? && NameTaken(s.rooms, name.value) && !NameTaken(old(s.rooms), name.value)
  {
    var gate := AdminGate(Some(caller));
    if gate.Halt? {
      return gate.code;
    }
    code := CreateRoom(s, caller.role, name, freshId);
    if code == CREATED {
      assert s.rooms[freshId].name == name.value;
    }
  }

  /**
   * `/join/:roomId`: 404 for an unknown room; otherwise the caller is
   * appended to the members unless already one of them, so joining twice is
   * joining once.
   */
  method JoinRoom(s: Store, roomId: Id, castable: bool, userId: Id) returns (code: int)
    requires s.Valid()
    modifies s
    ensures s.Valid()
    ensures code == SERVER_ERROR <==> !castable
    ensures code == NOT_FOUND <==> castable && roomId !in old(s.rooms)
    ensures code == OK <==> castable && roomId in old(s.rooms)
    ensures code == OK ==> s.Snapshot() == old(s.Snapshot()).(rooms := old(s.rooms)[roomId :=
      old(s.rooms)[roomId].(users := AddToSet(old(s.rooms)[roomId].users, userId))])
    ensures code == OK ==> userId in s.rooms[roomId].users
    ensures code == OK && userId in old(s.rooms)[roomId].users ==> s.Snapshot() == old(s.Snapshot())
    ensures code != OK ==> s.Snapshot() == old(s.Snapshot())
  {
    if !castable {
      return SERVER_ERROR;
    }
    if roomId !in s.rooms {
      return NOT_FOUND;
    }
    var room := s.rooms[roomId];
    if userId !in room.users {
      RoomsUpdate(s.rooms, roomId, room.(users := room.users + [userId]));
      s.rooms := s.rooms[roomId := room.(users := room.users + [userId])];
    }
    code := OK;
  }

  /** An uploaded file as multer describes it. */
  datatype Upload = Upload(filename: string, mimetype: string)

  const UPLOADS_PREFIX: string := "/uploads/"

  /**
   * The message record the message route builds: the sender, the text or ""
   * when it is absent or empty, and the file's public path and type when a
   * file came with the request, null otherwise.
   */
  function NewRoomMessage(userId: Id, text: Option<string>, file: Option<Upload>): (m: RoomMessage)
    ensures m.senderId == userId
    ensures m.text == OrElse(text, "")
    ensures Truthy(text) ==> m.text == text.value
    ensures file.None? <==> m.fileUrl.None?
    ensures file.None? <==> m.fileType.None?
    ensures file.Some? ==> (
      |m.fileUrl.value| >= |UPLOADS_PREFIX| && m.fileUrl.value[..|UPLOADS_PREFIX|] == UPLOADS_PREFIX
      && m.fileUrl.value[|UPLOADS_PREFIX|..] == file.value.filename && m.fileType.value == file.value.mimetype)
  {
    RoomMessage(userId, OrElse(text, ""),
      if file.Some? then Some(UPLOADS_PREFIX + file.value.filename) else None,
      if file.Some? then Some(file.value.mimetype) else None)
  }

  /**
   * `/:roomId/message`, which runs without `userAuth`: a missing sender is
   * refused with 400 before any lookup; an unknown room is 404; otherwise the
   * record is appended at the end of the room's messages whether or not the
   * sender is a member, and answered 201.
   */
  method PostRoomMessage(s: Store, roomId: Id, castable: bool, userId: Option<Id>, text: Option<string>,
                         file: Option<Upload>) returns (code: int, sent: Option<RoomMessage>)
    requires s.Valid()
    modifies s
    ensures s.Valid()
    ensures code == BAD_REQUEST <==> !Truthy(userId)
    ensures code == SERVER_ERROR <==> Truthy(userId) && !castable
    ensures code == NOT_FOUND <==> Truthy(userId) && castable && roomId !in old(s.rooms)
    ensures code == CREATED <==> Truthy(userId) && castable && roomId in old(s.rooms)
    ensures code == CREATED ==> (
      sent == Some(NewRoomMessage(userId.value, text, file))
      && s.Snapshot() == old(s.Snapshot()).(rooms := old(s.rooms)[roomId :=
        old(s.rooms)[roomId].(messages := old(s.rooms)[roomId].messages + [sent.value])]))
    ensures code != CREATED ==> sent.None? && s.Snapshot() == old(s.Snapshot())
  {
    if !Truthy(userId) {
      return BAD_REQUEST, None;
    }
    var message := NewRoomMessage(userId.value, text, file);
    if !castable {
      return SERVER_ERROR, None;
    }
    if roomId !in s.rooms {
      return NOT_FOUND, None;
    }
    var room := s.rooms[roomId];
    RoomsUpdate(s.rooms, roomId, room.(messages := room.messages + [message]));
    s.rooms := s.rooms[roomId := room.(messages := room.messages + [message])];
    code, sent := CREATED, Some(message);
  }

  /** `/:roomId/messages`: the whole history of a room, oldest first, or 404. */
  function RoomMessages(w: World, roomId: Id, castable: bool): (r: (int, seq<RoomMessage>))
    ensures r.0 == OK <==> castable && roomId in w.rooms
    ensures r.0 == OK ==> r.1 == w.rooms[roomId].messages
    ensures !castable ==> r == (SERVER_ERROR, [])
    ensures castable && roomId !in w.rooms ==> r == (NOT_FOUND, [])
  {
    if !castable then (SERVER_ERROR, [])
    else if roomId !in w.rooms then (NOT_FOUND, [])
    else (OK, w.rooms[roomId].messages)
  }

  /** A message the route accepted is the last entry of the history read back. */
  method PostThenRead(s: Store, roomId: Id, userId: Id, text: Option<string>, file: Option<Upload>)
    returns (code: int, history: seq<RoomMessage>)
    requires s.Valid() && userId != ""
    modifies s
    ensures code == CREATED <==> roomId in old(s.rooms)
    ensures code == CREATED ==>
      |history| > 0 && history[|history| - 1] == NewRoomMessage(userId, text, file)
      && history[..|history| - 1] == old(s.rooms)[roomId].messages
  {
    var sent;
    code, sent := PostRoomMessage(s, roomId, true, Some(userId), text, file);
    var read := RoomMessages(s.Snapshot(), roomId, true);
    history := read.1;
  }
}
