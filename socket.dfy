/**
 * The direct-chat socket layer (src/utils/socket.js): the `joinChat`,
 * `sendMessage` and `disconnect` events. The registry holds what socket.io
 * keeps per server: which connections have joined which room, and the log
 * of every `messageReceived` emitted, with the connections it reached. The
 * room key is `getSecretRoomId`, with the SHA-256 digest left abstract as
 * `hash`.
 */
module Socket {
  import opened Common
  import opened RoomIdentity
  import opened Store

  /** A live socket connection. */
  type ConnId = nat

  /** The payload of `messageReceived`. */
  datatype MessageReceived = MessageReceived(firstName: string, text: string, lastName: string)

  /** One `io.to(room).emit(...)`: the room, the connections joined to it at that moment, and the payload. */
  datatype Emission = Emission(room: string, recipients: set<ConnId>, payload: MessageReceived)

  class Registry {
    const hash: string -> string
    var members: map<string, set<ConnId>>
    var emitted: seq<Emission>

    /** A server with no connection joined anywhere and nothing emitted yet. */
    constructor (hash: string -> string)
      ensures this.hash == hash && members == map[] && emitted == []
    {
      this.hash := hash;
      members := map[];
      emitted := [];
    }

    /** The connections joined to a room; a room nobody joined has none. */
    function Members(room: string): set<ConnId>
      reads this
    {
      if room in members then members[room] else {}
    }

    /**
     * `joinChat`: the connection joins exactly the room of the two users, and
     * no other membership, no emission and no stored document changes.
     */
    method JoinChat(conn: ConnId, firstName: string, userId: Id, targetUserId: Id)
      modifies this`members
      ensures forall room :: Members(room) ==
                (if room == SecretRoomId(hash, userId, targetUserId) then old(Members(room)) + {conn} else old(Members(room)))
      ensures conn in Members(SecretRoomId(hash, userId, targetUserId))
    {
      var room := SecretRoomId(hash, userId, targetUserId);
      members := members[room := Members(room) + {conn}];
    }

    /**
     * `sendMessage`. Whether an accepted connection exists is never consulted.
     * `persisted` says whether the lookup and `save` went through; when they
     * throw, the error is only logged and nothing is stored. Either way
     * `messageReceived` then goes to every connection joined to the room,
     * the sender's own included.
     */
    method SendMessage(s: Store, firstName: string, lastName: string, userId: Id, targetUserId: Id,
                       text: string, persisted: bool)
      requires s.Valid()
      modifies this`emitted, s
      ensures s.Valid()
      ensures emitted == old(emitted) + [Emission(SecretRoomId(hash, userId, targetUserId),
        old(Members(SecretRoomId(hash, userId, targetUserId))), MessageReceived(firstName, text, lastName))]
      ensures !persisted ==> s.Snapshot() == old(s.Snapshot())
      ensures persisted ==> s.Snapshot() == old(s.Snapshot()).(chats := AppendDirect(old(s.chats), userId, targetUserId, text))
    {
      var room := SecretRoomId(hash, userId, targetUserId);
      if persisted {
        var found := FindChat(s.chats, userId, targetUserId);
        if found.None? {
          ChatsAppend(s.chats, userId, targetUserId, [DirectMessage(userId, text)]);
        } else {
          ChatsSetMessages(s.chats, found.value, s.chats[found.value].messages + [DirectMessage(userId, text)]);
        }
        s.chats := AppendDirect(s.chats, userId, targetUserId, text);
      }
      emitted := emitted + [Emission(room, Members(room), MessageReceived(firstName, text, lastName))];
    }

    /**
     * `disconnect`: the handler does nothing, and socket.io drops the
     * connection from every room it had joined.
     */
    method Disconnect(conn: ConnId)
      modifies this`members
      ensures forall room :: Members(room) == old(Members(room)) - {conn}
    {
      members := map room | room in members :: members[room] - {conn};
    }
  }

  /**
   * The find-or-create-then-append of `sendMessage`: the message
   * `{senderId: userId, text}` goes at the end of the chat listing both users,
   * or of a new chat with participants `[userId, targetUserId]` when there is none.
   */
  function AppendDirect(chats: seq<Chat>, userId: Id, targetUserId: Id, text: string): (r: seq<Chat>)
    ensures FindChat(chats, userId, targetUserId).None? ==>
      r == chats + [Chat([userId, targetUserId], [DirectMessage(userId, text)])]
    ensures FindChat(chats, userId, targetUserId).Some? ==>
      var i := FindChat(chats, userId, targetUserId).value;
      |r| == |chats| && r[i].participants == chats[i].participants
      && r[i].messages == chats[i].messages + [DirectMessage(userId, text)]
      && forall k :: 0 <= k < |chats| && k != i ==> r[k] == chats[k]
  {
    match FindChat(chats, userId, targetUserId)
    case None => chats + [Chat([userId, targetUserId], [DirectMessage(userId, text)])]
    case Some(i) => chats[i := chats[i].(messages := chats[i].messages + [DirectMessage(userId, text)])]
  }

  /**
   * A chat opened by A writing to B is the one B's reply lands in: after A's
   * message, B's message is appended to that same chat, right after A's, and
   * no second chat is created.
   */
  lemma ReplyLandsInSameChat(chats: seq<Chat>, a: Id, b: Id, t1: string, t2: string)
    ensures var once := AppendDirect(chats, a, b, t1);
      var twice := AppendDirect(once, b, a, t2);
      |twice| == |once| && |once| <= |chats| + 1
      && FindChat(twice, a, b).Some?
      && var i := FindChat(twice, a, b).value;
      |twice[i].messages| >= 2
      && twice[i].messages[|twice[i].messages| - 2..] == [DirectMessage(a, t1), DirectMessage(b, t2)]
  {
    var once := AppendDirect(chats, a, b, t1);
    var i: nat;
    if FindChat(chats, a, b).None? {
      i := |chats|;
      assert once[i].participants == [a, b];
      FindChatAppended(chats, once[i], a, b);
    } else {
      i := FindChat(chats, a, b).value;
      FindChatAfterUpdate(chats, once, i, a, b);
    }
    assert FindChat(once, a, b) == Some(i);
    FindChatSymmetric(once, a, b);
    var twice := AppendDirect(once, b, a, t2);
    assert twice[i].participants == once[i].participants;
    FindChatAfterUpdate(once, twice, i, a, b);
    var m := once[i].messages;
    assert twice[i].messages == m + [DirectMessage(b, t2)];
    assert m[|m| - 1] == DirectMessage(a, t1);
  }

  /**
   * Two users' connections join with the ids in opposite orders; a message
   * sent by either then reaches both connections, because the room key does
   * not depend on the order of the ids.
   */
  method BothSidesReceive(r: Registry, s: Store, connA: ConnId, connB: ConnId, a: Id, b: Id,
                          firstName: string, lastName: string, text: string, persisted: bool)
    requires s.Valid()
    modifies r`members, r`emitted, s
    ensures s.Valid()
    ensures |r.emitted| > 0 && {connA, connB} <= r.emitted[|r.emitted| - 1].recipients
    ensures r.emitted[|r.emitted| - 1].payload == MessageReceived(firstName, text, lastName)
  {
    r.JoinChat(connA, firstName, a, b);
    r.JoinChat(connB, "", b, a);
    SecretRoomIdSymmetric(r.hash, a, b);
    r.SendMessage(s, firstName, lastName, a, b, text, persisted);
  }
}
