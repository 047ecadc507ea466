/**
 * `GET /chat/:targetUserId` (src/routes/chat.js): only two users with an
 * accepted connection, in either direction, may open their direct chat;
 * the chat listing both is returned, or created empty when there is none.
 * The route runs after `userAuth` admitted `caller`.
 */
module ChatRoutes {
  import opened Common
  import opened Store

  /**
   * The direct chat of two users: found, or stored empty with participants
   * `[caller, target]`. After the call a chat listing both exists, so a second
   * call finds it and creates nothing. A target id that does not cast,
   * `castable` false, makes the request lookup throw; the catch only logs, so
   * nothing is answered and nothing stored.
   */
  method GetChat(s: Store, caller: Id, target: Id, castable: bool) returns (code: int, chat: Option<Chat>)
    requires s.Valid()
    modifies s
    ensures s.Valid()
    ensures code == NO_RESPONSE <==> !castable
    ensures code == NO_RESPONSE ==> chat.None? && s.Snapshot() == old(s.Snapshot())
    ensures code == UNAUTHORIZED <==> castable && FindAcceptedBetween(old(s.requests), caller, target).None?
    ensures code == OK <==> castable && FindAcceptedBetween(old(s.requests), caller, target).Some?
    ensures code == UNAUTHORIZED ==> chat.None? && s.Snapshot() == old(s.Snapshot())
    ensures code == OK && FindChat(old(s.chats), caller, target).Some? ==>
      s.Snapshot() == old(s.Snapshot())
      && chat == Some(old(s.chats)[FindChat(old(s.chats), caller, target).value])
    ensures code == OK && FindChat(old(s.chats), caller, target).None? ==>
      s.Snapshot() == old(s.Snapshot()).(chats := old(s.chats) + [Chat([caller, target], [])])
      && chat == Some(Chat([caller, target], []))
    ensures code == OK ==>
      FindChat(s.chats, caller, target).Some? && chat == Some(s.chats[FindChat(s.chats, caller, target).value])
  {
    if !castable {
      return NO_RESPONSE, None;
    }
    if FindAcceptedBetween(s.requests, caller, target).None? {
      return UNAUTHORIZED, None;
    }
    var found := FindChat(s.chats, caller, target);
    if found.Some? {
      return OK, Some(s.chats[found.value]);
    }
    var created := Chat([caller, target], []);
    ChatsAppend(s.chats, caller, target, []);
    s.chats := s.chats + [created];
    FindChatAppended(old(s.chats), created, caller, target);
    code, chat := OK, Some(created);
  }

  /**
   * A call by `a` about `b`, then one by `b` about `a`, create at most one
   * chat. Both ids belong to admitted users, so both cast.
   */
  method GetChatTwice(s: Store, a: Id, b: Id) returns (first: Option<Chat>, second: Option<Chat>)
    requires s.Valid()
    modifies s
    ensures s.Valid()
    ensures |s.chats| <= |old(s.chats)| + 1
    ensures first.Some? ==> second == first
  {
    var c1, c2;
    c1, first := GetChat(s, a, b, true);
    FindChatSymmetric(s.chats, a, b);
    if first.Some? {
      RequestLookupSymmetric(s.requests, a, b);
    }
    c2, second := GetChat(s, b, a, true);
  }

  /** The accepted-connection lookup does not depend on which of the two users asks. */
  lemma RequestLookupSymmetric(rs: seq<ConnectionRequest>, a: Id, b: Id)
    ensures FindAcceptedBetween(rs, a, b) == FindAcceptedBetween(rs, b, a)
  {
  }
}
