/**
 * The persistent world the handlers read and write: the users, connection
 * requests, block entries, direct chats, chat rooms and posts collections,
 * held by one `Store` object whose fields the handlers reassign. Each
 * handler is one atomic step on it. `clock` stands for `Date.now()` as the
 * posts' `createdAt` source.
 */
module Store {
  import opened Common
  import opened UserSchema
  import opened PostSchema

  /** `status` of a connection request. */
  datatype RequestStatus = Ignored | Interested | Accepted | Rejected

  datatype ConnectionRequest = ConnectionRequest(id: Id, fromUserId: Id, toUserId: Id, status: RequestStatus)

  /** `status` of a block entry: enum ["blocked", "unblocked"]. */
  datatype BlockStatus = Blocked | Unblocked

  datatype BlockEntry = BlockEntry(blockedTo: Id, blockedBy: Id, status: BlockStatus)

  datatype DirectMessage = DirectMessage(senderId: Id, text: string)

  /** A direct chat document: the two participants and the message history. */
  datatype Chat = Chat(participants: seq<Id>, messages: seq<DirectMessage>)

  datatype RoomMessage = RoomMessage(senderId: Id, text: string, fileUrl: Option<string>, fileType: Option<string>)

  /** A chat room document. `password` is the schema's hashed access secret. */
  datatype ChatRoom = ChatRoom(name: string, password: Option<string>, users: seq<Id>, messages: seq<RoomMessage>)

  /** A snapshot of every collection. */
  datatype World = World(
    users: map<Id, User>,
    requests: seq<ConnectionRequest>,
    blocks: seq<BlockEntry>,
    chats: seq<Chat>,
    rooms: map<Id, ChatRoom>,
    posts: seq<Post>,
    clock: nat)

  // ---- connection requests ----

  /** The request links `a` and `b`, in either direction. */
  predicate Between(r: ConnectionRequest, a: Id, b: Id)
  {
    (r.fromUserId == a && r.toUserId == b) || (r.fromUserId == b && r.toUserId == a)
  }

  /** Two requests concern the same unordered pair of users. */
  predicate SamePair(r: ConnectionRequest, q: ConnectionRequest)
  {
    Between(q, r.fromUserId, r.toUserId)
  }

  /** At most one request per unordered pair of users. */
  predicate OnePerPair(rs: seq<ConnectionRequest>)
  {
    forall i, j :: 0 <= i < j < |rs| ==> !SamePair(rs[i], rs[j])
  }

  predicate RequestIdsDistinct(rs: seq<ConnectionRequest>)
  {
    forall i, j :: 0 <= i < j < |rs| ==> rs[i].id != rs[j].id
  }

  /** The first request between `a` and `b` whatever its status (`findOne` with `$or`). */
  function FindBetween(rs: seq<ConnectionRequest>, a: Id, b: Id): Option<nat>
  {
    FirstIndex(rs, (r: ConnectionRequest) => Between(r, a, b))
  }

  /** The first accepted request between `a` and `b`. */
  function FindAcceptedBetween(rs: seq<ConnectionRequest>, a: Id, b: Id): Option<nat>
  {
    FirstIndex(rs, (r: ConnectionRequest) => Between(r, a, b) && r.status == Accepted)
  }

  /** Under `OnePerPair`, the request between two users, if any, is the only one. */
  lemma OnePerPairUnique(rs: seq<ConnectionRequest>, a: Id, b: Id, i: nat, j: nat)
    requires OnePerPair(rs)
    requires i < |rs| && j < |rs| && Between(rs[i], a, b) && Between(rs[j], a, b)
    ensures i == j
  {
    if i < j {
      assert SamePair(rs[i], rs[j]);
    } else if j < i {
      assert SamePair(rs[j], rs[i]);
    }
  }

  // ---- direct chats ----

  /** `participants: { $all: [a, b] }`: the chat lists both users. */
  predicate HoldsBoth(c: Chat, a: Id, b: Id)
  {
    a in c.participants && b in c.participants
  }

  /** The first chat listing both users. */
  function FindChat(chats: seq<Chat>, a: Id, b: Id): Option<nat>
  {
    FirstIndex(chats, (c: Chat) => HoldsBoth(c, a, b))
  }

  /** The lookup does not depend on which of the two users asks. */
  lemma FindChatSymmetric(chats: seq<Chat>, a: Id, b: Id)
    ensures FindChat(chats, a, b) == FindChat(chats, b, a)
  {
    var r, q := FindChat(chats, a, b), FindChat(chats, b, a);
    if r.Some? {
      assert HoldsBoth(chats[r.value], b, a);
    }
    if q.Some? {
      assert HoldsBoth(chats[q.value], a, b);
    }
  }

  /** A chat appended to a store that had none for the pair is the one the lookup finds. */
  lemma FindChatAppended(chats: seq<Chat>, c: Chat, a: Id, b: Id)
    requires FindChat(chats, a, b).None? && HoldsBoth(c, a, b)
    ensures FindChat(chats + [c], a, b) == Some(|chats|)
  {
    var t := chats + [c];
    assert forall k :: 0 <= k < |chats| ==> t[k] == chats[k];
    assert HoldsBoth(t[|chats|], a, b);
  }

  /** Changing the messages of the chat the lookup finds leaves the lookup where it was. */
  lemma FindChatAfterUpdate(chats: seq<Chat>, t: seq<Chat>, i: nat, a: Id, b: Id)
    requires FindChat(chats, a, b) == Some(i)
    requires |t| == |chats| && t[i].participants == chats[i].participants
    requires forall k :: 0 <= k < |chats| && k != i ==> t[k] == chats[k]
    ensures FindChat(t, a, b) == Some(i)
  {
    assert HoldsBoth(t[i], a, b);
    assert forall k :: 0 <= k < i ==> t[k] == chats[k];
  }

  /** Two chats have the same participant set. */
  predicate SameParticipants(c: Chat, d: Chat)
  {
    |c.participants| == 2 && |d.participants| == 2
    && HoldsBoth(d, c.participants[0], c.participants[1])
    && HoldsBoth(c, d.participants[0], d.participants[1])
  }

  /** Every chat has two participants and no two chats have the same ones. */
  predicate ChatsWellFormed(chats: seq<Chat>)
  {
    && (forall i :: 0 <= i < |chats| ==> |chats[i].participants| == 2)
    && (forall i, j :: 0 <= i < j < |chats| ==> !SameParticipants(chats[i], chats[j]))
  }

  /** For two different users there is at most one chat listing both. */
  lemma ChatForPairUnique(chats: seq<Chat>, a: Id, b: Id, i: nat, j: nat)
    requires ChatsWellFormed(chats) && a != b
    requires i < |chats| && j < |chats| && HoldsBoth(chats[i], a, b) && HoldsBoth(chats[j], a, b)
    ensures i == j
  {
    if i != j {
      var lo, hi := if i < j then i else j, if i < j then j else i;
      assert SameParticipants(chats[lo], chats[hi]);
    }
  }

  // ---- chat rooms ----

  /** The schema's rule that holds of every stored room: a non-empty (required) name. */
  predicate RoomValid(r: ChatRoom)
  {
    r.name != ""
  }

  /** Every room is valid and room names are unique (the `unique` index). */
  predicate RoomsWellFormed(rooms: map<Id, ChatRoom>)
  {
    && (forall id :: id in rooms ==> RoomValid(rooms[id]))
    && (forall id1, id2 :: id1 in rooms && id2 in rooms && id1 != id2 ==> rooms[id1].name != rooms[id2].name)
  }

  /** The id of a room with the given name, if any (`findOne({ name })`). */
  predicate NameTaken(rooms: map<Id, ChatRoom>, name: string)
  {
    exists id :: id in rooms && rooms[id].name == name
  }

  // ---- posts ----

  /** The first post with the given id (`findById`). */
  function FindPost(posts: seq<Post>, id: Id): Option<nat>
  {
    FirstIndex(posts, (p: Post) => p.id == id)
  }

  /** Posts are schema-valid, have distinct ids and no repeated like, and were created in order, before `clock`. */
  predicate PostsWellFormed(posts: seq<Post>, clock: nat)
  {
    && (forall i :: 0 <= i < |posts| ==> ValidPost(posts[i]) && NoDup(posts[i].likes) && posts[i].createdAt < clock)
    && (forall i, j :: 0 <= i < j < |posts| ==> posts[i].id != posts[j].id && posts[i].createdAt < posts[j].createdAt)
  }

  // ---- the whole store ----

  predicate UsersWellFormed(users: map<Id, User>)
  {
    forall id :: id in users ==> ValidUser(users[id])
  }

  /** The invariant every handler preserves. */
  predicate ValidWorld(w: World)
  {
    && UsersWellFormed(w.users)
    && OnePerPair(w.requests) && RequestIdsDistinct(w.requests)
    && ChatsWellFormed(w.chats)
    && RoomsWellFormed(w.rooms)
    && PostsWellFormed(w.posts, w.clock)
  }

  // ---- what each kind of update does to the invariant ----

  /** No stored request has this id (a fresh ObjectId). */
  predicate FreshRequestId(rs: seq<ConnectionRequest>, id: Id)
  {
    forall r :: r in rs ==> r.id != id
  }

  /** A new request for a pair without one, under a fresh id, keeps the request invariants. */
  lemma RequestsAppend(rs: seq<ConnectionRequest>, q: ConnectionRequest)
    requires OnePerPair(rs) && RequestIdsDistinct(rs)
    requires FindBetween(rs, q.fromUserId, q.toUserId).None? && FreshRequestId(rs, q.id)
    ensures OnePerPair(rs + [q]) && RequestIdsDistinct(rs + [q])
  {
    var t := rs + [q];
    forall i, j | 0 <= i < j < |t|
      ensures !SamePair(t[i], t[j]) && t[i].id != t[j].id
    {
      if j == |rs| {
        assert !Between(rs[i], q.fromUserId, q.toUserId);
        assert rs[i] in rs;
      }
    }
  }

  /** Changing the status of one request keeps the request invariants. */
  lemma RequestsSetStatus(rs: seq<ConnectionRequest>, i: nat, st: RequestStatus)
    requires OnePerPair(rs) && RequestIdsDistinct(rs) && i < |rs|
    ensures OnePerPair(rs[i := rs[i].(status := st)]) && RequestIdsDistinct(rs[i := rs[i].(status := st)])
  {
    var t := rs[i := rs[i].(status := st)];
    forall a, b | 0 <= a < b < |t|
      ensures !SamePair(t[a], t[b]) && t[a].id != t[b].id
    {
      assert SamePair(t[a], t[b]) == SamePair(rs[a], rs[b]);
    }
  }

  /** Deleting one request keeps the request invariants. */
  lemma RequestsRemoveAt(rs: seq<ConnectionRequest>, i: nat)
    requires OnePerPair(rs) && RequestIdsDistinct(rs) && i < |rs|
    ensures OnePerPair(RemoveAt(rs, i)) && RequestIdsDistinct(RemoveAt(rs, i))
  {
    var t := RemoveAt(rs, i);
    forall a, b | 0 <= a < b < |t|
      ensures !SamePair(t[a], t[b]) && t[a].id != t[b].id
    {
      var a', b' := if a < i then a else a + 1, if b < i then b else b + 1;
      assert t[a] == rs[a'] && t[b] == rs[b'];
    }
  }

  /** A new chat for a pair that has none keeps the chat invariants. */
  lemma ChatsAppend(chats: seq<Chat>, a: Id, b: Id, msgs: seq<DirectMessage>)
    requires ChatsWellFormed(chats) && FindChat(chats, a, b).None?
    ensures ChatsWellFormed(chats + [Chat([a, b], msgs)])
  {
    var t := chats + [Chat([a, b], msgs)];
    forall i, j | 0 <= i < j < |t|
      ensures !SameParticipants(t[i], t[j])
    {
      if j == |chats| {
        assert !HoldsBoth(chats[i], a, b);
        assert t[j].participants[0] == a && t[j].participants[1] == b;
      }
    }
  }

  /** A new message history for one chat keeps the chat invariants. */
  lemma ChatsSetMessages(chats: seq<Chat>, i: nat, msgs: seq<DirectMessage>)
    requires ChatsWellFormed(chats) && i < |chats|
    ensures ChatsWellFormed(chats[i := chats[i].(messages := msgs)])
  {
    var t := chats[i := chats[i].(messages := msgs)];
    forall a, b | 0 <= a < b < |t|
      ensures !SameParticipants(t[a], t[b])
    {
      assert t[a].participants == chats[a].participants && t[b].participants == chats[b].participants;
    }
  }

  /** A valid room under a new id and an unused name keeps the room invariants. */
  lemma RoomsAdd(rooms: map<Id, ChatRoom>, id: Id, room: ChatRoom)
    requires RoomsWellFormed(rooms) && id !in rooms
    requires RoomValid(room) && !NameTaken(rooms, room.name)
    ensures RoomsWellFormed(rooms[id := room])
  {
  }

  /** Changing a room's members or messages keeps the room invariants. */
  lemma RoomsUpdate(rooms: map<Id, ChatRoom>, id: Id, room: ChatRoom)
    requires RoomsWellFormed(rooms) && id in rooms && room.name == rooms[id].name
    ensures RoomsWellFormed(rooms[id := room])
  {
  }

  /** A valid post created now, under a fresh id, keeps the post invariants once the clock moves on. */
  lemma PostsAppend(posts: seq<Post>, clock: nat, p: Post)
    requires PostsWellFormed(posts, clock)
    requires ValidPost(p) && NoDup(p.likes) && p.createdAt == clock && FindPost(posts, p.id).None?
    ensures PostsWellFormed(posts + [p], clock + 1)
  {
    var t := posts + [p];
    forall i, j | 0 <= i < j < |t|
      ensures t[i].id != t[j].id && t[i].createdAt < t[j].createdAt
    {
      if j == |posts| {
        assert posts[i].id != p.id;
      }
    }
  }

  /** A valid replacement with the same id and creation time keeps the post invariants. */
  lemma PostsReplace(posts: seq<Post>, clock: nat, i: nat, p: Post)
    requires PostsWellFormed(posts, clock) && i < |posts|
    requires ValidPost(p) && NoDup(p.likes) && p.id == posts[i].id && p.createdAt == posts[i].createdAt
    ensures PostsWellFormed(posts[i := p], clock)
  {
  }

  /** Deleting one post keeps the post invariants. */
  lemma PostsRemoveAt(posts: seq<Post>, clock: nat, i: nat)
    requires PostsWellFormed(posts, clock) && i < |posts|
    ensures PostsWellFormed(RemoveAt(posts, i), clock)
  {
    var t := RemoveAt(posts, i);
    forall a, b | 0 <= a < b < |t|
      ensures t[a].id != t[b].id && t[a].createdAt < t[b].createdAt
    {
      var a', b' := if a < i then a else a + 1, if b < i then b else b + 1;
      assert t[a] == posts[a'] && t[b] == posts[b'];
    }
  }

  /** Replacing the posts and the clock by well-formed ones keeps the store invariant. */
  lemma ValidWithPosts(w: World, posts: seq<Post>, clock: nat)
    requires ValidWorld(w) && PostsWellFormed(posts, clock)
    ensures ValidWorld(w.(posts := posts, clock := clock))
  {
  }

  class Store {
    var users: map<Id, User>
    var requests: seq<ConnectionRequest>
    var blocks: seq<BlockEntry>
    var chats: seq<Chat>
    var rooms: map<Id, ChatRoom>
    var posts: seq<Post>
    var clock: nat

    /** The current contents of every collection. */
    function Snapshot(): World
      reads this
    {
      World(users, requests, blocks, chats, rooms, posts, clock)
    }

    ghost predicate Valid()
      reads this
    {
      ValidWorld(Snapshot())
    }

    /** An empty database. */
    constructor ()
      ensures Valid()
      ensures users == map[] && requests == [] && blocks == [] && chats == []
      ensures rooms == map[] && posts == [] && clock == 0
    {
      users := map[];
      requests := [];
      blocks := [];
      chats := [];
      rooms := map[];
      posts := [];
      clock := 0;
    }

    /** Several collections saved at once: the store becomes `w`, which keeps the invariant. */
    method Commit(w: World)
      requires ValidWorld(w)
      modifies this
      ensures Valid() && Snapshot() == w
    {
      users, requests, blocks, chats, rooms, posts, clock := w.users, w.requests, w.blocks, w.chats, w.rooms, w.posts, w.clock;
    }

    /** `save()` of a new valid post under a fresh id: it goes at the end, created now, and the clock moves on. */
    method InsertPost(p: Post)
      requires Valid() && ValidPost(p) && NoDup(p.likes) && p.createdAt == clock && FindPost(posts, p.id).None?
      modifies this
      ensures Valid()
      ensures Snapshot() == old(Snapshot()).(posts := old(posts) + [p], clock := old(clock) + 1)
    {
      var w := Snapshot();
      PostsAppend(posts, clock, p);
      ValidWithPosts(w, posts + [p], clock + 1);
      posts, clock := posts + [p], clock + 1;
    }

    /** `save()` of a stored post changed in place: same id and creation time, still valid. */
    method ReplacePost(i: nat, p: Post)
      requires Valid() && i < |posts|
      requires ValidPost(p) && NoDup(p.likes) && p.id == posts[i].id && p.createdAt == posts[i].createdAt
      modifies this
      ensures Valid()
      ensures Snapshot() == old(Snapshot()).(posts := old(posts)[i := p])
    {
      var w := Snapshot();
      PostsReplace(posts, clock, i, p);
      ValidWithPosts(w, posts[i := p], clock);
      posts := posts[i := p];
    }
  }
}
