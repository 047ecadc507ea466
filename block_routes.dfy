/**
 * `/block/:blockUserId` (src/routes/blockUser.js): the same chain of checks
 * as `isUserBlocked`, answered with the same statuses, then the removal of
 * an accepted connection between the two users, the two `$addToSet`
 * updates and a new block entry. The route runs after `userAuth`, so the
 * caller's own record exists.
 */
module BlockRoutes {
  import opened Common
  import opened UserSchema
  import opened Store
  import opened BlockingStatus

  /**
   * The two `$addToSet` updates in their order: the blocker's `blockedTo`
   * gains the target, then the target's `blockedBy` gains the blocker. Every
   * other field and every other user is left alone.
   */
  function MarkBlocked(users: map<Id, User>, blocker: Id, target: Id): (r: map<Id, User>)
    requires blocker in users && target in users
    ensures r.Keys == users.Keys
    ensures r[blocker].blockedTo == AddToSet(users[blocker].blockedTo, target)
    ensures r[target].blockedBy == AddToSet(users[target].blockedBy, blocker)
    ensures forall id :: id in users && id != blocker && id != target ==> r[id] == users[id]
    ensures forall id :: id in users ==>
      r[id] == users[id].(blockedTo := r[id].blockedTo, blockedBy := r[id].blockedBy)
    ensures forall id :: id in users ==>
      (NoDup(users[id].blockedTo) ==> NoDup(r[id].blockedTo))
      && (NoDup(users[id].blockedBy) ==> NoDup(r[id].blockedBy))
  {
    var first := users[blocker := users[blocker].(blockedTo := AddToSet(users[blocker].blockedTo, target))];
    first[target := first[target].(blockedBy := AddToSet(first[target].blockedBy, blocker))]
  }

  /** `findOneAndDelete` of the first accepted request between the two users, if there is one. */
  function DropAccepted(rs: seq<ConnectionRequest>, a: Id, b: Id): (r: seq<ConnectionRequest>)
    ensures FindAcceptedBetween(rs, a, b).None? ==> r == rs
    ensures FindAcceptedBetween(rs, a, b).Some? ==> |r| == |rs| - 1
  {
    match FindAcceptedBetween(rs, a, b)
    case None => rs
    case Some(i) => RemoveAt(rs, i)
  }

  /**
   * With at most one request per pair, deleting the first accepted one leaves
   * the two users with no accepted connection; every other request stays, and
   * nothing is added.
   */
  lemma DropAcceptedLeavesNone(rs: seq<ConnectionRequest>, a: Id, b: Id)
    requires OnePerPair(rs)
    ensures FindAcceptedBetween(DropAccepted(rs, a, b), a, b).None?
    ensures forall q :: q in DropAccepted(rs, a, b) ==> q in rs
    ensures forall q :: q in rs && !(Between(q, a, b) && q.status == Accepted) ==> q in DropAccepted(rs, a, b)
  {
    var found := FindAcceptedBetween(rs, a, b);
    if found.Some? {
      var i := found.value;
      var t := RemoveAt(rs, i);
      forall k | 0 <= k < |t|
        ensures !(Between(t[k], a, b) && t[k].status == Accepted)
      {
        var k' := if k < i then k else k + 1;
        assert t[k] == rs[k'];
        if Between(rs[k'], a, b) {
          OnePerPairUnique(rs, a, b, i, k');
        }
      }
      forall q | q in rs && !(Between(q, a, b) && q.status == Accepted)
        ensures q in t
      {
        var k :| 0 <= k < |rs| && rs[k] == q;
        assert k != i;
        if k < i {
          assert t[k] == q;
        } else {
          assert t[k - 1] == q;
        }
      }
    }
  }

  /** The world after a successful block of `target` by `caller`. */
  function AfterBlock(w: World, caller: Id, target: Id): World
    requires caller in w.users && target in w.users
  {
    w.(users := MarkBlocked(w.users, caller, target),
       requests := DropAccepted(w.requests, caller, target),
       blocks := w.blocks + [BlockEntry(target, caller, Blocked)])
  }

  /** A block keeps the store invariant. */
  lemma AfterBlockValid(w: World, caller: Id, target: Id)
    requires ValidWorld(w) && caller in w.users && target in w.users
    ensures ValidWorld(AfterBlock(w, caller, target))
  {
    var found := FindAcceptedBetween(w.requests, caller, target);
    if found.Some? {
      RequestsRemoveAt(w.requests, found.value);
    }
    var users := MarkBlocked(w.users, caller, target);
    forall id | id in users
      ensures ValidUser(users[id])
    {
      assert users[id] == w.users[id].(blockedTo := users[id].blockedTo, blockedBy := users[id].blockedBy);
    }
  }

  /**
   * After a block the two users have no accepted connection, and
   * `isUserBlocked` refuses requests between them in both directions.
   */
  lemma AfterBlockSeparates(w: World, caller: Id, target: Id)
    requires OnePerPair(w.requests) && caller in w.users && target in w.users
    ensures FindAcceptedBetween(AfterBlock(w, caller, target).requests, caller, target).None?
    ensures IsUserBlocked(AfterBlock(w, caller, target), caller, Some(target), true) == Halt(BAD_REQUEST)
    ensures IsUserBlocked(AfterBlock(w, caller, target), target, Some(caller), true) == Halt(BAD_REQUEST)
  {
    DropAcceptedLeavesNone(w.requests, caller, target);
    var v := AfterBlock(w, caller, target);
    var entry := BlockEntry(target, caller, Blocked);
    assert entry in v.blocks;
    assert HasBlockEntry(v.blocks, target, caller);
    assert ListedAsBlockedBy(v.users, target, caller);
  }

  /**
   * The block handler. Any check of `isUserBlocked` that fires answers here
   * with the same status and changes nothing. Otherwise: the accepted
   * connection between the two users, if any, is deleted; the two `$addToSet`
   * updates run; one block entry with status "blocked" is stored; 200.
   */
  method BlockUser(s: Store, caller: Id, target: Id, castable: bool) returns (code: int)
    requires s.Valid() && caller in s.users
    modifies s
    ensures s.Valid()
    ensures IsUserBlocked(old(s.Snapshot()), caller, Some(target), castable).Halt? ==>
      code == IsUserBlocked(old(s.Snapshot()), caller, Some(target), castable).code
      && s.Snapshot() == old(s.Snapshot())
    ensures code == OK <==> IsUserBlocked(old(s.Snapshot()), caller, Some(target), castable) == Next
    ensures code == OK ==> target in old(s.users) && s.Snapshot() == AfterBlock(old(s.Snapshot()), caller, target)
  {
    var gate := IsUserBlocked(s.Snapshot(), caller, Some(target), castable);
    if gate.Halt? {
      return gate.code;
    }
    var after := AfterBlock(s.Snapshot(), caller, target);
    AfterBlockValid(s.Snapshot(), caller, target);
    s.Commit(after);
    code := OK;
  }
}
