/**
 * `isUserBlocked` (src/middlewares/checkblokingStatus.js): a chain of
 * read-only lookups that either lets a request through to the handler or
 * answers it. A malformed target id makes the first lookup throw a cast
 * error; whether the id casts is the input `castable`.
 */
module BlockingStatus {
  import opened Common
  import opened UserSchema
  import opened Store

  /** `req.params.blockUserId || req.params.toUserId`. */
  function TargetParam(blockUserId: Option<Id>, toUserId: Option<Id>): Option<Id>
  {
    if Truthy(blockUserId) then blockUserId else toUserId
  }

  /** A block entry recording that `blocker` blocked `target` exists, whatever its status. */
  predicate HasBlockEntry(blocks: seq<BlockEntry>, target: Id, blocker: Id)
  {
    exists e :: e in blocks && e.blockedTo == target && e.blockedBy == blocker
  }

  /** `User.findOne({ _id: id, blockedBy: blocker })` finds a user. */
  predicate ListedAsBlockedBy(users: map<Id, User>, id: Id, blocker: Id)
  {
    id in users && blocker in users[id].blockedBy
  }

  /** None of the three blocking relations holds between the caller and the target. */
  predicate NoBlockBetween(w: World, caller: Id, target: Id)
  {
    !HasBlockEntry(w.blocks, target, caller)
    && !ListedAsBlockedBy(w.users, target, caller)
    && !ListedAsBlockedBy(w.users, caller, target)
  }

  /**
   * The middleware's decision. An absent target finds no user (404); a
   * target that does not cast throws (500); an unknown target is 404; any
   * blocking relation is 400; otherwise `next()`.
   */
  function IsUserBlocked(w: World, caller: Id, target: Option<Id>, castable: bool): (r: Gate)
    ensures r == Next <==> target.Some? && castable && target.value in w.users && NoBlockBetween(w, caller, target.value)
    ensures r == Halt(NOT_FOUND) <==> target.None? || (castable && target.value !in w.users)
    ensures r == Halt(SERVER_ERROR) <==> target.Some? && !castable
    ensures r == Halt(BAD_REQUEST) <==>
      target.Some? && castable && target.value in w.users && !NoBlockBetween(w, caller, target.value)
  {
    if target.None? then Halt(NOT_FOUND)
    else if !castable then Halt(SERVER_ERROR)
    else if target.value !in w.users then Halt(NOT_FOUND)
    else if !NoBlockBetween(w, caller, target.value) then Halt(BAD_REQUEST)
    else Next
  }

  /** The blocking relations block in both directions: the gate treats caller and target alike. */
  lemma IsUserBlockedSymmetric(w: World, a: Id, b: Id)
    requires a in w.users && b in w.users
    requires !HasBlockEntry(w.blocks, a, b) && !HasBlockEntry(w.blocks, b, a)
    ensures IsUserBlocked(w, a, Some(b), true) == IsUserBlocked(w, b, Some(a), true)
  {
  }
}
