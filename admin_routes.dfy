/**
 * Account management for administrators (src/routes/admin.js). Every route
 * runs `userAuth`, which admitted `caller`, then `adminRole`, which answers
 * anyone but an administrator with 400 before the handler runs. A user id
 * that `mongoose.isValidObjectId` refuses is 400 before any lookup; whether
 * it is valid is `validId`.
 */
module AdminRoutes {
  import opened Common
  import opened UserSchema
  import opened Store
  import opened AuthGate

  /**
   * The handler shared by `/admin/block/:userId` and `/admin/unblock/:userId`,
   * which differ only in the value they set: an unknown user is 404, an
   * administrator cannot be (un)blocked, 403; otherwise `isDeactivated` is set
   * and nothing else about the user, or anyone else, changes.
   */
  method SetDeactivated(s: Store, userId: Id, validId: bool, deactivated: bool) returns (code: int)
    requires s.Valid()
    modifies s
    ensures s.Valid()
    ensures code == BAD_REQUEST <==> !validId
    ensures code == NOT_FOUND <==> validId && userId !in old(s.users)
    ensures code == FORBIDDEN <==> validId && userId in old(s.users) && old(s.users)[userId].role == AdminRole
    ensures code == OK <==> validId && userId in old(s.users) && old(s.users)[userId].role != AdminRole
    ensures code == OK ==> s.Snapshot() == old(s.Snapshot()).(users :=
      old(s.users)[userId := old(s.users)[userId].(isDeactivated := deactivated)])
    ensures code == OK ==> s.users[userId].isDeactivated == deactivated
    ensures code != OK ==> s.Snapshot() == old(s.Snapshot())
  {
    if !validId {
      return BAD_REQUEST;
    }
    if userId !in s.users {
      return NOT_FOUND;
    }
    if s.users[userId].role == AdminRole {
      return FORBIDDEN;
    }
    s.users := s.users[userId := s.users[userId].(isDeactivated := deactivated)];
    code := OK;
  }

  /** `/admin/block/:userId`: the gate, then `isDeactivated := true`. */
  method BlockAccount(s: Store, caller: User, userId: Id, validId: bool) returns (code: int)
    requires s.Valid()
    modifies s
    ensures s.Valid()
    ensures code == BAD_REQUEST <==> caller.role != AdminRole || !validId
    ensures code == NOT_FOUND <==> caller.role == AdminRole && validId && userId !in old(s.users)
    ensures code == FORBIDDEN <==>
      caller.role == AdminRole && validId && userId in old(s.users) && old(s.users)[userId].role == AdminRole
    ensures code == OK <==>
      caller.role == AdminRole && validId && userId in old(s.users) && old(s.users)[userId].role != AdminRole
    ensures code == OK ==> s.Snapshot() == old(s.Snapshot()).(users :=
      old(s.users)[userId := old(s.users)[userId].(isDeactivated := true)])
    ensures code != OK ==> s.Snapshot() == old(s.Snapshot())
  {
    var gate := AdminGate(Some(caller));
    if gate.Halt? {
      return gate.code;
    }
    code := SetDeactivated(s, userId, validId, true);
  }

  /** `/admin/unblock/:userId`: the gate, then `isDeactivated := false`. */
  method UnblockAccount(s: Store, caller: User, userId: Id, validId: bool) returns (code: int)
    requires s.Valid()
    modifies s
    ensures s.Valid()
    ensures code == BAD_REQUEST <==> caller.role != AdminRole || !validId
    ensures code == NOT_FOUND <==> caller.role == AdminRole && validId && userId !in old(s.users)
    ensures code == FORBIDDEN <==>
      caller.role == AdminRole && validId && userId in old(s.users) && old(s.users)[userId].role == AdminRole
    ensures code == OK <==>
      caller.role == AdminRole && validId && userId in old(s.users) && old(s.users)[userId].role != AdminRole
    ensures code == OK ==> s.Snapshot() == old(s.Snapshot()).(users :=
      old(s.users)[userId := old(s.users)[userId].(isDeactivated := false)])
    ensures code != OK ==> s.Snapshot() == old(s.Snapshot())
  {
    var gate := AdminGate(Some(caller));
    if gate.Halt? {
      return gate.code;
    }
    code := SetDeactivated(s, userId, validId, false);
  }

  /** Blocking twice leaves the store as blocking once, and both calls answer alike. */
  method BlockTwice(s: Store, caller: User, userId: Id, validId: bool) returns (first: int, second: int)
    requires s.Valid()
    modifies s
    ensures second == first
    ensures first == OK ==> userId in old(s.users) && s.Snapshot() == old(s.Snapshot()).(users :=
      old(s.users)[userId := old(s.users)[userId].(isDeactivated := true)])
    ensures first != OK ==> s.Snapshot() == old(s.Snapshot())
  {
    first := BlockAccount(s, caller, userId, validId);
    second := BlockAccount(s, caller, userId, validId);
  }

  /** Unblocking twice leaves the store as unblocking once, and both calls answer alike. */
  method UnblockTwice(s: Store, caller: User, userId: Id, validId: bool) returns (first: int, second: int)
    requires s.Valid()
    modifies s
    ensures second == first
    ensures first == OK ==> userId in old(s.users) && s.Snapshot() == old(s.Snapshot()).(users :=
      old(s.users)[userId := old(s.users)[userId].(isDeactivated := false)])
    ensures first != OK ==> s.Snapshot() == old(s.Snapshot())
  {
    first := UnblockAccount(s, caller, userId, validId);
    second := UnblockAccount(s, caller, userId, validId);
  }

  /**
   * Blocking and then unblocking leaves the user active, with the rest of the
   * record as it was; a user who was active before is back exactly as before.
   */
  method BlockThenUnblock(s: Store, caller: User, userId: Id, validId: bool) returns (first: int, second: int)
    requires s.Valid()
    modifies s
    ensures second == first
    ensures first == OK ==> (
      && userId in old(s.users) && userId in s.users
      && s.users[userId] == old(s.users)[userId].(isDeactivated := false)
      && (!old(s.users)[userId].isDeactivated ==> s.Snapshot() == old(s.Snapshot())))
    ensures first == OK ==> s.Snapshot() == old(s.Snapshot()).(users :=
      old(s.users)[userId := old(s.users)[userId].(isDeactivated := false)])
    ensures first != OK ==> s.Snapshot() == old(s.Snapshot())
  {
    first := BlockAccount(s, caller, userId, validId);
    second := UnblockAccount(s, caller, userId, validId);
  }

  /** `/admin/get`: the ids of exactly the users whose role is `user`, or 404 when there are none. */
  function ListUsers(w: World, caller: User): (r: (int, set<Id>))
    ensures caller.role != AdminRole ==> r == (BAD_REQUEST, {})
    ensures caller.role == AdminRole ==>
      forall id :: id in r.1 <==> id in w.users && w.users[id].role == UserRole
    ensures caller.role == AdminRole ==>
      (r.0 == NOT_FOUND <==> forall id :: id in w.users ==> w.users[id].role != UserRole)
    ensures r.0 == OK || r.0 == NOT_FOUND || r.0 == BAD_REQUEST
  {
    if AdminGate(Some(caller)).Halt? then (BAD_REQUEST, {})
    else
      var found := set id | id in w.users && w.users[id].role == UserRole;
      if found == {} then (NOT_FOUND, {}) else (OK, found)
  }

  /** `/admin/get/:userId`: the stored user, or 400 for a malformed id, 404 for an unknown one. */
  function GetUser(w: World, caller: User, userId: Id, validId: bool): (r: (int, Option<User>))
    ensures r.0 == OK <==> caller.role == AdminRole && validId && userId in w.users
    ensures r.0 == OK ==> r.1 == Some(w.users[userId])
    ensures r.0 != OK ==> r.1.None?
    ensures r.0 == NOT_FOUND <==> caller.role == AdminRole && validId && userId !in w.users
    ensures r.0 == BAD_REQUEST <==> caller.role != AdminRole || !validId
  {
    if AdminGate(Some(caller)).Halt? then (BAD_REQUEST, None)
    else if !validId then (BAD_REQUEST, None)
    else if userId !in w.users then (NOT_FOUND, None)
    else (OK, Some(w.users[userId]))
  }

  /**
   * `/admin/delete/:userId`: the user is removed whatever their role (the
   * handler has no administrator guard of its own), or 404 when absent.
   */
  method DeleteUser(s: Store, caller: User, userId: Id, validId: bool) returns (code: int)
    requires s.Valid()
    modifies s
    ensures s.Valid()
    ensures code == BAD_REQUEST <==> caller.role != AdminRole || !validId
    ensures code == NOT_FOUND <==> caller.role == AdminRole && validId && userId !in old(s.users)
    ensures code == OK <==> caller.role == AdminRole && validId && userId in old(s.users)
    ensures code == OK ==> s.Snapshot() == old(s.Snapshot()).(users := old(s.users) - {userId})
    ensures code == OK ==> userId !in s.users && s.users.Keys == old(s.users).Keys - {userId}
    ensures code != OK ==> s.Snapshot() == old(s.Snapshot())
  {
    var gate := AdminGate(Some(caller));
    if gate.Halt? {
      return gate.code;
    }
    if !validId {
      return BAD_REQUEST;
    }
    if userId !in s.users {
      return NOT_FOUND;
    }
    s.users := s.users - {userId};
    code := OK;
  }
}
