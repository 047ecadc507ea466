/**
 * The two request gates: `userAuth` (src/middlewares/auth.js), which admits
 * a request carrying a valid session cookie for an active account, and
 * `adminRole` (src/middlewares/admin.js), which admits administrators only.
 * `jwt.verify` is not modelled: it is the function value `verify`.
 */
module AuthGate {
  import opened Common
  import opened UserSchema

  /** What `jwt.verify` yields: the decoded `_id`, or a thrown error. */
  datatype Decoded = Decoded(userId: Id) | Invalid

  /** The outcome of `userAuth`: `req.user` set and `next()` called, or an answer with a status. */
  datatype AuthOutcome = Admit(userId: Id) | Deny(code: int)

  /**
   * The checks of `userAuth` in their order; `tokenOf` reads the session
   * token stored with a user. A thrown `jwt.verify` is caught and answered
   * with 401, like every other failed check but the last.
   */
  function AuthChain(users: map<Id, User>, cookie: Option<string>, verify: string -> Decoded,
                     tokenOf: User -> Option<string>): AuthOutcome
  {
    if !Truthy(cookie) then Deny(UNAUTHORIZED)
    else match verify(cookie.value)
      case Invalid => Deny(UNAUTHORIZED)
      case Decoded(id) =>
        if id !in users then Deny(UNAUTHORIZED)
        else if tokenOf(users[id]) != cookie then Deny(UNAUTHORIZED)
        else if users[id].isDeactivated then Deny(FORBIDDEN)
        else Admit(id)
  }

  /**
   * `userAuth` as written. The user schema declares no `token` path and
   * login never stores one, so `user.token` reads `undefined`, which never
   * equals a cookie that passed the first check: every request is refused.
   */
  function UserAuthAsWritten(users: map<Id, User>, cookie: Option<string>, verify: string -> Decoded): (r: AuthOutcome)
    ensures r == Deny(UNAUTHORIZED)
  {
    AuthChain(users, cookie, verify, (u: User) => None)
  }

  /**
   * `userAuth` with the session token the gate compares against stored on
   * the user: it admits exactly a non-empty cookie that verifies to a known,
   * active user whose stored token is that cookie, and admits that user.
   */
  function UserAuth(users: map<Id, User>, cookie: Option<string>, verify: string -> Decoded): (r: AuthOutcome)
    ensures r.Admit? <==>
      Truthy(cookie) && verify(cookie.value).Decoded? && verify(cookie.value).userId in users
      && users[verify(cookie.value).userId].token == cookie
      && !users[verify(cookie.value).userId].isDeactivated
    ensures r.Admit? ==> r.userId == verify(cookie.value).userId && r.userId in users
    ensures r == Deny(FORBIDDEN) <==>
      Truthy(cookie) && verify(cookie.value).Decoded? && verify(cookie.value).userId in users
      && users[verify(cookie.value).userId].token == cookie
      && users[verify(cookie.value).userId].isDeactivated
    ensures r.Deny? ==> r.code == UNAUTHORIZED || r.code == FORBIDDEN
  {
    AuthChain(users, cookie, verify, (u: User) => u.token)
  }

  /** A deactivated account is refused only once its session token has matched. */
  lemma DeactivatedNeedsSession(users: map<Id, User>, cookie: Option<string>, verify: string -> Decoded)
    requires Truthy(cookie) && verify(cookie.value).Decoded? && verify(cookie.value).userId in users
    requires users[verify(cookie.value).userId].isDeactivated
    ensures UserAuth(users, cookie, verify) == Deny(FORBIDDEN) <==> users[verify(cookie.value).userId].token == cookie
    ensures users[verify(cookie.value).userId].token != cookie ==> UserAuth(users, cookie, verify) == Deny(UNAUTHORIZED)
  {
  }

  /**
   * `adminRole`: a caller whose role is not "admin" is answered with 400, not
   * 403; a missing `req.user` throws inside the gate and is answered with 400
   * as well.
   */
  function AdminGate(caller: Option<User>): (r: Gate)
    ensures r == Next <==> caller.Some? && caller.value.role == AdminRole
    ensures r.Halt? ==> r.code == BAD_REQUEST
  {
    if caller.None? then Halt(BAD_REQUEST)
    else if caller.value.role != AdminRole then Halt(BAD_REQUEST)
    else Next
  }
}
