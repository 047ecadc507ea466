/**
 * The connection-request state machine (src/routes/request.js): sending a
 * request (`ignored` or `interested`) and the recipient's review of an
 * `interested` one (`accepted` or `rejected`). Each handler runs after
 * `userAuth` admitted `caller`.
 */
module RequestRoutes {
  import opened Common
  import opened Store
  import opened BlockingStatus

  /** The `:status` values the send route allows. */
  function ParseSendStatus(s: string): (r: Option<RequestStatus>)
    ensures r.Some? <==> s == "ignored" || s == "interested"
    ensures r.Some? ==> r.value == Ignored || r.value == Interested
  {
    if s == "ignored" then Some(Ignored)
    else if s == "interested" then Some(Interested)
    else None
  }

  /** The `:status` values the review route allows. */
  function ParseReviewStatus(s: string): (r: Option<RequestStatus>)
    ensures r.Some? <==> s == "accepted" || s == "rejected"
    ensures r.Some? ==> r.value == Accepted || r.value == Rejected
  {
    if s == "accepted" then Some(Accepted)
    else if s == "rejected" then Some(Rejected)
    else None
  }

  /**
   * The send handler. A target id that does not cast makes `findById` throw;
   * the handler's catch answers 400. A request already linking the two users,
   * in either direction and whatever its status, is refused with 400.
   */
  method SendRequest(s: Store, caller: Id, status: string, toUserId: Id, castable: bool, freshId: Id)
    returns (code: int)
    requires s.Valid() && FreshRequestId(s.requests, freshId)
    modifies s
    ensures s.Valid()
    ensures code == OK <==>
      ParseSendStatus(status).Some? && castable && toUserId in old(s.users)
      && FindBetween(old(s.requests), caller, toUserId).None?
    ensures code == NOT_FOUND <==> ParseSendStatus(status).Some? && castable && toUserId !in old(s.users)
    ensures code == OK || code == BAD_REQUEST || code == NOT_FOUND
    ensures code == OK ==> s.Snapshot() == old(s.Snapshot()).(requests := old(s.requests)
      + [ConnectionRequest(freshId, caller, toUserId, ParseSendStatus(status).value)])
    ensures code != OK ==> s.Snapshot() == old(s.Snapshot())
  {
    var st := ParseSendStatus(status);
    if st.None? {
      return BAD_REQUEST;
    }
    if !castable {
      return BAD_REQUEST;
    }
    if toUserId !in s.users {
      return NOT_FOUND;
    }
    if FindBetween(s.requests, caller, toUserId).Some? {
      return BAD_REQUEST;
    }
    var q := ConnectionRequest(freshId, caller, toUserId, st.value);
    RequestsAppend(s.requests, q);
    s.requests := s.requests + [q];
    code := OK;
  }

  /**
   * The whole send route: `isUserBlocked`, reading its target from
   * `:toUserId`, runs before the handler, so its 404 and 500 answers take
   * precedence over the handler's 404 and 400 for a missing or malformed
   * target.
   */
  method SendRequestRoute(s: Store, caller: Id, status: string, toUserId: Id, castable: bool, freshId: Id)
    returns (code: int)
    requires s.Valid() && FreshRequestId(s.requests, freshId)
    modifies s
    ensures s.Valid()
    ensures IsUserBlocked(old(s.Snapshot()), caller, Some(toUserId), castable).Halt? ==>
      code == IsUserBlocked(old(s.Snapshot()), caller, Some(toUserId), castable).code
    ensures code == OK <==>
      IsUserBlocked(old(s.Snapshot()), caller, Some(toUserId), castable) == Next
      && ParseSendStatus(status).Some? && FindBetween(old(s.requests), caller, toUserId).None?
    ensures code == OK ==> s.Snapshot() == old(s.Snapshot()).(requests := old(s.requests)
      + [ConnectionRequest(freshId, caller, toUserId, ParseSendStatus(status).value)])
    ensures code == OK ==> toUserId in s.users && NoBlockBetween(old(s.Snapshot()), caller, toUserId)
    ensures code != OK ==> s.Snapshot() == old(s.Snapshot())
  {
    var gate := IsUserBlocked(s.Snapshot(), caller, TargetParam(None, Some(toUserId)), castable);
    if gate.Halt? {
      return gate.code;
    }
    code := SendRequest(s, caller, status, toUserId, castable, freshId);
  }

  /** `findOne({ _id: requestId, toUserId: caller, status: "interested" })`. */
  predicate Reviewable(r: ConnectionRequest, caller: Id, requestId: Id)
  {
    r.id == requestId && r.toUserId == caller && r.status == Interested
  }

  function FindReviewable(rs: seq<ConnectionRequest>, caller: Id, requestId: Id): Option<nat>
  {
    FirstIndex(rs, (r: ConnectionRequest) => Reviewable(r, caller, requestId))
  }

  /**
   * The moves a review can make on one request: none, or from `interested`
   * to `accepted` or `rejected`. `ignored`, `accepted` and `rejected` are final.
   */
  predicate ReviewMove(before: ConnectionRequest, after: ConnectionRequest)
  {
    after == before
    || (before.status == Interested && (after.status == Accepted || after.status == Rejected)
        && after == before.(status := after.status))
  }

  /**
   * The review handler: only the recipient of an `interested` request with the
   * given id can move it, and only to `accepted` or `rejected`; the request
   * keeps its id, sender and recipient. A request id that does not cast,
   * `castable` false, makes the lookup throw; the catch then reads an
   * undefined `err` and throws again, so nothing is answered.
   */
  method ReviewRequest(s: Store, caller: Id, status: string, requestId: Id, castable: bool) returns (code: int)
    requires s.Valid()
    modifies s
    ensures s.Valid()
    ensures code == BAD_REQUEST <==> ParseReviewStatus(status).None?
    ensures code == NO_RESPONSE <==> ParseReviewStatus(status).Some? && !castable
    ensures code == NOT_FOUND <==>
      ParseReviewStatus(status).Some? && castable && FindReviewable(old(s.requests), caller, requestId).None?
    ensures code == OK <==>
      ParseReviewStatus(status).Some? && castable && FindReviewable(old(s.requests), caller, requestId).Some?
    ensures code == OK ==>
      var i := FindReviewable(old(s.requests), caller, requestId).value;
      s.Snapshot() == old(s.Snapshot()).(requests :=
        old(s.requests)[i := old(s.requests)[i].(status := ParseReviewStatus(status).value)])
    ensures code != OK ==> s.Snapshot() == old(s.Snapshot())
    ensures |s.requests| == |old(s.requests)|
    ensures forall k :: 0 <= k < |s.requests| ==> ReviewMove(old(s.requests)[k], s.requests[k])
    ensures forall k :: 0 <= k < |s.requests| && s.requests[k] != old(s.requests)[k] ==>
      s.requests[k].toUserId == caller && s.requests[k].id == requestId
  {
    var st := ParseReviewStatus(status);
    if st.None? {
      return BAD_REQUEST;
    }
    if !castable {
      return NO_RESPONSE;
    }
    var found := FindReviewable(s.requests, caller, requestId);
    if found.None? {
      return NOT_FOUND;
    }
    var i := found.value;
    RequestsSetStatus(s.requests, i, st.value);
    s.requests := s.requests[i := s.requests[i].(status := st.value)];
    code := OK;
  }

  /** Successive reviews of one request, each a `ReviewMove` from the one before. */
  predicate ReviewTrace(trace: seq<ConnectionRequest>)
  {
    forall k :: 0 <= k < |trace| - 1 ==> ReviewMove(trace[k], trace[k + 1])
  }

  /** A request that is not `interested` is never moved again by any run of reviews. */
  lemma {:induction false} FinalStatusStays(trace: seq<ConnectionRequest>)
    requires |trace| > 0 && ReviewTrace(trace) && trace[0].status != Interested
    ensures trace[|trace| - 1] == trace[0]
  {
    if |trace| > 1 {
      assert ReviewMove(trace[0], trace[1]);
      assert ReviewTrace(trace[1..]) by {
        forall k | 0 <= k < |trace[1..]| - 1
          ensures ReviewMove(trace[1..][k], trace[1..][k + 1])
        {
          assert ReviewMove(trace[k + 1], trace[k + 2]);
        }
      }
      FinalStatusStays(trace[1..]);
    }
  }

  /**
   * A request is reviewed at most once: along any run of reviews its status
   * changes at most once, from `interested`, and then never again.
   */
  lemma ReviewedAtMostOnce(trace: seq<ConnectionRequest>, i: nat)
    requires ReviewTrace(trace) && i + 1 < |trace| && trace[i + 1] != trace[i]
    ensures trace[i].status == Interested
    ensures trace[|trace| - 1] == trace[i + 1]
    ensures trace[|trace| - 1].status == Accepted || trace[|trace| - 1].status == Rejected
  {
    assert ReviewMove(trace[i], trace[i + 1]);
    var rest := trace[i + 1..];
    assert ReviewTrace(rest) by {
      forall k | 0 <= k < |rest| - 1
        ensures ReviewMove(rest[k], rest[k + 1])
      {
        assert ReviewMove(trace[i + 1 + k], trace[i + 2 + k]);
      }
    }
    FinalStatusStays(rest);
  }
}
