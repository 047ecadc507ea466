/**
 * The read-only queries of src/routes/user.js: the requests the caller has
 * received and is still to review, and the caller's connections. Both run
 * after `userAuth` admitted `me`; neither changes the store, so both are
 * functions of the world.
 */
module UserQueries {
  import opened Common
  import opened Store
  import opened PostFeed

  /** `/user/requests/received`: the `interested` requests sent to the caller, in stored order, answered 200. */
  function ReceivedRequests(w: World, me: Id): (r: (int, seq<ConnectionRequest>))
    ensures r.0 == OK
    ensures forall q :: q in r.1 <==> q in w.requests && q.toUserId == me && q.status == Interested
  {
    (OK, Filter(w.requests, (q: ConnectionRequest) => q.toUserId == me && q.status == Interested))
  }

  /**
   * `/user/connections` as written: one entry per accepted request with the
   * caller on either side, in stored order, and each entry is the request's
   * sender, answered 201. For a request the caller sent, that is the caller.
   */
  function Connections(w: World, me: Id): (r: (int, seq<Id>))
    ensures r.0 == CREATED
    ensures |r.1| == |ConnectionIds(w.requests, me)|
    ensures forall x :: x in r.1 <==> exists q :: q in w.requests && AcceptedWith(q, me) && q.fromUserId == x
  {
    var f := Filter(w.requests, (q: ConnectionRequest) => AcceptedWith(q, me));
    var ids := Map(f, (q: ConnectionRequest) => q.fromUserId);
    assert forall x :: x in ids ==> exists q :: q in w.requests && AcceptedWith(q, me) && q.fromUserId == x by {
      forall x | x in ids
        ensures exists q :: q in w.requests && AcceptedWith(q, me) && q.fromUserId == x
      {
        var k :| 0 <= k < |ids| && ids[k] == x;
        assert f[k] in f;
      }
    }
    assert forall q :: q in w.requests && AcceptedWith(q, me) ==> q.fromUserId in ids by {
      forall q | q in w.requests && AcceptedWith(q, me)
        ensures q.fromUserId in ids
      {
        assert q in f;
        var k :| 0 <= k < |f| && f[k] == q;
        assert ids[k] == q.fromUserId;
      }
    }
    (CREATED, ids)
  }

  /**
   * The caller's own id is listed for every accepted request the caller
   * sent: alice sent bob a request that bob accepted, and alice's
   * connections are `["alice"]`, not `["bob"]`.
   */
  lemma ConnectionsListsCaller()
    ensures var w := World(map[], [ConnectionRequest("r1", "alice", "bob", Accepted)], [], [], map[], [], 0);
      Connections(w, "alice").1 == ["alice"] && ConnectionIds(w.requests, "alice") == ["bob"]
  {
    var w := World(map[], [ConnectionRequest("r1", "alice", "bob", Accepted)], [], [], map[], [], 0);
    var q := w.requests[0];
    assert AcceptedWith(q, "alice");
    assert Filter(w.requests, (q: ConnectionRequest) => AcceptedWith(q, "alice")) == [q] by {
      assert w.requests[1..] == [];
    }
  }

  /**
   * `/user/connections` with each request mapped to the other party, as the
   * feed routes of src/routes/post.js do: a user is listed exactly when the
   * two have an accepted request, and the caller never appears unless a
   * request links the caller to themself.
   */
  function ConnectionsCorrected(w: World, me: Id): (r: (int, seq<Id>))
    ensures r.0 == CREATED
    ensures |r.1| == |Connections(w, me).1|
    ensures forall x :: x in r.1 <==> FindAcceptedBetween(w.requests, me, x).Some?
  {
    var ids := ConnectionIds(w.requests, me);
    assert forall x :: x in ids <==> FindAcceptedBetween(w.requests, me, x).Some? by {
      forall x {
        ConnectionIdsSpec(w.requests, me, x);
      }
    }
    (CREATED, ids)
  }

  /** Under the corrected mapping the caller is listed only through a request from the caller to the caller. */
  lemma CorrectedOmitsCaller(w: World, me: Id)
    requires forall q :: q in w.requests ==> q.fromUserId != q.toUserId
    ensures me !in ConnectionsCorrected(w, me).1
  {
  }
}
