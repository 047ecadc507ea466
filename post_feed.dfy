/**
 * The read side of src/routes/post.js: each accepted request of the caller
 * mapped to the other party, the posts of those users, and the feed, which
 * keeps their public and friends-only posts, newest first, at most ten.
 */
module PostFeed {
  import opened Common
  import opened PostSchema
  import opened Store

  /** The user at the other end of a request that involves `me`. */
  function OtherParty(q: ConnectionRequest, me: Id): Id
  {
    if q.fromUserId == me then q.toUserId else q.fromUserId
  }

  /** `{ status: "accepted" }` with `me` as sender or recipient. */
  predicate AcceptedWith(q: ConnectionRequest, me: Id)
  {
    q.status == Accepted && (q.fromUserId == me || q.toUserId == me)
  }

  /** The caller's connection ids, one per accepted request, in the order the requests are stored. */
  function ConnectionIds(rs: seq<ConnectionRequest>, me: Id): (r: seq<Id>)
    ensures |r| == |Filter(rs, (q: ConnectionRequest) => AcceptedWith(q, me))|
  {
    Map(Filter(rs, (q: ConnectionRequest) => AcceptedWith(q, me)), (q: ConnectionRequest) => OtherParty(q, me))
  }

  /** A user is among the caller's connection ids exactly when the two have an accepted request, in either direction. */
  lemma ConnectionIdsSpec(rs: seq<ConnectionRequest>, me: Id, x: Id)
    ensures x in ConnectionIds(rs, me) <==> FindAcceptedBetween(rs, me, x).Some?
  {
    var f := Filter(rs, (q: ConnectionRequest) => AcceptedWith(q, me));
    var ids := ConnectionIds(rs, me);
    if x in ids {
      var k :| 0 <= k < |ids| && ids[k] == x;
      var q := f[k];
      assert q in f;
      var i :| 0 <= i < |rs| && rs[i] == q;
      assert Between(rs[i], me, x) && rs[i].status == Accepted;
    }
    if FindAcceptedBetween(rs, me, x).Some? {
      var q := rs[FindAcceptedBetween(rs, me, x).value];
      assert AcceptedWith(q, me);
      assert q in f;
      var k :| 0 <= k < |f| && f[k] == q;
      assert ids[k] == OtherParty(q, me) == x;
    }
  }

  /**
   * `/posts/connections`: every post whose creator has an accepted
   * connection with the caller, in stored order, whatever its visibility.
   */
  function ConnectionPosts(w: World, me: Id): (r: seq<Post>)
    ensures forall p :: p in r <==> p in w.posts && FindAcceptedBetween(w.requests, me, p.createdBy).Some?
  {
    var ids := ConnectionIds(w.requests, me);
    assert forall x :: x in ids <==> FindAcceptedBetween(w.requests, me, x).Some? by {
      forall x {
        ConnectionIdsSpec(w.requests, me, x);
      }
    }
    Filter(w.posts, (p: Post) => p.createdBy in ids)
  }

  /** `$match`: by one of the given users, and `public` or `friends`. */
  predicate InFeed(p: Post, ids: seq<Id>)
  {
    p.createdBy in ids && p.visibility != Private
  }

  const FEED_LIMIT: nat := 10

  /** `$match`, `$sort: { createdAt: -1 }`, `$limit: 10` over posts stored oldest first. */
  function FeedOf(posts: seq<Post>, ids: seq<Id>): (r: seq<Post>)
    ensures |r| <= FEED_LIMIT
    ensures forall p :: p in r ==> p in posts && InFeed(p, ids)
  {
    Take(Reverse(Filter(posts, (p: Post) => InFeed(p, ids))), FEED_LIMIT)
  }

  /** `/posts/feed` for the caller. */
  function Feed(w: World, me: Id): (r: seq<Post>)
    ensures |r| <= FEED_LIMIT
    ensures forall p :: p in r ==>
      p in w.posts && p.visibility != Private && FindAcceptedBetween(w.requests, me, p.createdBy).Some?
  {
    var ids := ConnectionIds(w.requests, me);
    var r := FeedOf(w.posts, ids);
    assert forall p :: p in r ==> FindAcceptedBetween(w.requests, me, p.createdBy).Some? by {
      forall p | p in r {
        ConnectionIdsSpec(w.requests, me, p.createdBy);
      }
    }
    r
  }

  /** Creation times strictly increase along the sequence. */
  predicate CreatedInOrder(posts: seq<Post>)
  {
    forall i, j :: 0 <= i < j < |posts| ==> posts[i].createdAt < posts[j].createdAt
  }

  /** Stored posts were created in the order they are stored. */
  lemma StoredPostsInOrder(posts: seq<Post>, clock: nat)
    requires PostsWellFormed(posts, clock)
    ensures CreatedInOrder(posts)
  {
  }

  /** Dropping the first post keeps creation order. */
  lemma TailInOrder(posts: seq<Post>)
    requires posts != [] && CreatedInOrder(posts)
    ensures CreatedInOrder(posts[1..])
  {
    var tail := posts[1..];
    forall i, j | 0 <= i < j < |tail|
      ensures tail[i].createdAt < tail[j].createdAt
    {
      assert tail[i] == posts[i + 1] && tail[j] == posts[j + 1];
    }
  }

  /** A post older than everything in an ordered sequence may go in front of it. */
  lemma PrependInOrder(x: Post, rest: seq<Post>)
    requires CreatedInOrder(rest)
    requires forall q :: q in rest ==> x.createdAt < q.createdAt
    ensures CreatedInOrder([x] + rest)
  {
    var r := [x] + rest;
    forall i, j | 0 <= i < j < |r|
      ensures r[i].createdAt < r[j].createdAt
    {
      assert r[j] == rest[j - 1] && r[j] in rest;
      if i > 0 {
        assert r[i] == rest[i - 1];
      }
    }
  }

  /** Filtering keeps creation order. */
  lemma {:induction false} FilterKeepsOrder(posts: seq<Post>, f: Post -> bool)
    requires CreatedInOrder(posts)
    ensures CreatedInOrder(Filter(posts, f))
  {
    if posts != [] {
      var tail := posts[1..];
      TailInOrder(posts);
      FilterKeepsOrder(tail, f);
      var rest := Filter(tail, f);
      if f(posts[0]) {
        forall q | q in rest
          ensures posts[0].createdAt < q.createdAt
        {
          var k :| 0 <= k < |tail| && tail[k] == q;
          assert tail[k] == posts[k + 1];
        }
        PrependInOrder(posts[0], rest);
      } else {
        assert Filter(posts, f) == rest;
      }
    }
  }

  /** The feed is newest first: creation times strictly decrease along it. */
  lemma FeedNewestFirst(posts: seq<Post>, ids: seq<Id>)
    requires CreatedInOrder(posts)
    ensures var r := FeedOf(posts, ids);
      forall i, j :: 0 <= i < j < |r| ==> r[i].createdAt > r[j].createdAt
  {
    var f := Filter(posts, (p: Post) => InFeed(p, ids));
    FilterKeepsOrder(posts, (p: Post) => InFeed(p, ids));
    var rev := Reverse(f);
    var r := FeedOf(posts, ids);
    forall i, j | 0 <= i < j < |r|
      ensures r[i].createdAt > r[j].createdAt
    {
      assert r[i] == rev[i] && r[j] == rev[j];
      assert rev[i] == f[|f| - 1 - i] && rev[j] == f[|f| - 1 - j];
    }
  }

  /**
   * Over a sequence in creation order, an element the newest-first window
   * leaves out is older than everything in the window, which is full.
   */
  lemma WindowKeepsNewest(f: seq<Post>, m: nat)
    requires CreatedInOrder(f) && m < |f|
    requires f[m] !in Take(Reverse(f), FEED_LIMIT)
    ensures |Take(Reverse(f), FEED_LIMIT)| == FEED_LIMIT
    ensures forall q :: q in Take(Reverse(f), FEED_LIMIT) ==> q.createdAt > f[m].createdAt
  {
    var rev := Reverse(f);
    var r := Take(rev, FEED_LIMIT);
    var j := |f| - 1 - m;
    assert rev[j] == f[m];
    assert forall k :: 0 <= k < |r| ==> r[k] == rev[k];
    assert j >= |r|;
    forall q | q in r
      ensures q.createdAt > f[m].createdAt
    {
      var t :| 0 <= t < |r| && r[t] == q;
      assert r[t] == rev[t] == f[|f| - 1 - t];
    }
  }

  /**
   * Nothing newer is left out: a public or friends-only post of a connection
   * that is not in the feed is older than every post shown, and the feed is
   * then full.
   */
  lemma FeedKeepsNewest(posts: seq<Post>, ids: seq<Id>, p: Post)
    requires CreatedInOrder(posts)
    requires p in posts && InFeed(p, ids) && p !in FeedOf(posts, ids)
    ensures |FeedOf(posts, ids)| == FEED_LIMIT
    ensures forall q :: q in FeedOf(posts, ids) ==> q.createdAt > p.createdAt
  {
    var f := Filter(posts, (p: Post) => InFeed(p, ids));
    FilterKeepsOrder(posts, (p: Post) => InFeed(p, ids));
    assert p in f;
    var m :| 0 <= m < |f| && f[m] == p;
    WindowKeepsNewest(f, m);
  }

  /**
   * `/posts`: every stored post, `_id` descending. Ids are handed out in
   * creation order, so that is the stored order reversed.
   */
  function AllPosts(w: World): (r: seq<Post>)
    ensures |r| == |w.posts|
    ensures forall p :: p in r <==> p in w.posts
  {
    var r := Reverse(w.posts);
    assert forall p :: p in r ==> p in w.posts by {
      forall p | p in r
        ensures p in w.posts
      {
        var k :| 0 <= k < |r| && r[k] == p;
        assert w.posts[|w.posts| - 1 - k] == p;
      }
    }
    assert forall p :: p in w.posts ==> p in r by {
      forall p | p in w.posts
        ensures p in r
      {
        var k :| 0 <= k < |w.posts| && w.posts[k] == p;
        assert r[|w.posts| - 1 - k] == p;
      }
    }
    r
  }

  /** The full listing is newest first. */
  lemma AllPostsNewestFirst(w: World)
    requires ValidWorld(w)
    ensures var r := AllPosts(w);
      forall i, j :: 0 <= i < j < |r| ==> r[i].createdAt > r[j].createdAt
  {
    StoredPostsInOrder(w.posts, w.clock);
    var r := AllPosts(w);
    forall i, j | 0 <= i < j < |r|
      ensures r[i].createdAt > r[j].createdAt
    {
      assert r[i] == w.posts[|w.posts| - 1 - i] && r[j] == w.posts[|w.posts| - 1 - j];
    }
  }

  /** The stored feed of a caller is newest first. */
  lemma FeedOfStoreNewestFirst(w: World, me: Id)
    requires ValidWorld(w)
    ensures var r := Feed(w, me);
      forall i, j :: 0 <= i < j < |r| ==> r[i].createdAt > r[j].createdAt
  {
    StoredPostsInOrder(w.posts, w.clock);
    FeedNewestFirst(w.posts, ConnectionIds(w.requests, me));
  }
}
