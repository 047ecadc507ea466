/**
 * The post handlers of src/routes/post.js that change the store: create,
 * delete, the like toggle, comment, reply, share and update. Each runs after
 * `userAuth` admitted `caller`. A post id that does not cast makes
 * `findById` throw and the catch answer 500; whether it casts is `castable`.
 * A `save()` that fails validation stores nothing and is answered 500.
 */
module PostRoutes {
  import opened Common
  import opened JsString
  import opened UserSchema
  import opened PostSchema
  import opened Store

  // ---- create ----

  /**
   * `POST /posts`: absent or empty content is 400. Otherwise one post is
   * saved under a fresh id with the caller as creator, created now; content
   * that is only whitespace, or an image URL the validator refuses, fails the
   * save and is 500.
   */
  method CreatePost(s: Store, caller: Id, content: Option<string>, imageUrl: Option<string>, freshId: Id)
    returns (code: int, post: Option<Post>)
    requires s.Valid() && FindPost(s.posts, freshId).None?
    modifies s
    ensures s.Valid()
    ensures code == BAD_REQUEST || code == SERVER_ERROR || code == CREATED
    ensures code == BAD_REQUEST <==> !Truthy(content)
    ensures code == CREATED <==>
      Truthy(content) && Trim(content.value) != "" && ImageUrlOk(imageUrl) && caller != ""
    ensures code == CREATED ==> post == NewPost(freshId, content.value, imageUrl, caller, None, old(s.clock))
    ensures code == CREATED ==> (
      post.Some? && post.value.createdBy == caller && post.value.content == Trim(content.value)
      && post.value.id == freshId && post.value.createdAt == old(s.clock)
      && s.Snapshot() == old(s.Snapshot()).(posts := old(s.posts) + [post.value], clock := old(s.clock) + 1))
    ensures code != CREATED ==> post.None? && s.Snapshot() == old(s.Snapshot())
  {
    if !Truthy(content) {
      return BAD_REQUEST, None;
    }
    var created := NewPost(freshId, content.value, imageUrl, caller, None, s.clock);
    if created.None? {
      return SERVER_ERROR, None;
    }
    s.InsertPost(created.value);
    code, post := CREATED, created;
  }

  // ---- delete ----

  /** The creator of a post, or an administrator, may delete it. */
  predicate MayDelete(p: Post, caller: Id, callerRole: Role)
  {
    p.createdBy == caller || callerRole == AdminRole
  }

  /**
   * `DELETE /posts/:postId`: 404 for an unknown post, 403 unless the caller
   * created it or is an administrator; otherwise the post is removed and no
   * post with that id remains. The role is read from the admitted caller's
   * stored record, as `loggedInUser.role`.
   */
  method DeletePost(s: Store, caller: Id, postId: Id, castable: bool) returns (code: int)
    requires s.Valid() && caller in s.users
    modifies s
    ensures s.Valid()
    ensures code == SERVER_ERROR <==> !castable
    ensures code == NOT_FOUND <==> castable && FindPost(old(s.posts), postId).None?
    ensures code == FORBIDDEN <==>
      castable && FindPost(old(s.posts), postId).Some?
      && !MayDelete(old(s.posts)[FindPost(old(s.posts), postId).value], caller, old(s.users)[caller].role)
    ensures code == OK <==>
      castable && FindPost(old(s.posts), postId).Some?
      && MayDelete(old(s.posts)[FindPost(old(s.posts), postId).value], caller, old(s.users)[caller].role)
    ensures code == OK ==>
      s.Snapshot() == old(s.Snapshot()).(posts := RemoveAt(old(s.posts), FindPost(old(s.posts), postId).value))
    ensures code == OK ==> FindPost(s.posts, postId).None? && |s.posts| == |old(s.posts)| - 1
    ensures code != OK ==> s.Snapshot() == old(s.Snapshot())
  {
    if !castable {
      return SERVER_ERROR;
    }
    var found := FindPost(s.posts, postId);
    if found.None? {
      return NOT_FOUND;
    }
    var i := found.value;
    if !MayDelete(s.posts[i], caller, s.users[caller].role) {
      return FORBIDDEN;
    }
    var t := RemoveAt(s.posts, i);
    forall k | 0 <= k < |t|
      ensures t[k].id != postId
    {
      if k >= i {
        assert t[k] == s.posts[k + 1];
      }
    }
    PostsRemoveAt(s.posts, s.clock, i);
    s.posts := t;
    code := OK;
  }

  // ---- like ----

  /**
   * The like toggle: a user who likes the post is removed from `likes`
   * (every occurrence); otherwise the user is appended at the end.
   */
  function ToggleLike(likes: seq<Id>, user: Id): (r: seq<Id>)
    ensures user in likes <==> user !in r
    ensures forall y :: y != user ==> (y in r <==> y in likes)
    ensures user !in likes ==> r == likes + [user]
  {
    if user in likes then RemoveAll(likes, user) else likes + [user]
  }

  /** The toggle keeps `likes` free of repeats. */
  lemma ToggleLikeKeepsNoDup(likes: seq<Id>, user: Id)
    requires NoDup(likes)
    ensures NoDup(ToggleLike(likes, user))
  {
    if user in likes {
      RemoveAllNoDup(likes, user);
    }
  }

  /** Liking and then unliking restores the list exactly. */
  lemma ToggleTwiceFromUnliked(likes: seq<Id>, user: Id)
    requires user !in likes
    ensures ToggleLike(ToggleLike(likes, user), user) == likes
  {
    RemoveAllAppend(likes, [user], user);
    RemoveAllAbsent(likes, user);
    assert RemoveAll([user], user) == [] by {
      assert [user][1..] == [];
    }
    assert likes + [] == likes;
  }

  /** Unliking and then liking again moves the user to the end of the list. */
  lemma ToggleTwiceFromLiked(likes: seq<Id>, user: Id, k: nat)
    requires NoDup(likes) && k < |likes| && likes[k] == user
    ensures ToggleLike(ToggleLike(likes, user), user) == likes[..k] + likes[k + 1..] + [user]
  {
    RemoveAllSingle(likes, user, k);
    assert user !in RemoveAll(likes, user);
  }

  /**
   * `POST /posts/:postId/like`: the caller's like is toggled on the post and
   * on nothing else; `liked` says which way, and the caller now likes the
   * post exactly when `liked`.
   */
  method LikePost(s: Store, caller: Id, postId: Id, castable: bool) returns (code: int, liked: bool)
    requires s.Valid()
    modifies s
    ensures s.Valid()
    ensures code == SERVER_ERROR <==> !castable
    ensures code == NOT_FOUND <==> castable && FindPost(old(s.posts), postId).None?
    ensures code == OK <==> castable && FindPost(old(s.posts), postId).Some?
    ensures code == OK ==> (
      var i := FindPost(old(s.posts), postId).value;
      && liked == (caller !in old(s.posts)[i].likes)
      && s.Snapshot() == old(s.Snapshot()).(posts :=
           old(s.posts)[i := old(s.posts)[i].(likes := ToggleLike(old(s.posts)[i].likes, caller))])
      && (caller in s.posts[i].likes <==> liked))
    ensures code != OK ==> s.Snapshot() == old(s.Snapshot())
  {
    if !castable {
      return SERVER_ERROR, false;
    }
    var found := FindPost(s.posts, postId);
    if found.None? {
      return NOT_FOUND, false;
    }
    var i := found.value;
    var p := s.posts[i];
    ToggleLikeKeepsNoDup(p.likes, caller);
    s.ReplacePost(i, p.(likes := ToggleLike(p.likes, caller)));
    code, liked := OK, caller !in p.likes;
  }

  // ---- comments and replies ----

  /** `post.comments.id(commentId)`: the first comment with that id. */
  function FindComment(comments: seq<Comment>, commentId: Id): Option<nat>
  {
    FirstIndex(comments, (c: Comment) => c.id == commentId)
  }

  /** No comment of any stored post has this id (a fresh ObjectId). */
  predicate FreshCommentId(posts: seq<Post>, commentId: Id)
  {
    forall p :: p in posts ==> FindComment(p.comments, commentId).None?
  }

  /**
   * `POST /posts/:postId/comment`: absent or empty text is 400 before the
   * lookup; otherwise the comment `{user: caller, text}` is appended at the
   * end of the post's comments, earlier comments and every other post
   * unchanged, and can be found by its id afterwards.
   */
  method AddComment(s: Store, caller: Id, postId: Id, castable: bool, text: Option<string>, freshCommentId: Id)
    returns (code: int, comment: Option<Comment>)
    requires s.Valid() && FreshCommentId(s.posts, freshCommentId)
    modifies s
    ensures s.Valid()
    ensures code == BAD_REQUEST <==> !Truthy(text)
    ensures code == SERVER_ERROR <==> Truthy(text) && !castable
    ensures code == NOT_FOUND <==> Truthy(text) && castable && FindPost(old(s.posts), postId).None?
    ensures code == OK <==> Truthy(text) && castable && FindPost(old(s.posts), postId).Some?
    ensures code == OK ==> (
      var i := FindPost(old(s.posts), postId).value;
      && comment == Some(Comment(freshCommentId, caller, text.value, []))
      && s.Snapshot() == old(s.Snapshot()).(posts :=
           old(s.posts)[i := old(s.posts)[i].(comments := old(s.posts)[i].comments + [comment.value])])
      && FindComment(s.posts[i].comments, freshCommentId) == Some(|old(s.posts)[i].comments|))
    ensures code != OK ==> comment.None? && s.Snapshot() == old(s.Snapshot())
  {
    if !Truthy(text) {
      return BAD_REQUEST, None;
    }
    if !castable {
      return SERVER_ERROR, None;
    }
    var found := FindPost(s.posts, postId);
    if found.None? {
      return NOT_FOUND, None;
    }
    var i := found.value;
    var p := s.posts[i];
    var c := Comment(freshCommentId, caller, text.value, []);
    var cs := p.comments + [c];
    assert FindComment(p.comments, freshCommentId).None?;
    forall k | 0 <= k < |p.comments|
      ensures cs[k].id != freshCommentId
    {
      assert cs[k] == p.comments[k];
    }
    assert cs[|p.comments|].id == freshCommentId;
    s.ReplacePost(i, p.(comments := p.comments + [c]));
    code, comment := OK, Some(c);
  }

  /**
   * The reply appended at the end of the replies of the addressed comment;
   * every other comment, and every other field of the post, is unchanged.
   * `None` when the post has no comment with that id.
   */
  function AddReply(p: Post, commentId: Id, reply: Reply): (r: Option<Post>)
    ensures r.None? <==> FindComment(p.comments, commentId).None?
    ensures r.Some? ==> (
      var i := FindComment(p.comments, commentId).value;
      && r.value == p.(comments := r.value.comments)
      && |r.value.comments| == |p.comments|
      && r.value.comments[i] == p.comments[i].(replies := p.comments[i].replies + [reply])
      && forall k :: 0 <= k < |p.comments| && k != i ==> r.value.comments[k] == p.comments[k])
  {
    match FindComment(p.comments, commentId)
    case None => None
    case Some(i) =>
      Some(p.(comments := p.comments[i := p.comments[i].(replies := p.comments[i].replies + [reply])]))
  }

  /** A reply addressed to a comment just added lands in that comment, as its only reply. */
  lemma ReplyToNewComment(p: Post, c: Comment, reply: Reply)
    requires FindComment(p.comments, c.id).None? && c.replies == []
    ensures var q := p.(comments := p.comments + [c]);
      AddReply(q, c.id, reply).Some?
      && AddReply(q, c.id, reply).value.comments[|p.comments|].replies == [reply]
  {
    var q := p.(comments := p.comments + [c]);
    assert q.comments[|p.comments|].id == c.id;
    assert FindComment(q.comments, c.id) == Some(|p.comments|);
  }

  /**
   * What the comment sub-document reads at `replies` as written: the
   * sub-schema declares `user`, `text` and `createdAt` only, so the path is
   * undefined on every stored comment.
   */
  function RepliesPathAsWritten(c: Comment): Option<seq<Reply>>
  {
    None
  }

  /**
   * `POST /posts/:postId/comment/:commentId/reply` as written: absent text is
   * 400, an unknown post or comment 404; for an existing comment
   * `comment.replies.push` is a call on undefined, the TypeError is caught
   * and answered 500. No reply is ever stored.
   */
  method ReplyAsWritten(s: Store, caller: Id, postId: Id, castable: bool, commentId: Id, text: Option<string>)
    returns (code: int)
    requires s.Valid()
    modifies s
    ensures s.Valid() && s.Snapshot() == old(s.Snapshot())
    ensures code == BAD_REQUEST <==> !Truthy(text)
    ensures code == NOT_FOUND <==>
      Truthy(text) && castable
      && (FindPost(old(s.posts), postId).None?
          || FindComment(old(s.posts)[FindPost(old(s.posts), postId).value].comments, commentId).None?)
    ensures code == SERVER_ERROR <==>
      Truthy(text)
      && (!castable
          || (FindPost(old(s.posts), postId).Some?
              && FindComment(old(s.posts)[FindPost(old(s.posts), postId).value].comments, commentId).Some?))
  {
    if !Truthy(text) {
      return BAD_REQUEST;
    }
    if !castable {
      return SERVER_ERROR;
    }
    var found := FindPost(s.posts, postId);
    if found.None? {
      return NOT_FOUND;
    }
    var p := s.posts[found.value];
    var j := FindComment(p.comments, commentId);
    if j.None? {
      return NOT_FOUND;
    }
    var replies := RepliesPathAsWritten(p.comments[j.value]);
    assert replies.None?;
    return SERVER_ERROR;
  }

  /**
   * The reply handler with `replies` declared on comments, as the read routes
   * that populate `comments.replies.user` expect: the reply `{user: caller,
   * text}` is appended to the addressed comment only, and answered 200.
   */
  method Reply(s: Store, caller: Id, postId: Id, castable: bool, commentId: Id, text: Option<string>)
    returns (code: int)
    requires s.Valid()
    modifies s
    ensures s.Valid()
    ensures code == BAD_REQUEST <==> !Truthy(text)
    ensures code == SERVER_ERROR <==> Truthy(text) && !castable
    ensures code == NOT_FOUND <==>
      Truthy(text) && castable
      && (FindPost(old(s.posts), postId).None?
          || FindComment(old(s.posts)[FindPost(old(s.posts), postId).value].comments, commentId).None?)
    ensures code == OK <==>
      Truthy(text) && castable && FindPost(old(s.posts), postId).Some?
      && FindComment(old(s.posts)[FindPost(old(s.posts), postId).value].comments, commentId).Some?
    ensures code == OK ==> (
      var i := FindPost(old(s.posts), postId).value;
      s.Snapshot() == old(s.Snapshot()).(posts :=
        old(s.posts)[i := AddReply(old(s.posts)[i], commentId, PostSchema.Reply(caller, text.value)).value]))
    ensures code != OK ==> s.Snapshot() == old(s.Snapshot())
  {
    if !Truthy(text) {
      return BAD_REQUEST;
    }
    if !castable {
      return SERVER_ERROR;
    }
    var found := FindPost(s.posts, postId);
    if found.None? {
      return NOT_FOUND;
    }
    var i := found.value;
    var q := AddReply(s.posts[i], commentId, PostSchema.Reply(caller, text.value));
    if q.None? {
      return NOT_FOUND;
    }
    s.ReplacePost(i, q.value);
    code := OK;
  }

  // ---- share ----

  /**
   * `POST /posts/:postId/share`: the original's `shares` goes up by exactly
   * one and is saved first; then a post copying its content and image URL,
   * created by the caller now, with the original as `parentPost`, is saved
   * under a fresh id. The copy can only fail to save for a creator id that is
   * empty, and then the increment stays.
   */
  method Share(s: Store, caller: Id, postId: Id, castable: bool, freshId: Id)
    returns (code: int, shared: Option<Post>)
    requires s.Valid() && FindPost(s.posts, freshId).None?
    modifies s
    ensures s.Valid()
    ensures code == SERVER_ERROR <==> !castable || (FindPost(old(s.posts), postId).Some? && caller == "")
    ensures code == NOT_FOUND <==> castable && FindPost(old(s.posts), postId).None?
    ensures code == OK <==> castable && FindPost(old(s.posts), postId).Some? && caller != ""
    ensures castable && FindPost(old(s.posts), postId).Some? ==> (
      var i := FindPost(old(s.posts), postId).value;
      var bumped := old(s.posts)[i := old(s.posts)[i].(shares := old(s.posts)[i].shares + 1)];
      && |s.posts| >= |old(s.posts)| && s.posts[i].shares == old(s.posts)[i].shares + 1
      && (code == OK ==>
            && shared.Some?
            && shared.value.content == old(s.posts)[i].content
            && shared.value.imageUrl == old(s.posts)[i].imageUrl
            && shared.value.createdBy == caller && shared.value.parentPost == Some(postId)
            && shared.value.id == freshId && shared.value.shares == 0 && shared.value.likes == []
            && shared.value.visibility == Public && shared.value.comments == []
            && shared.value.createdAt == old(s.clock)
            && shared == NewPost(freshId, old(s.posts)[i].content, old(s.posts)[i].imageUrl, caller,
                                 Some(postId), old(s.clock))
            && s.Snapshot() == old(s.Snapshot()).(posts := bumped + [shared.value], clock := old(s.clock) + 1))
      && (code != OK ==> s.Snapshot() == old(s.Snapshot()).(posts := bumped)))
    ensures code != OK ==> shared.None?
    ensures !castable || FindPost(old(s.posts), postId).None? ==> s.Snapshot() == old(s.Snapshot())
  {
    if !castable {
      return SERVER_ERROR, None;
    }
    var found := FindPost(s.posts, postId);
    if found.None? {
      return NOT_FOUND, None;
    }
    code, shared := BumpAndCopy(s, found.value, caller, freshId);
  }

  /**
   * The share handler once the original is found at index `i`: the count is
   * bumped and saved, then the copy is saved under the fresh id; a copy the
   * schema refuses (no creator) leaves the bump in place and answers 500.
   */
  method BumpAndCopy(s: Store, i: nat, caller: Id, freshId: Id) returns (code: int, shared: Option<Post>)
    requires s.Valid() && i < |s.posts| && FindPost(s.posts, freshId).None?
    modifies s
    ensures s.Valid()
    ensures code == OK <==> caller != ""
    ensures code == OK || code == SERVER_ERROR
    ensures var bumped := old(s.posts)[i := old(s.posts)[i].(shares := old(s.posts)[i].shares + 1)];
      if code == OK then
        && shared.Some?
        && shared.value.content == old(s.posts)[i].content
        && shared.value.imageUrl == old(s.posts)[i].imageUrl
        && shared.value.createdBy == caller && shared.value.parentPost == Some(old(s.posts)[i].id)
        && shared.value.id == freshId && shared.value.shares == 0 && shared.value.likes == []
        && shared == NewPost(freshId, old(s.posts)[i].content, old(s.posts)[i].imageUrl, caller,
                             Some(old(s.posts)[i].id), old(s.clock))
        && s.Snapshot() == old(s.Snapshot()).(posts := bumped + [shared.value], clock := old(s.clock) + 1)
      else
        shared.None? && s.Snapshot() == old(s.Snapshot()).(posts := bumped)
  {
    var p := s.posts[i];
    s.ReplacePost(i, p.(shares := p.shares + 1));
    TrimOfTrimmed(p.content);
    var copy := NewPost(freshId, p.content, p.imageUrl, caller, Some(p.id), s.clock);
    if copy.None? {
      return SERVER_ERROR, None;
    }
    assert FindPost(s.posts, freshId).None? by {
      forall k | 0 <= k < |s.posts|
        ensures s.posts[k].id != freshId
      {
        assert s.posts[k].id == old(s.posts)[k].id;
      }
    }
    s.InsertPost(copy.value);
    code, shared := OK, copy;
  }

  // ---- update ----

  /**
   * `post.content = content || post.content` and likewise for `imageUrl` and
   * `visibility`, then `save()`: each field is replaced only when supplied
   * non-empty (content through the `trim` setter), and the save fails, `None`,
   * when a supplied value is refused: content that trims to nothing, an image
   * URL the validator refuses, or a visibility outside the enum.
   */
  function UpdatedPost(p: Post, content: Option<string>, imageUrl: Option<string>, visibility: Option<string>)
    : (r: Option<Post>)
    ensures ValidPost(p) ==> (r.None? <==>
      (Truthy(content) && Trim(content.value) == "")
      || (Truthy(imageUrl) && !ImageUrlMatches(imageUrl.value))
      || (Truthy(visibility) && ParseVisibility(visibility.value).None?))
    ensures r.Some? ==> ValidPost(r.value)
    ensures r.Some? ==> r.value.content == (if Truthy(content) then Trim(content.value) else p.content)
    ensures r.Some? ==> r.value.imageUrl == (if Truthy(imageUrl) then imageUrl else p.imageUrl)
    ensures r.Some? ==> (
      if Truthy(visibility) then ParseVisibility(visibility.value) == Some(r.value.visibility)
      else r.value.visibility == p.visibility)
    ensures r.Some? ==> (
      && r.value.id == p.id && r.value.createdBy == p.createdBy && r.value.likes == p.likes
      && r.value.comments == p.comments && r.value.shares == p.shares
      && r.value.parentPost == p.parentPost && r.value.createdAt == p.createdAt)
  {
    TrimSpec(if content.Some? then content.value else "");
    var c := if Truthy(content) then Trim(content.value) else p.content;
    var u := if Truthy(imageUrl) then imageUrl else p.imageUrl;
    var v := if Truthy(visibility) then ParseVisibility(visibility.value) else Some(p.visibility);
    if v.Some? && ValidPost(p.(content := c, imageUrl := u, visibility := v.value))
    then Some(p.(content := c, imageUrl := u, visibility := v.value))
    else None
  }

  /** An update that supplies nothing keeps a stored post as it is. */
  lemma UpdateNothingKeepsPost(p: Post)
    requires ValidPost(p)
    ensures UpdatedPost(p, None, None, None) == Some(p)
  {
  }

  /** Applying the same update twice is applying it once. */
  lemma UpdateIdempotent(p: Post, content: Option<string>, imageUrl: Option<string>, visibility: Option<string>)
    requires UpdatedPost(p, content, imageUrl, visibility).Some?
    ensures var q := UpdatedPost(p, content, imageUrl, visibility).value;
      UpdatedPost(q, content, imageUrl, visibility) == Some(q)
  {
    var q := UpdatedPost(p, content, imageUrl, visibility).value;
    if Truthy(content) {
      TrimIdempotent(content.value);
    }
    assert UpdatedPost(q, content, imageUrl, visibility).Some?;
  }

  /**
   * `PUT /posts/:postId`: 404 for an unknown post, 403 unless the caller
   * created it, 500 when the updated post fails validation; otherwise the
   * post is replaced by its update and answered 200.
   */
  method UpdatePost(s: Store, caller: Id, postId: Id, castable: bool,
                    content: Option<string>, imageUrl: Option<string>, visibility: Option<string>)
    returns (code: int)
    requires s.Valid()
    modifies s
    ensures s.Valid()
    ensures code == OK || code == NOT_FOUND || code == FORBIDDEN || code == SERVER_ERROR
    ensures code == NOT_FOUND <==> castable && FindPost(old(s.posts), postId).None?
    ensures code == FORBIDDEN <==>
      castable && FindPost(old(s.posts), postId).Some?
      && old(s.posts)[FindPost(old(s.posts), postId).value].createdBy != caller
    ensures code == OK <==>
      castable && FindPost(old(s.posts), postId).Some?
      && old(s.posts)[FindPost(old(s.posts), postId).value].createdBy == caller
      && UpdatedPost(old(s.posts)[FindPost(old(s.posts), postId).value], content, imageUrl, visibility).Some?
    ensures code == OK ==> (
      var i := FindPost(old(s.posts), postId).value;
      s.Snapshot() == old(s.Snapshot()).(posts :=
        old(s.posts)[i := UpdatedPost(old(s.posts)[i], content, imageUrl, visibility).value]))
    ensures code != OK ==> s.Snapshot() == old(s.Snapshot())
  {
    if !castable {
      return SERVER_ERROR;
    }
    var found := FindPost(s.posts, postId);
    if found.None? {
      return NOT_FOUND;
    }
    var i := found.value;
    if s.posts[i].createdBy != caller {
      return FORBIDDEN;
    }
    var q := UpdatedPost(s.posts[i], content, imageUrl, visibility);
    if q.None? {
      return SERVER_ERROR;
    }
    s.ReplacePost(i, q.value);
    code := OK;
  }
}
