# web-tinder, modelled in Dafny

This project models the backend of web-tinder, a social and dating service
built on Express, Mongoose and socket.io. The backend keeps six collections:
users, connection requests, block entries, direct chats, chat rooms and posts.
Every route is a chain of lookups with early returns. Each chain either
answers an HTTP status or changes the collections and answers 200 or 201.

The model keeps that shape:

- `Store.Store` is one class holding the collections. It has a map of users, a
  sequence of requests, block entries, chats and posts, a map of rooms, and a
  clock that stands for `Date.now`. `Snapshot()` reads the whole store as a
  `World` value. `Valid()` is the store invariant: at most one request per
  unordered pair, distinct request ids, one chat per pair, unique room names,
  posts with distinct ids created in order, and valid users.
- Each route handler that writes is a method on a `Store`. It states its
  status code for every input and the whole new snapshot
  (`s.Snapshot() == old(s.Snapshot()).(posts := ...)`). Every error status
  leaves the snapshot unchanged.
- Read-only routes and middlewares (`userAuth`, `adminRole`,
  `isUserBlocked`, the feed, the connection lists, the admin reads) are
  functions of a `World`.
- The schemas (`models/user.js`, `models/post.js`, `models/chatRoom.js`) are
  constructor functions. They return `None` exactly when Mongoose validation
  would reject the document.
- The socket layer (`utils/socket.js`) is a `Socket.Registry` class. It holds
  the socket.io room membership and a log of emitted `messageReceived`
  events. Its `sendMessage` writes the direct chats of a `Store`.
- The room key is SHA-256 of the sorted, `_`-joined pair of ids. The model
  proves its properties on that preimage and keeps the hash abstract
  (`RoomIdentity`).

Inputs the model does not compute are parameters:

- `castable`: whether `findById` can cast an id, which decides between a
  thrown CastError and a lookup.
- `validId`: the verdict of `mongoose.isValidObjectId`.
- `verify`: stands for `jwt.verify`.
- `hash`: stands for SHA-256.
- `persisted`: whether the socket's chat save succeeded.
- `LibraryVerdicts`: the verdicts of the `validator` library.
- Fresh ids: the ObjectIds of new documents, each with a freshness precondition.

The socket layer handles only `joinChat`, `sendMessage` and `disconnect`; a
message is broadcast even when saving it failed.

A handler that ends without answering, because its catch only logs or throws
again, returns the code `NO_RESPONSE`.

## Model

| member | source | states |
|---|---|---|
| RoomIdentity.SortedPair | src/utils/socket.js:9 | `[a, b].sort()` yields the two ids in ascending character order (`LexLe`), as one of the two orderings of the input |
| RoomIdentity.PreimageShape | src/utils/socket.js:9 | the hashed text is the smaller id, `_`, then the larger id |
| RoomIdentity.PreimageSymmetric | src/utils/socket.js:6-11 | the hashed text does not depend on which user joins or sends |
| RoomIdentity.SecretRoomIdSymmetric | src/utils/socket.js:6-11 | `getSecretRoomId(a, b) == getSecretRoomId(b, a)` for every hash function |
| RoomIdentity.SplitAtSeparator | src/utils/socket.js:9 | an `_`-joined string splits back into its two parts when the first part has no `_` |
| RoomIdentity.PreimageDeterminesPair | src/utils/socket.js:9 | for ids without `_`, equal hashed texts mean the same unordered pair |
| RoomIdentity.SeparatorInIdsCollides | src/utils/socket.js:9 | the pairs ("a_b", "c") and ("a", "b_c") produce the same hashed text "a_b_c" |
| RoomIdentity.SecretRoomIdIdentifiesPair | src/utils/socket.js:6-11 | with an injective hash and ids without `_`, two room keys are equal if and only if the pairs are equal as unordered pairs |
| Socket.Registry.constructor | src/utils/socket.js:13-20 | a new server has no room members and has emitted nothing |
| Socket.Registry.JoinChat | src/utils/socket.js:23-28 | the connection joins exactly the room derived from the two ids; every other room is unchanged and no store is touched |
| Socket.Registry.SendMessage | src/utils/socket.js:30-81 | one `messageReceived {firstName, text, lastName}` goes to every connection in the pair's room, whether or not the save succeeded; when it succeeded the direct chats become `AppendDirect`, otherwise they are unchanged; nothing else changes |
| Socket.Registry.Disconnect | src/utils/socket.js:83 | the empty handler runs after socket.io has taken the connection out of every room it joined; every room keeps its other members |
| Socket.AppendDirect | src/utils/socket.js:53-69 | with no chat for the pair, one chat `[userId, targetUserId]` holding the one message is added; otherwise exactly that chat gains the message at its end and all other chats are unchanged |
| Socket.ReplyLandsInSameChat | src/utils/socket.js:53-69 | a message A→B followed by a reply B→A leaves one chat whose last two messages are the two, in order |
| Socket.BothSidesReceive | src/utils/socket.js:23-79 | after both users join and one sends, the last emission is the message and reaches both connections, sender included |
| Store.OnePerPairUnique | src/routes/request.js:31-42 | under the store invariant two requests between the same pair are the same request |
| Store.FindChatSymmetric | src/utils/socket.js:53-55 | the chat lookup `participants: { $all: [a, b] }` finds the same chat for (a, b) and (b, a) |
| Store.FindChatAppended | src/routes/chat.js:44-50 | a chat created for a pair that had none is the one later lookups find |
| Store.FindChatAfterUpdate | src/utils/socket.js:64-69 | appending a message to the found chat keeps the lookup on that chat |
| Store.ChatForPairUnique | src/routes/chat.js:37-50 | under the store invariant at most one chat holds a given pair of distinct users |
| Store.RequestsAppend | src/routes/request.js:31-50 | storing a request only when none exists between the pair keeps at most one request per unordered pair |
| Store.RequestsSetStatus | src/routes/request.js:90-92 | changing one request's status keeps the request invariant |
| Store.RequestsRemoveAt | src/routes/blockUser.js:63-68 | deleting a request keeps the request invariant |
| Store.ChatsAppend | src/routes/chat.js:44-50 | a new chat for a pair without one keeps one chat per pair |
| Store.RoomsAdd | src/routes/chatRoom.js:43-45 | a room under a fresh id and an unused name keeps room names unique |
| Store.PostsAppend | src/routes/post.js:15-25 | a valid post under a fresh id, created now, keeps the post invariant |
| Store.PostsReplace | src/routes/post.js:107-114 | a post saved with its id and creation time unchanged keeps the post invariant |
| Store.PostsRemoveAt | src/routes/post.js:88-90 | deleting a post keeps the post invariant |
| JsString.TrimSpec | src/models/post.js:8 | `trim` keeps one contiguous run of the input, everything dropped on either side is whitespace, and the result has no whitespace at either end |
| JsString.TrimIdempotent | src/models/post.js:5-9 | trimming twice is trimming once |
| JsString.TrimPadded | src/models/user.js:22 | one whitespace character on each side of a trimmed, non-empty string is exactly what `trim` removes |
| JsString.LowerSpec | src/models/user.js:19 | the ASCII lower-casing that stands for `toLowerCase` keeps the length, leaves no ASCII capital and is idempotent |
| JsString.TrimLowerCommute | src/models/user.js:19-22 | trimming and lower-casing commute, so their order does not matter |
| UserSchema.NewUser | src/models/user.js:6-109 | a user document is accepted exactly when the required fields are present, `firstName` has 4 to 20 characters, age is at least 18, the enums hold and the library validators agree; the stored email is normalised and the defaults are filled in (role `user`, the later `about` default, the default photo URL, not premium, not deactivated, empty block lists) |
| UserSchema.NormalizeEmailIsNormal | src/models/user.js:17-22 | the stored email is trimmed, has no capitals, and normalising it again changes nothing |
| UserSchema.NormalEmailIsFixed | src/models/user.js:17-22 | an email already in normal form is stored as given |
| UserSchema.NewUserIsValid | src/models/user.js:6-109 | every accepted document satisfies the stored-user invariant |
| UserSchema.EmailNormalizationExample | src/models/user.js:17-22 | " Ann@X.io " is stored as "ann@x.io" |
| UserSchema.FirstNameBounds | src/models/user.js:8-13 | first names of 3 and of 21 characters are refused |
| PostSchema.ImageUrlMatchesIsRegex | src/models/post.js:13 | the direct check accepts a string if and only if it is in the language of `^https?:\/\/.*\.(jpg\|jpeg\|png\|gif)$` (a scheme, a run without line terminators, a dot, an extension, end) |
| PostSchema.MatchesInLanguage | src/models/post.js:13 | every string the direct check accepts is in the expression's language |
| PostSchema.LanguageMatches | src/models/post.js:13 | every string of the expression's language passes the direct check |
| PostSchema.RefusedByLastChar | src/models/post.js:13 | a URL whose last character after the scheme is neither `g` nor `f` cannot end in one of the four extensions and is refused |
| PostSchema.ImageUrlHttpsAccepted | src/models/post.js:12-16 | "https://x.gif" is accepted |
| PostSchema.ImageUrlHttpAccepted | src/models/post.js:12-16 | "http://a/b.jpeg" is accepted |
| PostSchema.ImageUrlUpperCaseRefused | src/models/post.js:12-16 | ".PNG" is refused, because matching is case-sensitive |
| PostSchema.ImageUrlFtpRefused | src/models/post.js:12-16 | "ftp://x.png" is refused |
| PostSchema.ImageUrlTrailingNewlineRefused | src/models/post.js:12-16 | a URL ending in a newline is refused, because `$` without the `m` flag does not match before it |
| PostSchema.NewPost | src/models/post.js:3-48 | a post is accepted exactly when its content trims to something non-empty, its image URL is absent, empty or matching, and it has a creator; the stored post has trimmed content, visibility `public`, 0 shares, no likes and no comments |
| AuthGate.UserAuthAsWritten | src/middlewares/auth.js:4-32 | with a schema that never stores `token`, every request is answered 401 |
| AuthGate.UserAuth | src/middlewares/auth.js:4-32 | the caller is admitted exactly when the cookie token is present and verifies, the user exists, the stored token equals the cookie and the account is active; a deactivated account with a matching token gets 403, every other refusal gets 401 |
| AuthGate.DeactivatedNeedsSession | src/middlewares/auth.js:19-25 | a deactivated user gets 403 only with the current session token; a stale token gets 401 first |
| AuthGate.AdminGate | src/middlewares/admin.js:3-15 | `next` is called if and only if there is a caller whose role is `admin`; every refusal, a missing user included, is 400 |
| BlockingStatus.IsUserBlocked | src/middlewares/checkblokingStatus.js:4-64 | `next` is called exactly when the target exists and no block entry caller→target, no `blockedBy` listing in either direction exists; a missing target is 404, an uncastable id 500, a blocking relation 400; nothing is written |
| BlockingStatus.IsUserBlockedSymmetric | src/middlewares/checkblokingStatus.js:31-53 | without block entries between two users, the guard answers the same whichever of them asks |
| RequestRoutes.ParseSendStatus | src/routes/request.js:18-23 | only `ignored` and `interested` can be sent |
| RequestRoutes.ParseReviewStatus | src/routes/request.js:70-76 | only `accepted` and `rejected` can be set by a review |
| RequestRoutes.SendRequest | src/routes/request.js:13-58 | 200 exactly when the status is allowed, the recipient exists and no request exists between the pair in either direction, and then exactly one request `{caller, toUserId, status}` is appended; otherwise 400 or 404 and nothing changes |
| RequestRoutes.SendRequestRoute | src/routes/request.js:8-60 | the `isUserBlocked` guard runs first and its refusal is the answer; a stored request is never between users with a blocking relation |
| RequestRoutes.ReviewRequest | src/routes/request.js:62-97 | 400 for a status other than accepted or rejected; no response at all for a request id that does not cast, because the catch throws again; 404 unless a request with that id, addressed to the caller and `interested`, exists; otherwise only that request's status changes, and every request moves only from `interested` |
| RequestRoutes.FinalStatusStays | src/routes/request.js:78-92 | along any sequence of reviews, a request that is no longer `interested` never changes again, so an `ignored` request is never accepted |
| RequestRoutes.ReviewedAtMostOnce | src/routes/request.js:78-92 | a request changes at most once, from `interested` to `accepted` or `rejected`, and keeps that status |
| ChatRoutes.RequestLookupSymmetric | src/routes/chat.js:17-30 | the accepted-request gate finds the same request for (a, b) and (b, a) |
| ChatRoutes.GetChat | src/routes/chat.js:8-55 | no response and nothing stored for a target id that does not cast, because the catch only logs; 401 with nothing stored exactly when no accepted request links the two in either direction; otherwise the existing chat is returned unchanged, or a chat `[caller, target]` with no messages is stored and returned |
| ChatRoutes.GetChatTwice | src/routes/chat.js:37-50 | a call by a about b followed by a call by b about a stores at most one chat, and when the first succeeds both return the same chat |
| BlockRoutes.MarkBlocked | src/routes/blockUser.js:71-81 | the blocker's `blockedTo` gains the target and the target's `blockedBy` gains the blocker, with set semantics and no duplicates; no other field or user changes |
| BlockRoutes.DropAccepted | src/routes/blockUser.js:63-68 | `findOneAndDelete` removes one request when an accepted one exists between the pair, otherwise none |
| BlockRoutes.DropAcceptedLeavesNone | src/routes/blockUser.js:63-68 | afterwards no accepted request links the two users, and every other request is kept |
| BlockRoutes.AfterBlockValid | src/routes/blockUser.js:62-90 | the state after a block keeps the store invariant |
| BlockRoutes.AfterBlockSeparates | src/routes/blockUser.js:62-90 | after a block the two users have no accepted connection, and `isUserBlocked` refuses requests between them in both directions |
| BlockRoutes.BlockUser | src/routes/blockUser.js:9-106 | each check of the chain answers with the same status as `isUserBlocked` and changes nothing; otherwise 200, with the accepted connection removed, both `$addToSet` updates made and one `blocked` entry stored |
| ChatRoomRoutes.CreatedRoomFailsSchema | src/models/chatRoom.js:3-16 | the room the create handler builds has no password, so it never passes the schema as written |
| ChatRoomRoutes.CreateRoomAsWritten | src/routes/chatRoom.js:28-49 | 403 for a non-admin, 400 for a name in use, and otherwise 500; no room is ever stored |
| ChatRoomRoutes.CreateRoom | src/routes/chatRoom.js:28-49 | with the password optional: 403 for a non-admin, 400 for a name in use, 500 for a missing name, otherwise one room with that name, no members and no messages under a fresh id, answered 201 |
| ChatRoomRoutes.CreateRoomRoute | src/routes/chatRoom.js:28-49 | behind `adminRole` the handler's 403 is never sent: non-admins get 400 with nothing changed; an administrator gets 400 for a name in use, 500 for a missing name, otherwise 201 with exactly one room of that name, no members and no messages stored under the fresh id; every answer other than 201 leaves the store unchanged |
| ChatRoomRoutes.JoinRoom | src/routes/chatRoom.js:63-82 | 500 for an id that does not cast, 404 for an unknown room; otherwise the caller becomes a member, appended only if absent, so joining when already a member changes nothing |
| ChatRoomRoutes.NewRoomMessage | src/routes/chatRoom.js:97-102 | the record has the sender, the text or "" by default, and `"/uploads/" + filename` with the mimetype when a file came, null otherwise |
| ChatRoomRoutes.PostRoomMessage | src/routes/chatRoom.js:85-117 | 400 for a missing sender before any lookup, 500 for a room id that does not cast, 404 for an unknown room, otherwise the record is appended at the end of the room's messages without a membership check, answered 201 |
| ChatRoomRoutes.RoomMessages | src/routes/chatRoom.js:120-131 | the whole history of an existing room; 404 for an unknown room and 500 for an id that does not cast |
| ChatRoomRoutes.PostThenRead | src/routes/chatRoom.js:85-131 | an accepted message is the last entry of the history read back, after the earlier messages unchanged |
| AdminRoutes.SetDeactivated | src/routes/admin.js:18-34 | 400 for a malformed id before any lookup, 404 for an unknown user, 403 for an admin target; otherwise only that user's `isDeactivated` changes |
| AdminRoutes.BlockAccount | src/routes/admin.js:10-39 | behind `adminRole`, non-admin callers get 400; otherwise as above, setting `isDeactivated` to true |
| AdminRoutes.UnblockAccount | src/routes/admin.js:42-71 | the same conditions as block, setting `isDeactivated` to false |
| AdminRoutes.BlockTwice | src/routes/admin.js:32-34 | blocking twice answers the same both times; when that answer is 200 the store is as after one block, otherwise unchanged |
| AdminRoutes.UnblockTwice | src/routes/admin.js:42-71 | unblocking twice answers the same both times; when that answer is 200 the store is as after one unblock, otherwise unchanged |
| AdminRoutes.BlockThenUnblock | src/routes/admin.js:32-66 | block then unblock answer alike; on 200 the store is the old one with only that user's `isDeactivated` set to false, so a user who was active is back exactly as before; otherwise nothing changes |
| AdminRoutes.ListUsers | src/routes/admin.js:74-86 | exactly the users whose role is `user`, or 404 when there are none |
| AdminRoutes.GetUser | src/routes/admin.js:89-114 | the stored user, 400 for a malformed id, 404 for an unknown one |
| AdminRoutes.DeleteUser | src/routes/admin.js:117-140 | the user is removed whatever their role, or 404 when absent; nothing else changes |
| UserQueries.ReceivedRequests | src/routes/user.js:8-24 | exactly the `interested` requests addressed to the caller |
| UserQueries.Connections | src/routes/user.js:26-46 | one entry per accepted request involving the caller, each the request's sender, answered 201 |
| UserQueries.ConnectionsListsCaller | src/routes/user.js:40 | when alice's request to bob was accepted, alice's connection list is ["alice"], not ["bob"] |
| UserQueries.ConnectionsCorrected | src/routes/user.js:26-46 | mapped to the other party: a user is listed if and only if an accepted request links the two, and the list has the same length |
| UserQueries.CorrectedOmitsCaller | src/routes/user.js:40 | the corrected list never names the caller when no request links a user to themself |
| PostFeed.ConnectionIds | src/routes/post.js:305-309 | one id per accepted request of the caller, the other party of each |
| PostFeed.ConnectionIdsSpec | src/routes/post.js:298-309 | a user is among the connection ids if and only if an accepted request links the two, in either direction |
| PostFeed.ConnectionPosts | src/routes/post.js:45-71 | exactly the posts whose creator has an accepted connection with the caller, whatever their visibility |
| PostFeed.FeedOf | src/routes/post.js:311-319 | at most 10 posts, each by a connection and not private |
| PostFeed.Feed | src/routes/post.js:294-334 | at most 10 stored posts, each public or friends-only and by a user with an accepted connection to the caller |
| PostFeed.StoredPostsInOrder | src/models/post.js:47 | posts are stored in creation order |
| PostFeed.FilterKeepsOrder | src/routes/post.js:311-317 | the `$match` stage keeps creation order |
| PostFeed.FeedNewestFirst | src/routes/post.js:318 | over posts in creation order the feed is strictly newest first |
| PostFeed.FeedKeepsNewest | src/routes/post.js:311-319 | a matching post left out of the feed is older than every post shown, and the feed is then full |
| PostFeed.FeedOfStoreNewestFirst | src/routes/post.js:294-334 | the feed of any valid store is newest first |
| PostFeed.AllPosts | src/routes/post.js:33-43 | every stored post, each exactly once |
| PostFeed.AllPostsNewestFirst | src/routes/post.js:33-43 | the full listing is strictly newest first |
| PostRoutes.CreatePost | src/routes/post.js:10-30 | 400 exactly when content is missing; 201 exactly when the content trims to something non-empty, the image URL is accepted and there is a caller, storing exactly the schema's post (`NewPost`): trimmed content, the given image URL, the caller as creator, created now, `public`, no likes, no comments, 0 shares; otherwise 500 and nothing changes |
| PostRoutes.DeletePost | src/routes/post.js:74-95 | 500 for an id that does not cast, 404 for a missing post, 403 unless the caller created it or the caller's stored role is admin, otherwise that post is removed and nothing else changes |
| PostRoutes.ToggleLike | src/routes/post.js:107-114 | the caller's like flips: removed everywhere when present, appended when absent; every other user's like is unchanged |
| PostRoutes.ToggleLikeKeepsNoDup | src/routes/post.js:107-114 | a like list without duplicates stays without duplicates |
| PostRoutes.ToggleTwiceFromUnliked | src/routes/post.js:107-114 | two toggles starting from not liked restore the list |
| PostRoutes.ToggleTwiceFromLiked | src/routes/post.js:107-114 | two toggles starting from liked keep the same likers, with the caller moved to the end |
| PostRoutes.LikePost | src/routes/post.js:98-124 | 500 for an id that does not cast, 404 for a missing post; otherwise only that post's likes change, by `ToggleLike`, and `liked` says whether the caller likes it now |
| PostRoutes.AddComment | src/routes/post.js:127-144 | 400 for empty text, 500 for an id that does not cast, 404 for a missing post, otherwise `{user, text}` under a fresh id and with no replies is appended to that post's comments, the other comments unchanged |
| PostRoutes.AddReply | src/routes/post.js:341-354 | the reply is appended to the addressed comment only; a missing comment is `None` |
| PostRoutes.ReplyToNewComment | src/routes/post.js:341-354 | a reply to a comment just added lands on that comment |
| PostRoutes.ReplyAsWritten | src/routes/post.js:336-361 | 400 for empty text, 404 for a missing post or comment, otherwise 500 (an id that does not cast included); nothing is ever stored |
| PostRoutes.Reply | src/routes/post.js:336-361 | with comments that carry replies: the same 400, 500 and 404, otherwise the reply is stored on that comment, answered 200 |
| PostRoutes.Share | src/routes/post.js:160-182 | 500 for an id that does not cast, 404 for a missing post; otherwise the original's shares rise by exactly 1 and the schema's post (`NewPost`) copying its content and image URL, by the caller, with `parentPost` the original, created now, is stored: `public` whatever the original's visibility, with no likes, no comments and 0 shares; a copy refused by the schema leaves the increment and answers 500 |
| PostRoutes.BumpAndCopy | src/routes/post.js:163-176 | the two saves of a share, in order: the counter first, then the copy, which is exactly `NewPost` of the original's content and image URL |
| PostRoutes.UpdatedPost | src/routes/post.js:239-251 | each of content, image URL and visibility is replaced only when supplied non-empty and kept otherwise; the save fails exactly when a supplied value is refused |
| PostRoutes.UpdateNothingKeepsPost | src/routes/post.js:243-249 | an update with nothing supplied leaves the post as it was |
| PostRoutes.UpdateIdempotent | src/routes/post.js:243-249 | applying the same update twice is applying it once |
| PostRoutes.UpdatePost | src/routes/post.js:234-255 | 500 for an id that does not cast, 404 for a missing post, 403 unless the caller created it, 500 when a supplied value is refused, otherwise only that post changes, to `UpdatedPost` |

## Left out

- SHA-256 (FIPS 180-4) is a function parameter. Its properties are proved about the hashed text only.
- Encryption in routes/encrypted.js, bcrypt hashing, JWT signing and the login and signup routes of routes/auth.js are left out, because they are foreign crypto. `jwt.verify` is the `verify` parameter.
- The `validator` library (`isEmail`, `isStrongPassword`, `isURL`) and `mongoose.isValidObjectId` are abstract booleans.
- Whether an id casts to an ObjectId is the `castable` parameter. In routes/request.js the catch answers 400 for a thrown lookup, and `SendRequest` models that.
- routes/payment.js (Razorpay orders and webhooks) and routes/profile.js (its validator is not shown) are left out.
- src/app.js, src/middlewaresexample.js, the socket.io server set-up and CORS are bootstrap only.
- Multer's file storage is left out; the uploaded file is an `Upload` value.
- `populate`, `select` projections, response bodies other than the returned documents, and the `$lookup` stage of the feed are presentation only.
- Interleaving between `await`s is not modelled: each handler is one atomic step. Errors thrown by the database itself are not modelled.
- `Date.now` is the store's clock, which the model advances on every stored post.
- Socket.Registry.SendMessage: the `ConnectionRequest.findOne` at utils/socket.js:37-50 is neither awaited nor consulted, so it has no effect and is not modelled.
- GET `/posts/:postId`, GET `/posts/:postId/comment` and the chat room list GET `/` are plain reads by id, left out.
- `/posts/trending` and `/posts/hashtag/:tag` aggregate the `hashtags` field, which no route writes, and are left out.
- The saved-posts toggle (routes/post.js:211-232) uses `savedPosts`, a field the user schema does not have, and is left out.
- Both report routes (routes/post.js:257-292) are left out. One of them is registered inside the PUT handler.
- The review route's catch (src/routes/request.js:94-95) reads an undefined `err` and throws again. The model covers the throw of a lookup with an id that does not cast (`NO_RESPONSE`); a failing `save()` is not modelled.
- The ConnectionRequest, Chat and BlockUser models are not part of this model. Their fields are taken from how the routes use them.
- ChatRoomRoutes.PostRoomMessage: the route runs without `userAuth`. A sender id that does not cast would fail the save with 500; that case is not modelled.
- ChatRoomRoutes.CreateRoom: when `name` is absent, Mongoose drops the undefined filter key, so `findOne({ name })` matches any room. The model keeps that: `NameInUse` holds for an absent name whenever a room exists.
- Comment ids are fresh parameters, like the other new ObjectIds.
- JsString.LowerSpec: `Lower` folds only the ASCII capitals A-Z. JavaScript's `toLowerCase` also lowers other capitals ("É" to "é"), and can lengthen a string ("İ", U+0130, becomes two code units). Full Unicode case mapping tables are outside the model.
- JsString.Lower: the same ASCII-only folding. The model therefore stores a different email than Mongoose for an address with non-ASCII capitals.
- UserSchema.NewUser: the stored email is lower-cased for ASCII only, as above. `firstName`'s length is counted in characters, while Mongoose's `minLength`/`maxLength` count UTF-16 code units. So "😀😀" has length 4 for Mongoose, which accepts it, and length 2 for the model, which refuses it. The two agree on names inside the Basic Multilingual Plane.
- RoomIdentity.SortedPair: `LexLe` compares characters, which are code points. JavaScript's default `sort` compares UTF-16 code units. The two orders differ only between a character above U+FFFF and one in U+E000-U+FFFF; the hexadecimal ObjectIds the socket receives have neither.
- PostFeed.FeedNewestFirst: the model's clock rises strictly with every stored post, and new posts are appended in creation order. Real `Date.now` can return the same millisecond twice, and `$sort: { createdAt: -1 }` leaves such ties in no guaranteed order. The strict newest-first order of PostFeed.FeedNewestFirst, PostFeed.FeedOfStoreNewestFirst and PostFeed.AllPostsNewestFirst depends on that assumption. With ties it weakens to non-increasing creation time. PostFeed.AllPosts reads `sort({ _id: -1 })` as the reverse of insertion order. That assumes ObjectIds rise in creation order, which holds within one server process. It can fail across processes, whose random parts differ within the same second, or when the ObjectId counter wraps.
- Stored fields that no core route reads are left out of the records: the `createdAt`/`updatedAt` pair that `timestamps: true` adds to users (src/models/user.js:108), posts (src/models/post.js:47) and direct messages (src/models/privateChat.js:15), each comment's `createdAt` default (src/models/post.js:35) and each room message's `timestamp` default (src/models/chatRoom.js:13). Every "nothing else changes" and "only that field changes" in the contracts holds up to these fields. The real `save()` and `findByIdAndUpdate` also set `updatedAt`. This affects AdminRoutes.SetDeactivated, BlockRoutes.MarkBlocked, PostRoutes.LikePost, PostRoutes.AddComment, PostRoutes.UpdatePost and the other writes. A post's `createdAt` is kept, as the store's clock value.
- UserSchema.NewUser: `age` is an integer in the model, while the schema's `Number` also accepts fractions such as 18.5. The `min: 18` bound is the same.

## Findings

| source | as written | input that shows it | evidently intended | confidence | as-written member | corrected member |
|---|---|---|---|---|---|---|
| src/routes/chatRoom.js:43-45 with src/models/chatRoom.js:5 | the new room never gets the `password` the schema requires, so every save fails validation and the route answers 500 | an admin creates a room named "general" while no room exists | the room is stored and the route answers 201 (password optional) | not executed | ChatRoomRoutes.CreateRoomAsWritten | ChatRoomRoutes.CreateRoom |
| src/routes/post.js:352-353 with src/models/post.js:31-37 | comment subdocuments have no `replies` array, so `comment.replies.push` throws a TypeError and the route answers 500 | a reply with text "hi" to an existing comment of an existing post | the reply is stored on that comment | not executed | PostRoutes.ReplyAsWritten | PostRoutes.Reply |
| src/middlewares/auth.js:19-21 with src/models/user.js:6-109 | the user schema declares no `token` field, so `user.token` is undefined, differs from every cookie, and every authenticated request gets 401 | any request with a valid cookie of an existing user | the session token is stored on the user and a matching cookie is admitted | not executed | AuthGate.UserAuthAsWritten | AuthGate.UserAuth |
| src/routes/user.js:40 | each accepted request is mapped to its `fromUserId`, so the caller's own id is listed for every request the caller sent | alice sent bob a request that bob accepted; alice asks for her connections | the other party, as the feed routes of src/routes/post.js:305-309 compute it | not executed | UserQueries.ConnectionsListsCaller | UserQueries.ConnectionsCorrected |
