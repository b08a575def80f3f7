# Social graph and content store of a social-media REST API

This project models the core of a social-media REST API: what its Express handlers do to
the document store. The handlers cover three areas:

- the **follow/block graph** between users (follow, unfollow, block, unblock);
- the **content graph** of posts and their comments, the replies inside a comment, and
  the like toggles on posts, comments and replies;
- the **cascading deletion** of a user.

Documents are Dafny datatypes (`User`, `Post`, `Comment`, `Reply`, `Story`). Ids are
opaque naturals. The store is `Db`: one map per collection, plus a counter `next` that
hands out fresh ids, standing in for ObjectId generation.

Every handler is written twice:

- **The specification.** A pure function in `Relationships`, `Posts`, `Comments` or
  `Cascade` maps a store to an `Outcome`: either `Ok` with the new store, or `Err` with
  one typed error, and then nothing is written. The one read-only handler,
  `Posts.GetPosts`, returns a `Result` holding the found posts instead.
- **The store method.** `Engine.Store` is a class whose fields are the collections. Each
  handler is one of its methods and works the way the handler does: it loads documents,
  checks in the handler's order, edits its copies (push, filter, index assignment) and
  saves them.

Each method is proved to leave the store exactly as its specification says (`Agrees`) and
to keep the store's referential-integrity invariant `Consistent`. `Consistent` holds when:

- every handed-out id is below `next`;
- a post lists only comments that exist and whose `post` is that post;
- reply ids are distinct within their comment;
- follow edges are recorded on both ends and are never self-edges;
- each user's `posts` index lists exactly the posts that user owns.

The MongoDB bulk operations the cascade uses (`find`, `deleteMany`, `updateMany`) are
loops over the map's keys (`Engine.FindMany`, `Engine.DeleteMany`, `Engine.UpdateMany`).
The `Promise.all` over comments with a reply by the user is a sequential loop
(`Engine.PullRepliesOf`).

Files: `model.dfy` (documents, errors, array helpers, invariants), `relationships.dfy`,
`posts.dfy`, `comments.dfy`, `cascade.dfy` (specifications and their properties),
`store.dfy` (the store class and the bulk-operation loops).

Three divergences are modelled as written, each with a lemma that exhibits it:

- Block is one-directional (`Relationships.BlockKeepsReverseEdge`).
- Deleting a user does not delete other users' comments on that user's posts
  (`Cascade.DeleteUserLeavesOrphans`).
- Deleting a user leaves every block list untouched (`Cascade.DeleteUserKeepsBlockLists`).

Two are bugs: they are modelled both as written and as intended. See "## Findings". One
more step of the cascade, the pull of the user from reply likes, is modelled by its evident
intent only; "## Left out" says why.

## Model

| member | source | states |
|---|---|---|
| Model.Without | controllers/userController.js:99-104 | filter by inequality / `$pull`: keeps exactly the elements other than x, never grows, and is the identity when x is absent |
| Model.PushThenPull | controllers/postController.js:151-181 | pushing an absent value and then filtering it out gives back the original array |
| Model.FindReply | controllers/commentController.js:113-118 | findIndex by reply id: the first position whose reply has the id, or none exactly when no reply has it |
| Model.RemoveReplyKeeps | controllers/commentController.js:206-208 | the intended reply filter keeps exactly the replies with another id |
| Model.RemoveReplyAt | controllers/commentController.js:206-208 | when only position k holds the id, the filter cuts exactly position k and keeps the order of the rest |
| Model.RemoveReply | controllers/commentController.js:206-208 | the intended reply filter by id; what it keeps is stated by RemoveReplyKeeps and RemoveReplyAt |
| Model.FoundReplyIsUnique | controllers/commentController.js:113-118 | with distinct reply ids, the position found is the only one holding the id |
| Model.FindReplySameIds | controllers/commentController.js:120-124 | editing reply fields other than ids does not change what findIndex finds |
| Model.DropRepliesByKeeps | controllers/userController.js:222-224 | filtering replies by author keeps exactly the replies by other users |
| Model.DropRepliesBy | controllers/userController.js:222-224 | the reply filter by author; what it keeps is stated by DropRepliesByKeeps |
| Model.ContentSubmaps | controllers/postController.js:127-128 | deleting posts and comments (sub-maps, values unchanged) keeps the id bounds, listing agreement and reply distinctness |
| Model.ListingsShrink | controllers/commentController.js:178-182 | shrinking post listings and deleting comments keeps every listed comment pointing back at its post |
| Model.FollowGraphFrame | controllers/postController.js:18-19 | changing users but not their follow lists keeps the follow graph well formed |
| Model.PostsIndexedPostsFrame | controllers/postController.js:75-79 | editing posts without changing their owner keeps every user's posts index exact |
| Relationships.CheckPair | controllers/userController.js:47-55 | the shared guards: self-reference first, then missing user; no error exactly when both users exist and differ |
| Relationships.Follow | controllers/userController.js:43-79 | errors (self, missing user, blocked, already following) in the handler's order, each iff its condition; on success the target is appended to the actor's following and the actor to the target's followers, and nothing else changes |
| Relationships.Unfollow | controllers/userController.js:81-113 | errors (self, missing user, not following); on success every occurrence of the target leaves the actor's following and of the actor the target's followers, nothing else changes |
| Relationships.Block | controllers/userController.js:115-149 | errors (self, missing user, already blocked); on success the target is appended to the block list and the actor->target edge is cut on both ends, nothing else changes |
| Relationships.Unblock | controllers/userController.js:151-178 | errors (self, missing user, not blocked); on success only the actor's block list changes |
| Relationships.FollowTwiceFails | controllers/userController.js:65-67 | a second identical follow is refused with AlreadyFollowing |
| Relationships.FollowThenUnfollow | controllers/userController.js:95-104 | in a graph with mirrored edges, unfollow after follow restores the store exactly |
| Relationships.BlockKeepsReverseEdge | controllers/userController.js:135-140 | block is one-directional: an existing target->actor edge survives on both its ends |
| Relationships.BlockUnblockThenFollow | controllers/userController.js:165-172 | after block then unblock no actor->target edge is restored, and follow then succeeds |
| Relationships.BlockedMeansNoFollow | controllers/userController.js:59-64 | while the block is in place follow is refused with Blocked |
| Relationships.FollowRewritesEdge | controllers/userController.js:69-73 | follow adds exactly the one edge actor->target on both ends |
| Relationships.UnfollowRewritesEdge | controllers/userController.js:99-104 | unfollow removes exactly the one edge actor->target on both ends |
| Relationships.BlockRewritesEdge | controllers/userController.js:133-140 | block removes exactly the one edge actor->target and extends only the actor's block list |
| Relationships.EdgeRewriteKeepsGraph | controllers/userController.js:69-140 | adding or removing one mirrored edge between two distinct users keeps the follow graph well formed |
| Relationships.UnblockKeepsGraph | controllers/userController.js:169-172 | unblocking keeps the follow graph well formed |
| Relationships.FollowKeepsConsistent | controllers/userController.js:69-73 | follow keeps the store invariant |
| Relationships.UnfollowKeepsConsistent | controllers/userController.js:99-107 | unfollow keeps the store invariant |
| Relationships.BlockKeepsConsistent | controllers/userController.js:133-143 | block keeps the store invariant |
| Relationships.UnblockKeepsConsistent | controllers/userController.js:169-172 | unblock keeps the store invariant |
| Posts.FileUrl | controllers/postController.js:32-34 | the URL is the base URL, then `/uploads/`, then the file name |
| Posts.ImageUrls | controllers/postController.js:45 | one URL per uploaded file, in file order, each the URL of that file |
| Posts.CreatePost | controllers/postController.js:6-30 | createPostController is `CreatePost(db, user, caption, [])`: fails iff the user is missing; on success a post by the user with the caption, no likes and no comments appears under a fresh id appended to the end of the user's posts; nothing else changes |
| Posts.CreatePostWithImage | controllers/postController.js:36-65 | fails iff the user is missing; the new post is owned by the user, has the caption, no likes and no comments, and its id ends the user's `posts`; its image list has one entry per file, in file order, each the file's URL |
| Posts.UpdatePost | controllers/postController.js:67-91 | fails iff the post is missing; on success only that post's caption changes |
| Posts.GetPosts | controllers/postController.js:93-110 | fails iff the user is missing; returns exactly the posts whose user is that id |
| Posts.PostsBy | controllers/postController.js:100 | `Post.find({ user })`: exactly the posts whose owner is the user, with their values |
| Posts.GetPostsMatchesIndex | controllers/postController.js:96-100 | in a consistent store the posts found by owner are exactly the owner's posts index |
| Posts.DeletePost | controllers/postController.js:112-134 | fails on a missing post, then on a missing owner; on success the post is gone, its id is pulled from the owner's posts, every comment on it is deleted, nothing else changes |
| Posts.DropCommentsUnder | controllers/postController.js:127 | `Comment.deleteMany({ post })`: exactly the comments whose parent is another post, with their values |
| Posts.LikePost | controllers/postController.js:136-163 | errors (missing post, missing user, already liked) each iff its condition; on success the user is appended to the post's likes only |
| Posts.DislikePost | controllers/postController.js:165-193 | errors (missing post, missing user, not liked) each iff its condition; on success the user leaves the post's likes only |
| Posts.LikeThenDislike | controllers/postController.js:178-181 | dislike after like restores the store exactly |
| Posts.LikePostStrict | controllers/postController.js:148-151 | a second like is refused, and duplicate-free likes stay duplicate-free |
| Posts.CreatePostIsFresh | controllers/postController.js:13-18 | the new post's id is not in use and in no user's index; the owner's index gains it at the end |
| Posts.AddPostKeeps | controllers/postController.js:17-19 | adding a comment-less post under a fresh id and indexing it keeps the post invariants |
| Posts.RemovePostKeepsIndex | controllers/postController.js:123-128 | removing a post and its id from its owner's index keeps every index exact |
| Posts.CreatePostKeepsConsistent | controllers/postController.js:13-19 | post creation keeps the store invariant |
| Posts.AddPostKeepsConsistent | controllers/postController.js:13-19 | storing a comment-less post under the fresh id and indexing it on its owner keeps the store invariant |
| Posts.UpdatePostKeepsConsistent | controllers/postController.js:75-79 | caption update keeps the store invariant |
| Posts.DeletePostKeepsConsistent | controllers/postController.js:123-128 | post deletion keeps the store invariant |
| Posts.DropPostKeepsContent | controllers/postController.js:127-128 | deleting a post with the comments under it keeps the id bounds, listing agreement, live listings and reply distinctness |
| Posts.LikePostKeepsConsistent | controllers/postController.js:151-152 | post like keeps the store invariant |
| Posts.DislikePostKeepsConsistent | controllers/postController.js:181-182 | post dislike keeps the store invariant |
| Comments.CreateComment | controllers/commentController.js:6-35 | fails on a missing post, then on a missing user; on success a comment with the user, post and text appears under a fresh id appended to the end of the post's comments; nothing else changes |
| Comments.CreateReply | controllers/commentController.js:37-70 | fails on a missing comment, then on a missing user; on success one reply {text, user} with a fresh id is appended after the existing replies |
| Comments.UpdateComment | controllers/commentController.js:72-101 | fails on a missing comment or a non-author, each iff its condition; on success only the comment's text changes |
| Comments.UpdateReply | controllers/commentController.js:103-137 | finds the reply by id; missing reply and non-author errors each iff its condition; on success only that reply's text changes |
| Comments.DeleteComment | controllers/commentController.js:171-189 | fails iff the comment is missing; on success the comment is gone and its id is pulled from post listings |
| Comments.PullListing | controllers/commentController.js:178-182 | every post keeps its other fields, and its listing keeps exactly the ids other than the comment's |
| Comments.DeleteReply | controllers/commentController.js:191-218 | intended rule: fails on a missing comment, and on a missing reply iff no reply has the id; on success the replies are filtered by id |
| Comments.DeleteReplyAsWritten | controllers/commentController.js:206-208 | as written: the same guards, and it succeeds iff some reply holds the id; on success the comment's replies are empty and nothing else changes |
| Comments.LikeComment | controllers/commentController.js:220-250 | errors (missing comment, missing user, already liked) each iff its condition; on success only the comment's likes gain the user |
| Comments.DislikeComment | controllers/commentController.js:252-286 | errors (missing comment, missing user, not liked) each iff its condition; on success the user leaves only that comment's likes |
| Comments.LikeReply | controllers/commentController.js:288-323 | lookups comment, user, reply by id; already-liked iff the user is in the reply's likes; on success only that reply's likes gain the user |
| Comments.DislikeReply | controllers/commentController.js:325-362 | the same lookups; not-liked iff the user is absent; on success the user leaves only that reply's likes |
| Comments.CreateCommentIsFresh | controllers/commentController.js:17-25 | the new comment id is unused and unlisted, and afterwards exactly its own post lists it |
| Comments.CreateReplyIsFindable | controllers/commentController.js:52-58 | the new reply is found by its id at the end of the list |
| Comments.DeleteReplyRemovesId | controllers/commentController.js:199-210 | after the intended delete, the replies are exactly the old ones with another id |
| Comments.DeleteReplyAsWrittenRemovesId | controllers/commentController.js:199-210 | after the delete as written, no reply holds the id |
| Comments.DeleteReplyCutsOne | controllers/commentController.js:199-210 | with distinct reply ids, the intended delete cuts exactly the found position and keeps the order |
| Comments.DeleteReplyAsWrittenDropsOthers | controllers/commentController.js:206-208 | counterexample: deleting reply 1 of a two-reply comment also drops reply 2 as written; the intended rule keeps it |
| Comments.DeleteCommentTouchesOnlyParent | controllers/commentController.js:178-182 | under the listing invariant only the comment's parent post changes |
| Comments.PullListingAt | controllers/commentController.js:178-182 | pulling the id from every post equals the single update of the post that lists it |
| Comments.PullListingNone | controllers/commentController.js:178-182 | when no post lists the comment no post changes |
| Comments.LikeThenDislikeComment | controllers/commentController.js:237-272 | dislike after like restores the store exactly |
| Comments.LikeCommentStrict | controllers/commentController.js:233-237 | a second like is refused, and duplicate-free likes stay duplicate-free |
| Comments.LikeThenDislikeReply | controllers/commentController.js:309-348 | for a reply, dislike after like restores the store exactly |
| Comments.LikeReplyStrict | controllers/commentController.js:305-309 | a second like of a reply is refused |
| Comments.ReplyEditKeepsIds | controllers/commentController.js:124 | editing a reply in place keeps every reply id in its position |
| Comments.UpdateReplyOnlyThatReply | controllers/commentController.js:113-126 | the list keeps its length, the found reply gets the text, every other reply is unchanged |
| Comments.ReplaceCommentKeeps | controllers/commentController.js:124-126 | saving a comment with the same post and valid reply ids keeps the comment invariants |
| Comments.AddCommentKeeps | controllers/commentController.js:23-25 | adding a fresh comment and listing it on its post keeps the invariants |
| Comments.AddListingKeeps | controllers/commentController.js:23-25 | listing a fresh comment at the end of its own post keeps the post id bound, listing agreement and live listings |
| Comments.CreateCommentKeepsConsistent | controllers/commentController.js:17-25 | comment creation keeps the store invariant |
| Comments.CreateReplyKeepsConsistent | controllers/commentController.js:52-58 | reply creation keeps the store invariant |
| Comments.UpdateCommentKeepsConsistent | controllers/commentController.js:85-89 | comment update keeps the store invariant |
| Comments.UpdateReplyKeepsConsistent | controllers/commentController.js:124-126 | reply update keeps the store invariant |
| Comments.DeleteCommentKeepsConsistent | controllers/commentController.js:178-183 | comment deletion keeps the store invariant |
| Comments.PullListingKeeps | controllers/commentController.js:178-183 | pulling the id from every listing and deleting the comment keeps the post id bound, listing agreement and live listings |
| Comments.DeleteReplyKeepsConsistent | controllers/commentController.js:199-210 | intended reply deletion keeps the store invariant |
| Comments.DeleteReplyAsWrittenKeepsConsistent | controllers/commentController.js:206-210 | reply deletion as written keeps the store invariant |
| Comments.LikeCommentKeepsConsistent | controllers/commentController.js:237-238 | comment like keeps the store invariant |
| Comments.DislikeCommentKeepsConsistent | controllers/commentController.js:272-274 | comment dislike keeps the store invariant |
| Comments.LikeReplyKeepsConsistent | controllers/commentController.js:309-311 | reply like keeps the store invariant |
| Comments.DislikeReplyKeepsConsistent | controllers/commentController.js:346-350 | reply dislike keeps the store invariant |
| Cascade.WithoutAny | controllers/userController.js:212-215 | pulling a set of ids keeps exactly the ids outside the set |
| Cascade.DropPostsOf | controllers/userController.js:209 | `Post.deleteMany({ user })`: exactly the posts of other owners stay, unchanged |
| Cascade.PullAuthored | controllers/userController.js:212-215 | intended rule: same posts, only listings change, and a listing keeps exactly the ids of comments u did not write |
| Cascade.PullAuthoredAsWritten | controllers/userController.js:212-215 | as written: every post is left exactly as it was |
| Cascade.PullRepliesBy | controllers/userController.js:218-228 | same comments, only their replies change |
| Cascade.PullRepliesByKeeps | controllers/userController.js:222-224 | every comment keeps exactly the replies by other users |
| Cascade.DropCommentsOf | controllers/userController.js:231 | `Comment.deleteMany({ user })`: exactly the comments by other users stay, unchanged |
| Cascade.DropStoriesOf | controllers/userController.js:234 | `Story.deleteMany({ user })`: exactly the stories by other users stay, unchanged |
| Cascade.PullPostLikes | controllers/userController.js:237 | same posts, only likes change, and each keeps exactly the likers other than u |
| Cascade.PullFollowerFrom | controllers/userController.js:240-243 | same users; a user among the targets keeps exactly the followers other than u; any other user is unchanged |
| Cascade.PullFollowing | controllers/userController.js:246-249 | same users, only following lists change, and each keeps exactly the followees other than u |
| Cascade.PullCommentLikes | controllers/userController.js:252 | same comments, only likes change, and each keeps exactly the likers other than u |
| Cascade.PullReplyLikes | controllers/userController.js:255-258 | intended rule: same comments and reply counts; every reply keeps its id, author and text, and keeps exactly the likers other than u |
| Cascade.UnlikeReplies | controllers/userController.js:255-258 | every reply keeps every field but its likes, and its likes keep exactly the likers other than the user |
| Cascade.DeleteUser | controllers/userController.js:199-272 | fails iff the user is missing, before any step; on success the users are the old ones minus u |
| Cascade.DeleteUserRemovesTraces | controllers/userController.js:208-264 | afterwards no post, comment, reply or story is by u, u likes no post, comment or reply, and nobody follows u |
| Cascade.DeleteUserClearsFollowers | controllers/userController.js:240-243 | with mirrored edges no user lists u as follower, though only u's followees are updated |
| Cascade.DeleteUserKeepsBlockLists | controllers/userController.js:240-249 | every remaining block list is unchanged, so u stays in others' block lists |
| Cascade.DeleteUserLeavesOrphans | controllers/userController.js:209 | another user's comment on u's post survives, pointing at a deleted post |
| Cascade.DeleteUserTwiceFails | controllers/userController.js:204-206 | deleting the same user again is refused with a missing user |
| Cascade.DropPostsOfIdempotent | controllers/userController.js:209 | deleting u's posts twice is deleting them once |
| Cascade.PullAuthoredIdempotent | controllers/userController.js:212-215 | pulling u's comment ids twice is pulling them once |
| Cascade.PullRepliesByIdempotent | controllers/userController.js:218-228 | dropping u's replies twice is dropping them once |
| Cascade.DropCommentsOfIdempotent | controllers/userController.js:231 | deleting u's comments twice is deleting them once |
| Cascade.DropStoriesOfIdempotent | controllers/userController.js:234 | deleting u's stories twice is deleting them once |
| Cascade.PullPostLikesIdempotent | controllers/userController.js:261 | pulling u from post likes twice is pulling once, so the final pass changes nothing |
| Cascade.PullFollowerFromIdempotent | controllers/userController.js:240-243 | pulling u from followers twice is pulling once |
| Cascade.PullFollowingIdempotent | controllers/userController.js:246-249 | pulling u from following twice is pulling once |
| Cascade.PullCommentLikesIdempotent | controllers/userController.js:252 | pulling u from comment likes twice is pulling once |
| Cascade.PullReplyLikesIdempotent | controllers/userController.js:255-258 | pulling u from reply likes twice is pulling once |
| Cascade.CleanRepliesBy | controllers/userController.js:218-258 | after both reply steps no reply is by u or liked by u |
| Cascade.RemainingUsersAt | controllers/userController.js:240-264 | after the user steps: users minus u, block lists and indexes kept, u gone from every following, and from the followers of u's followees |
| Cascade.RemainingPostsAt | controllers/userController.js:209-261 | after the post steps: u's posts gone, owners kept, u's comment ids and u's likes gone |
| Cascade.CascadeKeepsGraph | controllers/userController.js:240-264 | removing u and its edges keeps the follow graph well formed |
| Cascade.CascadeKeepsIndex | controllers/userController.js:209 | removing u's posts with u keeps every remaining index exact |
| Cascade.CascadeKeepsComments | controllers/userController.js:218-258 | the comment steps keep reply ids distinct and below the counter |
| Cascade.CascadeKeepsListings | controllers/userController.js:209-261 | the post steps keep listing agreement and the post id bound |
| Cascade.DeleteUserKeepsConsistent | controllers/userController.js:199-272 | the cascade keeps the store invariant |
| Cascade.DeleteUserKeepsListingsLive | controllers/userController.js:212-231 | with the intended comment pull, no post lists a deleted comment afterwards |
| Cascade.PullAuthoredAsWrittenLeavesDangling | controllers/userController.js:212-215 | counterexample: as written a post keeps listing the deleted comment of u; the intended pull drops it |
| Engine.FindMany | controllers/postController.js:100 | `find(filter)`: exactly the documents the filter matches, with their values |
| Engine.DeleteMany | controllers/postController.js:127 | `deleteMany(filter)`: exactly the documents the filter does not match, with their values |
| Engine.UpdateMany | controllers/userController.js:252 | `updateMany(filter, update)`: same ids; matching documents updated, others unchanged |
| Engine.DeletePostsOf | controllers/userController.js:209 | the bulk deletion computes the cascade's post step |
| Engine.PullAuthoredComments | controllers/userController.js:212-215 | the bulk update computes the cascade's intended comment-id pull |
| Engine.PullRepliesOf | controllers/userController.js:218-228 | the loop over the comments with a reply by u computes the cascade's reply step |
| Engine.DeleteCommentsUnder | controllers/postController.js:127 | the bulk deletion removes exactly the comments on the post |
| Engine.FindOneAndPull | controllers/commentController.js:178-182 | updating the one post that lists the comment gives the pull from every post |
| Engine.DeleteCommentsOf | controllers/userController.js:231 | the bulk deletion computes the cascade's comment step |
| Engine.DeleteStoriesOf | controllers/userController.js:234 | the bulk deletion computes the cascade's story step |
| Engine.PullLikesFromPosts | controllers/userController.js:237 | with the filter on likes (and also with the empty filter of line 261) the update computes the same post-likes step |
| Engine.PullFollowerFromTargets | controllers/userController.js:240-243 | the bulk update computes the followers step over u's followees |
| Engine.PullFromFollowing | controllers/userController.js:246-249 | the bulk update computes the following step |
| Engine.PullLikesFromComments | controllers/userController.js:252 | the bulk update computes the comment-likes step |
| Engine.PullLikesFromReplies | controllers/userController.js:255-258 | the bulk update computes the reply-likes step |
| Engine.RunCascade | controllers/userController.js:202-264 | the user lookup, then the eleven steps in order and the user's removal: error and result agree with the cascade, the counter is kept, and a consistent store stays consistent |
| Engine.KeepOtherReplies | controllers/commentController.js:206-208 | the filter loop computes the intended reply filter |
| Engine.Store.constructor | database/db.js:3-10 | the store the handlers share: any consistent collections, held as they are |
| Engine.Store.Follow | controllers/userController.js:43-79 | error and new store agree with Follow; the invariant is kept |
| Engine.Store.Unfollow | controllers/userController.js:81-113 | error and new store agree with Unfollow; the invariant is kept |
| Engine.Store.Block | controllers/userController.js:115-149 | error and new store agree with Block; the invariant is kept |
| Engine.Store.Unblock | controllers/userController.js:151-178 | error and new store agree with Unblock; the invariant is kept |
| Engine.Store.CreatePost | controllers/postController.js:6-30 | error and new store agree with CreatePost, which createPostController calls with no images; the invariant is kept |
| Engine.Store.CreatePostWithImage | controllers/postController.js:36-65 | error and new store agree with CreatePostWithImage; the invariant is kept |
| Engine.Store.UpdatePost | controllers/postController.js:67-91 | error and new store agree with UpdatePost; the invariant is kept |
| Engine.Store.GetPosts | controllers/postController.js:93-110 | the result is GetPosts of the store |
| Engine.Store.DeletePost | controllers/postController.js:112-134 | error and new store agree with DeletePost; the invariant is kept |
| Engine.Store.LikePost | controllers/postController.js:136-163 | error and new store agree with LikePost; the invariant is kept |
| Engine.Store.DislikePost | controllers/postController.js:165-193 | error and new store agree with DislikePost; the invariant is kept |
| Engine.Store.CreateComment | controllers/commentController.js:6-35 | error and new store agree with CreateComment; the invariant is kept |
| Engine.Store.CreateReply | controllers/commentController.js:37-70 | error and new store agree with CreateReply; the invariant is kept |
| Engine.Store.UpdateComment | controllers/commentController.js:72-101 | error and new store agree with UpdateComment; the invariant is kept |
| Engine.Store.UpdateReply | controllers/commentController.js:103-137 | error and new store agree with UpdateReply; the invariant is kept |
| Engine.Store.DeleteComment | controllers/commentController.js:171-189 | updating only the one post that lists the id agrees with DeleteComment; the invariant is kept |
| Engine.Store.DeleteReply | controllers/commentController.js:191-218 | error and new store agree with the intended DeleteReply; the invariant is kept |
| Engine.Store.LikeComment | controllers/commentController.js:220-250 | error and new store agree with LikeComment; the invariant is kept |
| Engine.Store.DislikeComment | controllers/commentController.js:252-286 | error and new store agree with DislikeComment; the invariant is kept |
| Engine.Store.LikeReply | controllers/commentController.js:288-323 | error and new store agree with LikeReply; the invariant is kept |
| Engine.Store.DislikeReply | controllers/commentController.js:325-362 | error and new store agree with DislikeReply; the invariant is kept |
| Engine.Store.DeleteUser | controllers/userController.js:199-272 | error and new store agree with DeleteUser; the invariant is kept |
| Engine.Store.WriteBack | controllers/userController.js:264 | the store afterwards holds exactly the given consistent collections, so the store invariant holds |

## Left out

- Authentication, registration and login are not part of this model: hashing, tokens
  and cookies are foreign calls. Users are never created here. A store starts from any
  consistent collections (`Engine.Store.constructor`).
- Reading a user, updating a user's arbitrary fields, searching users by regular
  expression, listing blocked users and the comments of a post are not modelled.
  Population of referenced documents is presentation only.
- Profile and cover picture uploads are not modelled. For post images, the upload
  middleware and the `URL` environment variable are outside the model. The base URL and
  the file names are parameters of `Posts.CreatePostWithImage`.
- HTTP status codes, messages and response bodies are not modelled. Each failure that
  the handlers check for themselves is one `Error` constructor. Failures raised by the
  store (schema validation, a failed write) are not among them; see the next line.
- Posts.CreatePost, Posts.CreatePostWithImage, Posts.UpdatePost, Comments.CreateComment
  and Comments.CreateReply: schema validation is not modelled. These handlers validate
  on `save()` (controllers/postController.js:17 and 52, controllers/commentController.js:23
  and 58) or ask for validators (`runValidators` at controllers/postController.js:78), but
  the User, Post and Comment schemas are not part of this model. So these members always
  succeed once their lookups pass, and no `ValidationError` exists.
- A store write that fails is not modelled. Handlers that save two documents in turn,
  such as follow (controllers/userController.js:72-73), would leave a one-sided edge if the
  second save failed. Every specification here writes all of its documents or none.
- Requests run one at a time. Lost updates between concurrent requests are out of scope.
  `Promise.all` over comments is a sequential loop, and the order of map iteration is
  arbitrary, which does not affect the result.
- Ids are opaque naturals compared by equality. Casting between ObjectId and string
  (`==`, `===`, `toString()`) is not modelled. Fresh ids come from the counter `next`.
- Stories keep their user, text and optional image. The creation timestamp of
  models/Story.js is dropped. No handler in this model creates stories.
- Posts.UpdatePost: the handler writes the caption with `findByIdAndUpdate` and then calls
  `save()` on the copy it loaded before the update. That copy has no modified paths, so
  the model treats the `save()` as writing nothing.
- Comments.UpdateComment: the handler writes the text with `findByIdAndUpdate` only. The
  schema validators it asks for (`runValidators`) are not part of this model.
- Engine.FindOneAndPull: the handler's `findOneAndUpdate` picks one post listing the
  id. The method picks any such post. Under the store invariant at most one post lists a
  comment, so the choice does not matter.
- Cascade.PullReplyLikes: models the evident intent of
  `Comment.updateMany({'replies.likes': u}, {$pull: {'replies.likes': u}})` at
  controllers/userController.js:255-258, which is to remove u from every reply's likes. The
  path `replies.likes` runs through an array without a positional operator, and MongoDB may
  refuse such an update once a comment matches, that is once u likes some reply. The
  handler would then fail after line 252: u's posts, comments and stories are already
  deleted and the edges pulled, but the final likes pass (line 261) does not run and u
  itself (line 264) is not deleted. `Cascade.DeleteUser` is all or nothing and does not
  show that partial state. Whether the update fails depends on the store's behaviour,
  which is not part of this model. `Cascade.DeleteUserRemovesTraces` ("u likes no reply")
  rests on the intended rule.

## Findings

| source | as written | input that shows it | evidently intended | confidence | as-written member | corrected member |
|---|---|---|---|---|---|---|
| controllers/commentController.js:206-208 | the filter callback has a block body with no `return`, so it yields undefined for every reply and all replies are dropped | comment 0 with replies 1 and 2; delete reply 1: reply 2 is gone too | keep every reply whose id differs from the deleted one | not executed | Comments.DeleteReplyAsWrittenDropsOthers | Comments.DeleteReplyRemovesId |
| controllers/userController.js:212-215 | `comments` of a post holds bare comment ids, so the filter on `comments.user` and the pull of `{user: u}` match nothing; the ids of u's comments stay listed after line 231 deletes the comments | user 0 wrote comment 20 on post 10 of user 1; delete user 0: post 10 still lists 20, which no longer exists | drop from every post the ids of the comments u wrote | not executed | Cascade.PullAuthoredAsWrittenLeavesDangling | Cascade.DeleteUserKeepsListingsLive |
