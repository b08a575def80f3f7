/** Cascading deletion of a user (deleteUserController, controllers/userController.js).
    The handler runs a fixed sequence of bulk store operations; each is one function here,
    named after what it does, and DeleteUser composes them in the handler's order. */
module Cascade {
  import opened Model

  // ---------------------------------------------------------------------------
  // The steps, in the order the handler runs them

  /** `Post.deleteMany({ user })`. */
  function DropPostsOf(posts: map<PostId, Post>, u: UserId): (r: map<PostId, Post>)
    ensures forall p :: p in r <==> p in posts && posts[p].user != u
    ensures forall p :: p in r ==> r[p] == posts[p]
  {
    map p | p in posts && posts[p].user != u :: posts[p]
  }

  /** The ids of the comments `u` wrote. */
  function AuthoredBy(comments: map<CommentId, Comment>, u: UserId): set<CommentId> {
    set c | c in comments && comments[c].user == u
  }

  /** `s.filter(y => !xs.has(y))`. */
  function WithoutAny(s: seq<nat>, xs: set<nat>): (r: seq<nat>)
    ensures forall y :: y in r <==> y in s && y !in xs
  {
    if |s| == 0 then [] else (if s[0] in xs then [] else [s[0]]) + WithoutAny(s[1..], xs)
  }

  /** The evident intent of `Post.updateMany({'comments.user': u}, {$pull: {comments: {user: u}}})`:
      every post drops the ids of the comments `u` wrote. */
  function PullAuthored(posts: map<PostId, Post>, comments: map<CommentId, Comment>, u: UserId): (r: map<PostId, Post>)
    ensures r.Keys == posts.Keys
    ensures forall p :: p in r ==> r[p].(comments := posts[p].comments) == posts[p]
    ensures forall p, c :: p in r ==>
      (c in r[p].comments <==> c in posts[p].comments && !(c in comments && comments[c].user == u))
  {
    map p | p in posts :: posts[p].(comments := WithoutAny(posts[p].comments, AuthoredBy(comments, u)))
  }

  /** The same update as written: a post's `comments` holds bare ids, so neither the filter
      `'comments.user'` nor the pull condition `{user: u}` matches anything, and no post changes. */
  function PullAuthoredAsWritten(posts: map<PostId, Post>, comments: map<CommentId, Comment>, u: UserId): (r: map<PostId, Post>)
    ensures r.Keys == posts.Keys
    ensures forall p :: p in r ==> r[p] == posts[p]
  {
    posts
  }

  /** The loop over the comments holding a reply by `u`: each drops those replies. */
  function PullRepliesBy(comments: map<CommentId, Comment>, u: UserId): (r: map<CommentId, Comment>)
    ensures r.Keys == comments.Keys
    ensures forall c :: c in r ==> r[c].(replies := comments[c].replies) == comments[c]
  {
    map c | c in comments :: comments[c].(replies := DropRepliesBy(comments[c].replies, u))
  }

  /** Every comment keeps exactly the replies by other users. */
  lemma PullRepliesByKeeps(comments: map<CommentId, Comment>, u: UserId)
    ensures forall c, y :: c in PullRepliesBy(comments, u) ==>
      (y in PullRepliesBy(comments, u)[c].replies <==> y in comments[c].replies && y.user != u)
  {
    forall c | c in comments {
      DropRepliesByKeeps(comments[c].replies, u);
    }
  }

  /** `Comment.deleteMany({ user })`. */
  function DropCommentsOf(comments: map<CommentId, Comment>, u: UserId): (r: map<CommentId, Comment>)
    ensures forall c :: c in r <==> c in comments && comments[c].user != u
    ensures forall c :: c in r ==> r[c] == comments[c]
  {
    map c | c in comments && comments[c].user != u :: comments[c]
  }

  /** `Story.deleteMany({ user })`. */
  function DropStoriesOf(stories: map<StoryId, Story>, u: UserId): (r: map<StoryId, Story>)
    ensures forall s :: s in r <==> s in stories && stories[s].user != u
    ensures forall s :: s in r ==> r[s] == stories[s]
  {
    map s | s in stories && stories[s].user != u :: stories[s]
  }

  /** `Post.updateMany(..., { $pull: { likes: u } })`. */
  function PullPostLikes(posts: map<PostId, Post>, u: UserId): (r: map<PostId, Post>)
    ensures r.Keys == posts.Keys
    ensures forall p :: p in r ==> r[p].(likes := posts[p].likes) == posts[p]
    ensures forall p, x :: p in r ==> (x in r[p].likes <==> x in posts[p].likes && x != u)
  {
    map p | p in posts :: posts[p].(likes := Without(posts[p].likes, u))
  }

  /** `User.updateMany({ _id: { $in: targets } }, { $pull: { followers: u } })`, where the
      handler passes the deleted user's own `following`. */
  function PullFollowerFrom(users: map<UserId, User>, targets: seq<UserId>, u: UserId): (r: map<UserId, User>)
    ensures r.Keys == users.Keys
    ensures forall v :: v in r ==> r[v].(followers := users[v].followers) == users[v]
    ensures forall v :: v in r && v !in targets ==> r[v] == users[v]
    ensures forall v, x :: v in r && v in targets ==> (x in r[v].followers <==> x in users[v].followers && x != u)
  {
    map v | v in users :: if v in targets then users[v].(followers := Without(users[v].followers, u)) else users[v]
  }

  /** `User.updateMany({ following: u }, { $pull: { following: u } })`. */
  function PullFollowing(users: map<UserId, User>, u: UserId): (r: map<UserId, User>)
    ensures r.Keys == users.Keys
    ensures forall v :: v in r ==> r[v].(following := users[v].following) == users[v]
    ensures forall v, x :: v in r ==> (x in r[v].following <==> x in users[v].following && x != u)
  {
    map v | v in users :: users[v].(following := Without(users[v].following, u))
  }

  /** `Comment.updateMany({}, { $pull: { likes: u } })`. */
  function PullCommentLikes(comments: map<CommentId, Comment>, u: UserId): (r: map<CommentId, Comment>)
    ensures r.Keys == comments.Keys
    ensures forall c :: c in r ==> r[c].(likes := comments[c].likes) == comments[c]
    ensures forall c, x :: c in r ==> (x in r[c].likes <==> x in comments[c].likes && x != u)
  {
    map c | c in comments :: comments[c].(likes := Without(comments[c].likes, u))
  }

  /** Every reply of a list with `u` pulled from its likes. */
  function UnlikeReplies(rs: seq<Reply>, u: UserId): (r: seq<Reply>)
    ensures |r| == |rs|
    ensures forall i :: 0 <= i < |rs| ==> r[i].id == rs[i].id && r[i].user == rs[i].user && u !in r[i].likes
    ensures forall i :: 0 <= i < |rs| ==> r[i].(likes := rs[i].likes) == rs[i]
    ensures forall i, x :: 0 <= i < |rs| ==> (x in r[i].likes <==> x in rs[i].likes && x != u)
  {
    seq(|rs|, i requires 0 <= i < |rs| => rs[i].(likes := Without(rs[i].likes, u)))
  }

  /** The evident intent of `Comment.updateMany({'replies.likes': u}, {$pull: {'replies.likes': u}})`. */
  function PullReplyLikes(comments: map<CommentId, Comment>, u: UserId): (r: map<CommentId, Comment>)
    ensures r.Keys == comments.Keys
    ensures forall c :: c in r ==> r[c].(replies := comments[c].replies) == comments[c]
    ensures forall c :: c in r ==> |r[c].replies| == |comments[c].replies|
    ensures forall c, i :: c in r && 0 <= i < |r[c].replies| ==>
      r[c].replies[i].id == comments[c].replies[i].id && r[c].replies[i].user == comments[c].replies[i].user &&
      u !in r[c].replies[i].likes
    ensures forall c, i :: c in r && 0 <= i < |r[c].replies| ==>
      r[c].replies[i].(likes := comments[c].replies[i].likes) == comments[c].replies[i]
    ensures forall c, i, x :: c in r && 0 <= i < |r[c].replies| ==>
      (x in r[c].replies[i].likes <==> x in comments[c].replies[i].likes && x != u)
  {
    map c | c in comments :: comments[c].(replies := UnlikeReplies(comments[c].replies, u))
  }

  /** The whole cascade; fails before any step when the user does not exist. Stories are
      not referenced by anything else. The post-likes pull runs twice, as in the handler. */
  function DeleteUser(db: Db, u: UserId): (r: Outcome)
    ensures r.Err? <==> u !in db.users
    ensures r.Err? ==> r.error == NotFound(UserDoc)
    ensures r.Ok? ==> r.db.users.Keys == db.users.Keys - {u} && r.db.next == db.next
  {
    if u !in db.users then Err(NotFound(UserDoc))
    else
      var doc := db.users[u];
      var posts1 := DropPostsOf(db.posts, u);
      var posts2 := PullAuthored(posts1, db.comments, u);
      var comments3 := PullRepliesBy(db.comments, u);
      var comments4 := DropCommentsOf(comments3, u);
      var stories5 := DropStoriesOf(db.stories, u);
      var posts6 := PullPostLikes(posts2, u);
      var users7 := PullFollowerFrom(db.users, doc.following, u);
      var users8 := PullFollowing(users7, u);
      var comments9 := PullCommentLikes(comments4, u);
      var comments10 := PullReplyLikes(comments9, u);
      var posts11 := PullPostLikes(posts6, u);
      Ok(Db(users8 - {u}, posts11, comments10, stories5, db.next))
  }

  // ---------------------------------------------------------------------------
  // What the cascade removes and what it leaves

  /** Cleaning a reply list keeps only replies by others, none of them liked by `u`. */
  lemma CleanRepliesBy(rs: seq<Reply>, u: UserId)
    ensures forall x :: x in UnlikeReplies(DropRepliesBy(rs, u), u) ==> x.user != u && u !in x.likes
  {
    var d := DropRepliesBy(rs, u);
    DropRepliesByKeeps(rs, u);
    forall x | x in UnlikeReplies(d, u) ensures x.user != u && u !in x.likes {
      var i :| 0 <= i < |d| && UnlikeReplies(d, u)[i] == x;
      assert d[i] in d;
    }
  }

  /** After a successful DeleteUser(u): u's record is gone; no post, comment, reply or story
      has u as its author; u likes no post, comment or reply; and no user's `following`
      lists u. */
  lemma DeleteUserRemovesTraces(db: Db, u: UserId)
    requires DeleteUser(db, u).Ok?
    ensures var db' := DeleteUser(db, u).db;
      u !in db'.users &&
      (forall p :: p in db'.posts ==> db'.posts[p].user != u && u !in db'.posts[p].likes) &&
      (forall c :: c in db'.comments ==> db'.comments[c].user != u && u !in db'.comments[c].likes) &&
      (forall c, x :: c in db'.comments && x in db'.comments[c].replies ==> x.user != u && u !in x.likes) &&
      (forall s :: s in db'.stories ==> db'.stories[s].user != u) &&
      (forall v :: v in db'.users ==> u !in db'.users[v].following)
  {
    var db' := DeleteUser(db, u).db;
    forall c | c in db'.comments
      ensures forall x :: x in db'.comments[c].replies ==> x.user != u && u !in x.likes
    {
      CleanRepliesBy(db.comments[c].replies, u);
    }
  }

  /** Given that follow edges are recorded on both ends, no user's `followers` lists u
      afterwards either, although the handler pulls u only from the users it followed. */
  lemma DeleteUserClearsFollowers(db: Db, u: UserId)
    requires FollowGraph(db.users) && DeleteUser(db, u).Ok?
    ensures var db' := DeleteUser(db, u).db;
      forall v :: v in db'.users ==> u !in db'.users[v].followers
  {
    var db' := DeleteUser(db, u).db;
    forall v | v in db'.users ensures u !in db'.users[v].followers {
      if v !in db.users[u].following {
        assert FollowersMirrored(db.users);
      }
    }
  }

  /** No block list is touched, so other users keep u in theirs. */
  lemma DeleteUserKeepsBlockLists(db: Db, u: UserId)
    requires DeleteUser(db, u).Ok?
    ensures var db' := DeleteUser(db, u).db;
      forall v :: v in db'.users ==> db'.users[v].blockList == db.users[v].blockList
  {
  }

  /** Deleting u's posts does not delete the comments other users wrote on them: those
      survive and point at a post that no longer exists. */
  lemma DeleteUserLeavesOrphans(db: Db, u: UserId, c: CommentId)
    requires DeleteUser(db, u).Ok?
    requires c in db.comments && db.comments[c].user != u
    requires db.comments[c].post in db.posts && db.posts[db.comments[c].post].user == u
    ensures var db' := DeleteUser(db, u).db;
      c in db'.comments && db'.comments[c].post == db.comments[c].post && db'.comments[c].post !in db'.posts
  {
  }

  /** The record is gone, so a second deletion of the same user is refused. */
  lemma DeleteUserTwiceFails(db: Db, u: UserId)
    requires DeleteUser(db, u).Ok?
    ensures DeleteUser(DeleteUser(db, u).db, u) == Err(NotFound(UserDoc))
  {
  }

  // ---------------------------------------------------------------------------
  // Each step is idempotent

  lemma WithoutAnyNone(s: seq<nat>, xs: set<nat>)
    requires forall y :: y in s ==> y !in xs
    ensures WithoutAny(s, xs) == s
  {
    if |s| > 0 {
      assert s[0] in s;
      WithoutAnyNone(s[1..], xs);
    }
  }

  lemma DropPostsOfIdempotent(posts: map<PostId, Post>, u: UserId)
    ensures DropPostsOf(DropPostsOf(posts, u), u) == DropPostsOf(posts, u)
  {
  }

  lemma PullAuthoredIdempotent(posts: map<PostId, Post>, comments: map<CommentId, Comment>, u: UserId)
    ensures PullAuthored(PullAuthored(posts, comments, u), comments, u) == PullAuthored(posts, comments, u)
  {
    var once := PullAuthored(posts, comments, u);
    forall p | p in once ensures WithoutAny(once[p].comments, AuthoredBy(comments, u)) == once[p].comments {
      WithoutAnyNone(once[p].comments, AuthoredBy(comments, u));
    }
  }

  lemma PullRepliesByIdempotent(comments: map<CommentId, Comment>, u: UserId)
    ensures PullRepliesBy(PullRepliesBy(comments, u), u) == PullRepliesBy(comments, u)
  {
    var once := PullRepliesBy(comments, u);
    forall c | c in once ensures DropRepliesBy(once[c].replies, u) == once[c].replies {
      var rs := once[c].replies;
      DropRepliesByKeeps(comments[c].replies, u);
      forall j | 0 <= j < |rs| ensures rs[j].user != u {
        assert rs[j] in rs;
      }
      DropRepliesByNone(rs, u);
    }
  }

  lemma DropCommentsOfIdempotent(comments: map<CommentId, Comment>, u: UserId)
    ensures DropCommentsOf(DropCommentsOf(comments, u), u) == DropCommentsOf(comments, u)
  {
  }

  lemma DropStoriesOfIdempotent(stories: map<StoryId, Story>, u: UserId)
    ensures DropStoriesOf(DropStoriesOf(stories, u), u) == DropStoriesOf(stories, u)
  {
  }

  /** Pulling u from post likes twice is pulling once; so the handler's second pass over
      post likes changes nothing. */
  lemma PullPostLikesIdempotent(posts: map<PostId, Post>, u: UserId)
    ensures PullPostLikes(PullPostLikes(posts, u), u) == PullPostLikes(posts, u)
  {
  }

  lemma PullFollowerFromIdempotent(users: map<UserId, User>, targets: seq<UserId>, u: UserId)
    ensures PullFollowerFrom(PullFollowerFrom(users, targets, u), targets, u) == PullFollowerFrom(users, targets, u)
  {
  }

  lemma PullFollowingIdempotent(users: map<UserId, User>, u: UserId)
    ensures PullFollowing(PullFollowing(users, u), u) == PullFollowing(users, u)
  {
  }

  lemma PullCommentLikesIdempotent(comments: map<CommentId, Comment>, u: UserId)
    ensures PullCommentLikes(PullCommentLikes(comments, u), u) == PullCommentLikes(comments, u)
  {
  }

  lemma PullReplyLikesIdempotent(comments: map<CommentId, Comment>, u: UserId)
    ensures PullReplyLikes(PullReplyLikes(comments, u), u) == PullReplyLikes(comments, u)
  {
    var once := PullReplyLikes(comments, u);
    forall c | c in once ensures UnlikeReplies(once[c].replies, u) == once[c].replies {
      var rs := once[c].replies;
      assert forall i :: 0 <= i < |rs| ==> rs[i].(likes := Without(rs[i].likes, u)) == rs[i];
    }
  }

  // ---------------------------------------------------------------------------
  // The cascade keeps the store consistent

  // RemainingUsers, RemainingPosts and RemainingComments only split DeleteUser's composition
  // by collection for the proofs below; DeleteUserParts shows they agree with it.

  /** The users left after the cascade's three user steps. */
  function RemainingUsers(users: map<UserId, User>, u: UserId): map<UserId, User>
    requires u in users
  {
    PullFollowing(PullFollowerFrom(users, users[u].following, u), u) - {u}
  }

  /** The posts left after the cascade's post steps. */
  function RemainingPosts(posts: map<PostId, Post>, comments: map<CommentId, Comment>, u: UserId): map<PostId, Post> {
    PullPostLikes(PullPostLikes(PullAuthored(DropPostsOf(posts, u), comments, u), u), u)
  }

  /** The comments left after the cascade's comment steps. */
  function RemainingComments(comments: map<CommentId, Comment>, u: UserId): map<CommentId, Comment> {
    PullReplyLikes(PullCommentLikes(DropCommentsOf(PullRepliesBy(comments, u), u), u), u)
  }

  lemma DeleteUserParts(db: Db, u: UserId)
    requires DeleteUser(db, u).Ok?
    ensures DeleteUser(db, u).db ==
      Db(RemainingUsers(db.users, u), RemainingPosts(db.posts, db.comments, u),
         RemainingComments(db.comments, u), DropStoriesOf(db.stories, u), db.next)
  {
  }

  /** What RemainingUsers holds, user by user, as list membership. */
  ghost predicate UsersAfter(users: map<UserId, User>, us': map<UserId, User>, u: UserId)
    requires u in users
  {
    (forall v :: v in us' <==> v in users && v != u) &&
    (forall v :: v in us' ==> us'[v].blockList == users[v].blockList && us'[v].posts == users[v].posts) &&
    (forall v, y :: v in us' ==> (y in us'[v].following <==> y in users[v].following && y != u)) &&
    (forall v, y :: v in us' ==>
       (y in us'[v].followers <==> y in users[v].followers && (y != u || v !in users[u].following)))
  }

  lemma RemainingUsersAt(users: map<UserId, User>, u: UserId)
    requires u in users
    ensures UsersAfter(users, RemainingUsers(users, u), u)
  {
  }

  /** What RemainingPosts holds, post by post, as list membership. */
  ghost predicate PostsAfter(posts: map<PostId, Post>, comments: map<CommentId, Comment>, ps': map<PostId, Post>, u: UserId) {
    (forall p :: p in ps' <==> p in posts && posts[p].user != u) &&
    (forall p :: p in ps' ==> ps'[p].user == posts[p].user) &&
    (forall p, c :: p in ps' ==>
       (c in ps'[p].comments <==> c in posts[p].comments && !(c in comments && comments[c].user == u))) &&
    (forall p, y :: p in ps' ==> (y in ps'[p].likes <==> y in posts[p].likes && y != u))
  }

  lemma RemainingPostsAt(posts: map<PostId, Post>, comments: map<CommentId, Comment>, u: UserId)
    ensures PostsAfter(posts, comments, RemainingPosts(posts, comments, u), u)
  {
  }

  /** Removing u and every edge that mentions u keeps the follow graph well formed. */
  lemma {:induction false} CascadeKeepsGraph(users: map<UserId, User>, us': map<UserId, User>, u: UserId)
    requires FollowGraph(users) && u in users && UsersAfter(users, us', u)
    ensures FollowGraph(us')
  {
    CascadeKeepsFollowing(users, us', u);
    CascadeKeepsFollowers(users, us', u);
  }

  lemma {:induction false} CascadeKeepsFollowing(users: map<UserId, User>, us': map<UserId, User>, u: UserId)
    requires FollowingMirrored(users) && u in users && UsersAfter(users, us', u)
    ensures FollowingMirrored(us')
  {
    forall a, b | a in us' && b in us'[a].following ensures b in us' && a in us'[b].followers {
      assert b in users[a].following;
    }
  }

  lemma {:induction false} CascadeKeepsFollowers(users: map<UserId, User>, us': map<UserId, User>, u: UserId)
    requires FollowersMirrored(users) && u in users && UsersAfter(users, us', u)
    ensures FollowersMirrored(us')
  {
    forall a, b | a in us' && b in us'[a].followers ensures b in us' && a in us'[b].following {
      assert b in users[a].followers;
    }
  }

  /** Each user's `posts` index is untouched, and exactly the posts of u go. */
  lemma {:induction false} CascadeKeepsIndex(users: map<UserId, User>, posts: map<PostId, Post>,
                                             comments: map<CommentId, Comment>, us': map<UserId, User>,
                                             ps': map<PostId, Post>, u: UserId)
    requires PostsIndexed(users, posts) && u in users
    requires forall v :: v in us' <==> v in users && v != u
    requires forall v :: v in us' ==> us'[v].posts == users[v].posts
    requires forall p :: p in ps' <==> p in posts && posts[p].user != u
    requires forall p :: p in ps' ==> ps'[p].user == posts[p].user
    ensures PostsIndexed(us', ps')
  {
    forall v, p | v in us' && p in us'[v].posts ensures p in ps' && ps'[p].user == v {
      assert p in users[v].posts;
    }
    forall p | p in ps' ensures ps'[p].user in us' && p in us'[ps'[p].user].posts {
      assert p in users[posts[p].user].posts;
    }
  }

  /** Dropping u's replies and unliking the rest keeps reply ids distinct and bounded. */
  lemma CleanRepliesKeepIds(rs: seq<Reply>, u: UserId, next: nat)
    requires DistinctIds(rs) && forall x :: x in rs ==> x.id < next
    ensures var rs' := UnlikeReplies(DropRepliesBy(rs, u), u);
      DistinctIds(rs') && forall x :: x in rs' ==> x.id < next
  {
    var d := DropRepliesBy(rs, u);
    DropRepliesByDistinct(rs, u);
    DropRepliesByKeeps(rs, u);
    var rs' := UnlikeReplies(d, u);
    forall x | x in rs' ensures x.id < next {
      var i :| 0 <= i < |rs'| && rs'[i] == x;
      assert d[i] in d;
    }
  }

  lemma {:induction false} DropRepliesByDistinct(rs: seq<Reply>, u: UserId)
    requires DistinctIds(rs)
    ensures DistinctIds(DropRepliesBy(rs, u))
  {
    if |rs| > 0 {
      var tail := rs[1..];
      assert DistinctIds(tail) by {
        forall i, j | 0 <= i < j < |tail| ensures tail[i].id != tail[j].id {
          assert tail[i] == rs[i + 1] && tail[j] == rs[j + 1];
        }
      }
      DropRepliesByDistinct(tail, u);
      DropRepliesByKeeps(tail, u);
      var rest := DropRepliesBy(tail, u);
      if rs[0].user != u {
        var r := [rs[0]] + rest;
        forall i, j | 0 <= i < j < |r| ensures r[i].id != r[j].id {
          if i == 0 {
            assert r[j] in rest;
            var k :| 0 <= k < |tail| && tail[k] == r[j];
            assert rs[k + 1] == r[j];
          } else {
            assert r[i] == rest[i - 1] && r[j] == rest[j - 1];
          }
        }
      }
    }
  }

  /** The comment invariants survive the comment steps. */
  lemma {:induction false} CascadeKeepsComments(posts: map<PostId, Post>, comments: map<CommentId, Comment>,
                                                next: nat, u: UserId)
    requires CommentIdsBelow(comments, next) && RepliesDistinct(comments)
    ensures CommentIdsBelow(RemainingComments(comments, u), next) && RepliesDistinct(RemainingComments(comments, u))
  {
    var cs' := RemainingComments(comments, u);
    forall c | c in cs'
      ensures DistinctIds(cs'[c].replies) && forall x :: x in cs'[c].replies ==> x.id < next
    {
      assert cs'[c].replies == UnlikeReplies(DropRepliesBy(comments[c].replies, u), u);
      CleanRepliesKeepIds(comments[c].replies, u, next);
    }
  }

  /** The listing invariants survive the post steps. */
  lemma {:induction false} CascadeKeepsListings(posts: map<PostId, Post>, comments: map<CommentId, Comment>,
                                                next: nat, u: UserId)
    requires PostIdsBelow(posts, next) && CommentIdsBelow(comments, next)
    requires ListingAgrees(posts, comments) && RepliesDistinct(comments)
    ensures var ps', cs' := RemainingPosts(posts, comments, u), RemainingComments(comments, u);
      PostIdsBelow(ps', next) && ListingAgrees(ps', cs')
  {
    var ps1 := DropPostsOf(posts, u);
    ContentSubmaps(posts, comments, ps1, comments, next);
    var ps', cs' := RemainingPosts(posts, comments, u), RemainingComments(comments, u);
    forall p, c | p in ps1 && c in ps'[p].comments ensures c in ps1[p].comments {
    }
    ListingsShrink(ps1, ps', comments, cs', next);
  }

  lemma DeleteUserKeepsConsistent(db: Db, u: UserId)
    requires Consistent(db) && DeleteUser(db, u).Ok?
    ensures Consistent(DeleteUser(db, u).db)
  {
    DeleteUserParts(db, u);
    var us', ps' := RemainingUsers(db.users, u), RemainingPosts(db.posts, db.comments, u);
    RemainingUsersAt(db.users, u);
    RemainingPostsAt(db.posts, db.comments, u);
    CascadeKeepsGraph(db.users, us', u);
    CascadeKeepsIndex(db.users, db.posts, db.comments, us', ps', u);
    CascadeKeepsComments(db.posts, db.comments, db.next, u);
    CascadeKeepsListings(db.posts, db.comments, db.next, u);
    DeleteUserKeepsListingsLive(db, u);
  }

  /** With the comment pull as intended, no remaining post lists a comment that is gone. */
  lemma DeleteUserKeepsListingsLive(db: Db, u: UserId)
    requires ListingsLive(db.posts, db.comments) && DeleteUser(db, u).Ok?
    ensures ListingsLive(DeleteUser(db, u).db.posts, DeleteUser(db, u).db.comments)
  {
    DeleteUserParts(db, u);
    var ps', cs' := RemainingPosts(db.posts, db.comments, u), RemainingComments(db.comments, u);
    forall p, c | p in ps' && c in ps'[p].comments ensures c in cs' {
      assert c in db.posts[p].comments && c !in AuthoredBy(db.comments, u);
    }
  }

  /** Of the comment pull as written: u (user 0) commented on user 1's post; the post keeps
      listing that comment id after the comment is deleted, where the intended pull drops it. */
  lemma PullAuthoredAsWrittenLeavesDangling()
    ensures var posts := map[10 := Post(1, "p", [], [], [20])];
      var comments := map[20 := Comment(0, 10, "c", [], [])];
      var left := DropCommentsOf(PullRepliesBy(comments, 0), 0);
      20 in PullAuthoredAsWritten(DropPostsOf(posts, 0), comments, 0)[10].comments && 20 !in left &&
      !ListingsLive(PullAuthoredAsWritten(DropPostsOf(posts, 0), comments, 0), left) &&
      PullAuthored(DropPostsOf(posts, 0), comments, 0)[10].comments == []
  {
    var posts := map[10 := Post(1, "p", [], [], [20])];
    var comments := map[20 := Comment(0, 10, "c", [], [])];
    assert 20 in AuthoredBy(comments, 0);
    var ps1 := DropPostsOf(posts, 0);
    assert 10 in ps1 && ps1[10].comments == [20];
    assert WithoutAny([20], AuthoredBy(comments, 0)) == [] + WithoutAny([], AuthoredBy(comments, 0));
  }
}
