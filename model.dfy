/** Documents of the social-network store, the typed failures of its handlers, the
    array helpers the handlers use (push, filter, findIndex, map) and the
    referential-integrity invariants of the whole store. */
module Model {

  // Document identifiers (MongoDB ObjectIds) are opaque values compared for equality.
  type UserId = nat
  type PostId = nat
  type CommentId = nat
  type ReplyId = nat
  type StoryId = nat

  datatype Option<T> = None | Some(value: T)

  datatype User = User(
    followers: seq<UserId>,
    following: seq<UserId>,
    blockList: seq<UserId>,
    posts: seq<PostId>)

  datatype Post = Post(
    user: UserId,
    caption: string,
    image: seq<string>,
    likes: seq<UserId>,
    comments: seq<CommentId>)

  /** A reply is a sub-document of its comment, addressed by its own id. */
  datatype Reply = Reply(id: ReplyId, user: UserId, text: string, likes: seq<UserId>)

  datatype Comment = Comment(
    user: UserId,
    post: PostId,
    text: string,
    likes: seq<UserId>,
    replies: seq<Reply>)

  /** The shape of models/Story.js without its creation timestamp. */
  datatype Story = Story(user: UserId, text: string, image: Option<string>)

  /** The four collections, plus the source of fresh ids for new posts, comments and replies. */
  datatype Db = Db(
    users: map<UserId, User>,
    posts: map<PostId, Post>,
    comments: map<CommentId, Comment>,
    stories: map<StoryId, Story>,
    next: nat)

  datatype Entity = UserDoc | PostDoc | CommentDoc | ReplyDoc

  /** One constructor per kind of failure a handler throws; HTTP status codes and messages are not modelled. */
  datatype Error =
    | NotFound(entity: Entity)
    | SelfReference
    | Blocked
    | AlreadyFollowing
    | NotFollowing
    | AlreadyBlocked
    | NotBlocked
    | AlreadyLiked
    | NotLiked
    | NotAuthor

  /** What a handler leaves behind: the new store, or one typed error and the store as it was. */
  datatype Outcome = Ok(db: Db) | Err(error: Error)

  datatype Result<T> = Success(value: T) | Failure(error: Error)

  // ---------------------------------------------------------------------------
  // Array helpers

  /** `s.filter(y => y !== x)`, which is also MongoDB's `$pull` of a value: every
      occurrence of x goes, the rest keep their order. */
  function Without(s: seq<nat>, x: nat): (r: seq<nat>)
    ensures forall y :: y in r <==> y in s && y != x
    ensures |r| <= |s|
    ensures x !in s ==> r == s
  {
    if |s| == 0 then [] else (if s[0] == x then [] else [s[0]]) + Without(s[1..], x)
  }

  lemma {:induction false} WithoutConcat(a: seq<nat>, b: seq<nat>, x: nat)
    ensures Without(a + b, x) == Without(a, x) + Without(b, x)
  {
    if |a| == 0 {
      assert a + b == b;
    } else {
      var head := if a[0] == x then [] else [a[0]];
      calc {
        Without(a + b, x);
        head + Without((a + b)[1..], x);
        { assert (a + b)[1..] == a[1..] + b; }
        head + Without(a[1..] + b, x);
        { WithoutConcat(a[1..], b, x); }
        head + (Without(a[1..], x) + Without(b, x));
        Without(a, x) + Without(b, x);
      }
    }
  }

  /** Pushing a value that was absent and then pulling it gives back the original array. */
  lemma PushThenPull(s: seq<nat>, x: nat)
    requires x !in s
    ensures Without(s + [x], x) == s
  {
    WithoutConcat(s, [x], x);
    assert Without([x], x) == [] + Without([x][1..], x);
  }

  predicate NoDup(s: seq<nat>) {
    forall i, j :: 0 <= i < j < |s| ==> s[i] != s[j]
  }

  /** `replies.findIndex(r => r._id === id)` (and Mongoose's `replies.id(id)`): the first
      position holding that id, or None where the source gets -1 / null. */
  function FindReply(rs: seq<Reply>, id: ReplyId): (r: Option<nat>)
    ensures r.Some? ==> r.value < |rs| && rs[r.value].id == id
    ensures r.Some? ==> forall j :: 0 <= j < r.value ==> rs[j].id != id
    ensures r.None? <==> forall j :: 0 <= j < |rs| ==> rs[j].id != id
  {
    if |rs| == 0 then None
    else if rs[0].id == id then Some(0)
    else match FindReply(rs[1..], id)
      case None => None
      case Some(k) => Some(k + 1)
  }

  predicate DistinctIds(rs: seq<Reply>) {
    forall i, j :: 0 <= i < j < |rs| ==> rs[i].id != rs[j].id
  }

  /** `replies.filter(r => r._id !== id)`. */
  function RemoveReply(rs: seq<Reply>, id: ReplyId): seq<Reply> {
    if |rs| == 0 then [] else (if rs[0].id == id then [] else [rs[0]]) + RemoveReply(rs[1..], id)
  }

  /** The replies kept are exactly those with another id. */
  lemma {:induction false} RemoveReplyKeeps(rs: seq<Reply>, id: ReplyId)
    ensures forall x :: x in RemoveReply(rs, id) <==> x in rs && x.id != id
  {
    if |rs| > 0 {
      RemoveReplyKeeps(rs[1..], id);
      assert rs == [rs[0]] + rs[1..];
    }
  }

  /** When only position k holds the id, removing by id cuts exactly that position. */
  lemma {:induction false} RemoveReplyAt(rs: seq<Reply>, id: ReplyId, k: nat)
    requires k < |rs| && rs[k].id == id
    requires forall j :: 0 <= j < |rs| && j != k ==> rs[j].id != id
    ensures RemoveReply(rs, id) == rs[..k] + rs[k + 1..]
  {
    var tail := rs[1..];
    if k == 0 {
      forall j | 0 <= j < |tail| ensures tail[j].id != id {
        assert tail[j] == rs[j + 1];
      }
      RemoveAbsentReply(tail, id);
      assert rs[..k] + rs[k + 1..] == tail;
    } else {
      forall j | 0 <= j < |tail| && j != k - 1 ensures tail[j].id != id {
        assert tail[j] == rs[j + 1];
      }
      RemoveReplyAt(tail, id, k - 1);
      assert rs[..k] == [rs[0]] + tail[..k - 1];
      assert rs[k + 1..] == tail[k..];
    }
  }

  /** With distinct ids, the position FindReply reports is the only one holding the id. */
  lemma FoundReplyIsUnique(rs: seq<Reply>, id: ReplyId, k: nat)
    requires DistinctIds(rs) && FindReply(rs, id) == Some(k)
    ensures forall j :: 0 <= j < |rs| && j != k ==> rs[j].id != id
  {
    forall j | 0 <= j < |rs| && j != k ensures rs[j].id != id {
      if j > k {
        assert rs[k].id != rs[j].id;
      }
    }
  }

  /** FindReply looks only at ids, so editing other fields of replies does not move it. */
  lemma {:induction false} FindReplySameIds(rs: seq<Reply>, rs': seq<Reply>, id: ReplyId)
    requires ReplyIds(rs') == ReplyIds(rs)
    ensures FindReply(rs', id) == FindReply(rs, id)
  {
    if |rs| > 0 {
      assert ReplyIds(rs'[1..]) == ReplyIds(rs[1..]) by {
        forall k | 0 <= k < |rs| - 1 ensures ReplyIds(rs'[1..])[k] == ReplyIds(rs[1..])[k] {
          assert ReplyIds(rs')[k + 1] == ReplyIds(rs)[k + 1];
        }
      }
      assert rs'[0].id == rs[0].id by { assert ReplyIds(rs')[0] == ReplyIds(rs)[0]; }
      FindReplySameIds(rs[1..], rs'[1..], id);
    }
  }

  /** Cutting one position out of a list with distinct ids leaves distinct ids. */
  lemma DistinctIdsCut(rs: seq<Reply>, k: nat)
    requires DistinctIds(rs) && k < |rs|
    ensures DistinctIds(rs[..k] + rs[k + 1..])
  {
    var cut := rs[..k] + rs[k + 1..];
    forall i, j | 0 <= i < j < |cut| ensures cut[i].id != cut[j].id {
      var i0 := if i < k then i else i + 1;
      var j0 := if j < k then j else j + 1;
      assert cut[i] == rs[i0] && cut[j] == rs[j0];
    }
  }

  lemma {:induction false} RemoveAbsentReply(rs: seq<Reply>, id: ReplyId)
    requires forall j :: 0 <= j < |rs| ==> rs[j].id != id
    ensures RemoveReply(rs, id) == rs
  {
    if |rs| > 0 {
      RemoveAbsentReply(rs[1..], id);
    }
  }

  /** `replies.filter(r => r.user !== user)`. */
  function DropRepliesBy(rs: seq<Reply>, user: UserId): seq<Reply> {
    if |rs| == 0 then [] else (if rs[0].user == user then [] else [rs[0]]) + DropRepliesBy(rs[1..], user)
  }

  /** The replies kept are exactly those by other users. */
  lemma {:induction false} DropRepliesByKeeps(rs: seq<Reply>, user: UserId)
    ensures forall x :: x in DropRepliesBy(rs, user) <==> x in rs && x.user != user
  {
    if |rs| > 0 {
      DropRepliesByKeeps(rs[1..], user);
      assert rs == [rs[0]] + rs[1..];
    }
  }

  /** Dropping the replies of a user who wrote none changes nothing. */
  lemma {:induction false} DropRepliesByNone(rs: seq<Reply>, user: UserId)
    requires forall j :: 0 <= j < |rs| ==> rs[j].user != user
    ensures DropRepliesBy(rs, user) == rs
  {
    if |rs| > 0 {
      DropRepliesByNone(rs[1..], user);
    }
  }

  // ---------------------------------------------------------------------------
  // Referential-integrity invariants of the store

  /** Every id the store has handed out for a post, comment or reply, whether or not the
      document still exists, is below `next`, so the next id is fresh. (Ids in a user's
      `posts` are covered through PostsIndexed.) */
  ghost predicate PostIdsBelow(posts: map<PostId, Post>, next: nat) {
    (forall p :: p in posts ==> p < next) &&
    (forall p, c :: p in posts && c in posts[p].comments ==> c < next)
  }

  ghost predicate CommentIdsBelow(comments: map<CommentId, Comment>, next: nat) {
    (forall c :: c in comments ==> c < next) &&
    (forall c, x :: c in comments && x in comments[c].replies ==> x.id < next)
  }

  /** A post lists a live comment only if it is that comment's parent post. */
  ghost predicate ListingAgrees(posts: map<PostId, Post>, comments: map<CommentId, Comment>) {
    forall p, c :: p in posts && c in posts[p].comments && c in comments ==> comments[c].post == p
  }

  /** Reply ids are unique within their comment. */
  ghost predicate RepliesDistinct(comments: map<CommentId, Comment>) {
    forall c :: c in comments ==> DistinctIds(comments[c].replies)
  }

  /** No user follows, is followed by or blocks themself; and every follow edge is stored on
      both ends: b is in a's `following` exactly when a is in b's `followers`. */
  ghost predicate FollowGraph(users: map<UserId, User>) {
    NoSelfEdges(users) && FollowingMirrored(users) && FollowersMirrored(users)
  }

  ghost predicate NoSelfEdges(users: map<UserId, User>) {
    forall a :: a in users ==>
      a !in users[a].following && a !in users[a].followers && a !in users[a].blockList
  }

  ghost predicate FollowingMirrored(users: map<UserId, User>) {
    forall a, b :: a in users && b in users[a].following ==> b in users && a in users[b].followers
  }

  ghost predicate FollowersMirrored(users: map<UserId, User>) {
    forall a, b :: a in users && b in users[a].followers ==> b in users && a in users[b].following
  }

  /** A user's `posts` index lists exactly the posts owned by that user. */
  ghost predicate PostsIndexed(users: map<UserId, User>, posts: map<PostId, Post>) {
    (forall p :: p in posts ==> posts[p].user in users && p in users[posts[p].user].posts) &&
    (forall u, p :: u in users && p in users[u].posts ==> p in posts && posts[p].user == u)
  }

  /** Every id a post lists names a comment that exists. */
  ghost predicate ListingsLive(posts: map<PostId, Post>, comments: map<CommentId, Comment>) {
    forall p, c :: p in posts && c in posts[p].comments ==> c in comments
  }

  /** The invariant every handler keeps: fresh ids, listings that agree with their comments
      and name only live comments, distinct reply ids, a mirrored follow graph and exact
      `posts` indexes. */
  ghost predicate Consistent(db: Db) {
    PostIdsBelow(db.posts, db.next) && CommentIdsBelow(db.comments, db.next) &&
    ListingAgrees(db.posts, db.comments) && ListingsLive(db.posts, db.comments) &&
    RepliesDistinct(db.comments) &&
    FollowGraph(db.users) && PostsIndexed(db.users, db.posts)
  }

  /** Raising the id counter keeps the bounds. */
  lemma PostIdsBelowGrows(posts: map<PostId, Post>, next: nat, next': nat)
    requires PostIdsBelow(posts, next) && next <= next'
    ensures PostIdsBelow(posts, next')
  {
  }

  lemma CommentIdsBelowGrows(comments: map<CommentId, Comment>, next: nat, next': nat)
    requires CommentIdsBelow(comments, next) && next <= next'
    ensures CommentIdsBelow(comments, next')
  {
  }

  /** Editing users without touching their `posts` index keeps PostsIndexed. */
  lemma {:induction false} PostsIndexedUsersFrame(us: map<UserId, User>, us': map<UserId, User>, posts: map<PostId, Post>)
    requires PostsIndexed(us, posts)
    requires us'.Keys == us.Keys
    requires forall u :: u in us ==> us'[u].posts == us[u].posts
    ensures PostsIndexed(us', posts)
  {
    forall u, p | u in us' && p in us'[u].posts
      ensures p in posts && posts[p].user == u
    {
      assert p in us[u].posts;
    }
    forall p | p in posts
      ensures posts[p].user in us' && p in us'[posts[p].user].posts
    {
      assert p in us[posts[p].user].posts;
    }
  }

  /** Editing users without touching their follow lists keeps FollowGraph. */
  lemma {:induction false} FollowGraphFrame(us: map<UserId, User>, us': map<UserId, User>)
    requires FollowGraph(us)
    requires us'.Keys == us.Keys
    requires forall u :: u in us ==>
      us'[u].followers == us[u].followers && us'[u].following == us[u].following &&
      us'[u].blockList == us[u].blockList
    ensures FollowGraph(us')
  {
    assert NoSelfEdges(us');
    forall a, b | a in us' && b in us'[a].following ensures b in us' && a in us'[b].followers {
      assert b in us[a].following;
    }
    forall a, b | a in us' && b in us'[a].followers ensures b in us' && a in us'[b].following {
      assert b in us[a].followers;
    }
  }

  /** Editing posts without touching their owner or comment list keeps the invariants that
      mention posts. */
  lemma {:induction false} PostsFieldFrame(users: map<UserId, User>, posts: map<PostId, Post>,
                                           posts': map<PostId, Post>, comments: map<CommentId, Comment>, next: nat)
    requires PostIdsBelow(posts, next) && ListingAgrees(posts, comments) && PostsIndexed(users, posts)
    requires ListingsLive(posts, comments)
    requires posts'.Keys == posts.Keys
    requires forall p :: p in posts ==> posts'[p].user == posts[p].user && posts'[p].comments == posts[p].comments
    ensures PostIdsBelow(posts', next) && ListingAgrees(posts', comments) && PostsIndexed(users, posts')
    ensures ListingsLive(posts', comments)
  {
    forall p, c | p in posts' && c in posts'[p].comments ensures c < next && c in comments {
      assert c in posts[p].comments;
    }
    forall p, c | p in posts' && c in posts'[p].comments && c in comments ensures comments[c].post == p {
      assert c in posts[p].comments;
    }
    PostsIndexedPostsFrame(users, posts, posts');
  }

  /** Editing posts without touching their owner keeps PostsIndexed. */
  lemma {:induction false} PostsIndexedPostsFrame(users: map<UserId, User>, posts: map<PostId, Post>, posts': map<PostId, Post>)
    requires PostsIndexed(users, posts)
    requires posts'.Keys == posts.Keys
    requires forall p :: p in posts ==> posts'[p].user == posts[p].user
    ensures PostsIndexed(users, posts')
  {
    forall p | p in posts' ensures posts'[p].user in users && p in users[posts'[p].user].posts {
      assert posts'[p].user == posts[p].user;
    }
  }

  /** Editing comments without touching their parent post or reply ids keeps the invariants
      that mention comments. */
  lemma {:induction false} CommentsFieldFrame(posts: map<PostId, Post>, comments: map<CommentId, Comment>,
                                              comments': map<CommentId, Comment>, next: nat)
    requires CommentIdsBelow(comments, next) && ListingAgrees(posts, comments) && RepliesDistinct(comments)
    requires ListingsLive(posts, comments)
    requires comments'.Keys == comments.Keys
    requires forall c :: c in comments ==>
      comments'[c].post == comments[c].post && ReplyIds(comments'[c].replies) == ReplyIds(comments[c].replies)
    ensures CommentIdsBelow(comments', next) && ListingAgrees(posts, comments') && RepliesDistinct(comments')
    ensures ListingsLive(posts, comments')
  {
    forall c, x | c in comments' && x in comments'[c].replies ensures x.id < next {
      var k :| 0 <= k < |comments'[c].replies| && comments'[c].replies[k] == x;
      assert ReplyIds(comments'[c].replies)[k] == x.id;
      var old_x := comments[c].replies[k];
      assert old_x in comments[c].replies;
    }
    forall c | c in comments' ensures DistinctIds(comments'[c].replies) {
      var rs, rs' := comments[c].replies, comments'[c].replies;
      forall i, j | 0 <= i < j < |rs'| ensures rs'[i].id != rs'[j].id {
        assert ReplyIds(rs')[i] == rs[i].id && ReplyIds(rs')[j] == rs[j].id;
      }
    }
  }

  /** The ids of a reply list, in order. */
  function ReplyIds(rs: seq<Reply>): (r: seq<ReplyId>)
    ensures |r| == |rs| && forall k :: 0 <= k < |rs| ==> r[k] == rs[k].id
  {
    seq(|rs|, k requires 0 <= k < |rs| => rs[k].id)
  }

  /** Shrinking the posts' comment lists and keeping only some comments, each with the same
      parent post, keeps the id bound on posts and ListingAgrees. */
  lemma {:induction false} ListingsShrink(posts: map<PostId, Post>, posts': map<PostId, Post>,
                                          comments: map<CommentId, Comment>, comments': map<CommentId, Comment>, next: nat)
    requires PostIdsBelow(posts, next) && ListingAgrees(posts, comments)
    requires posts'.Keys == posts.Keys
    requires forall p, c :: p in posts && c in posts'[p].comments ==> c in posts[p].comments
    requires forall c :: c in comments' ==> c in comments && comments'[c].post == comments[c].post
    ensures PostIdsBelow(posts', next) && ListingAgrees(posts', comments')
  {
  }

  /** Keeping only some posts and some comments, each unchanged, keeps the content invariants. */
  lemma {:induction false} ContentSubmaps(posts: map<PostId, Post>, comments: map<CommentId, Comment>,
                                          posts': map<PostId, Post>, comments': map<CommentId, Comment>, next: nat)
    requires PostIdsBelow(posts, next) && CommentIdsBelow(comments, next)
    requires ListingAgrees(posts, comments) && RepliesDistinct(comments)
    requires forall p :: p in posts' ==> p in posts && posts'[p] == posts[p]
    requires forall c :: c in comments' ==> c in comments && comments'[c] == comments[c]
    ensures PostIdsBelow(posts', next) && CommentIdsBelow(comments', next)
    ensures ListingAgrees(posts', comments') && RepliesDistinct(comments')
  {
  }
}
