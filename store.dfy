/** The store the handlers run against: one object holding the four collections, with one
    method per handler that loads documents, checks, edits its copies and saves them, in the
    handler's order. Each method is proved to leave the store exactly as the handler's
    specification function says, and to keep the store consistent. */
module Engine {
  import opened Model
  import Relationships
  import Posts
  import Comments
  import Cascade

  /** A method's error result and its new store agree with a specification outcome. */
  ghost predicate Agrees(spec: Outcome, err: Option<Error>, before: Db, after: Db) {
    match spec
    case Ok(db) => err == None && after == db
    case Err(e) => err == Some(e) && after == before
  }

  // ---------------------------------------------------------------------------
  // Bulk operations of the document store

  /** `Model.find(filter)`: the documents the filter matches, under their ids. */
  method FindMany<K, V>(m: map<K, V>, matches: (K, V) -> bool) returns (r: map<K, V>)
    ensures forall k :: k in r <==> k in m && matches(k, m[k])
    ensures forall k :: k in r ==> r[k] == m[k]
  {
    r := map[];
    var todo := m.Keys;
    while todo != {}
      invariant todo <= m.Keys
      invariant forall k :: k in r <==> k in m && k !in todo && matches(k, m[k])
      invariant forall k :: k in r ==> r[k] == m[k]
      decreases todo
    {
      var k :| k in todo;
      if matches(k, m[k]) {
        r := r[k := m[k]];
      }
      todo := todo - {k};
    }
  }

  /** `Model.deleteMany(filter)`: the documents the filter does not match. */
  method DeleteMany<K, V>(m: map<K, V>, matches: (K, V) -> bool) returns (r: map<K, V>)
    ensures forall k :: k in r <==> k in m && !matches(k, m[k])
    ensures forall k :: k in r ==> r[k] == m[k]
  {
    r := FindMany(m, (k, v) => !matches(k, v));
  }

  /** `Model.updateMany(filter, update)`: every matching document is rewritten, the others and
      the set of ids stay as they were. */
  method UpdateMany<K, V>(m: map<K, V>, matches: (K, V) -> bool, update: V -> V) returns (r: map<K, V>)
    ensures r.Keys == m.Keys
    ensures forall k :: k in m ==> r[k] == if matches(k, m[k]) then update(m[k]) else m[k]
  {
    r := m;
    var todo := m.Keys;
    while todo != {}
      invariant todo <= m.Keys && r.Keys == m.Keys
      invariant forall k :: k in m ==> r[k] == if k in todo || !matches(k, m[k]) then m[k] else update(m[k])
      decreases todo
    {
      var k :| k in todo;
      if matches(k, m[k]) {
        r := r[k := update(m[k])];
      }
      todo := todo - {k};
    }
  }

  // ---------------------------------------------------------------------------
  // The cascade's steps as store operations, each equal to its specification step

  method DeletePostsOf(posts: map<PostId, Post>, u: UserId) returns (r: map<PostId, Post>)
    ensures r == Cascade.DropPostsOf(posts, u)
  {
    r := DeleteMany(posts, (p: PostId, x: Post) => x.user == u);
  }

  method PullAuthoredComments(posts: map<PostId, Post>, comments: map<CommentId, Comment>, u: UserId)
    returns (r: map<PostId, Post>)
    ensures r == Cascade.PullAuthored(posts, comments, u)
  {
    var authored := Cascade.AuthoredBy(comments, u);
    forall p | p in posts && !(exists c :: c in posts[p].comments && c in authored)
      ensures Cascade.WithoutAny(posts[p].comments, authored) == posts[p].comments
    {
      Cascade.WithoutAnyNone(posts[p].comments, authored);
    }
    r := UpdateMany(posts, (p: PostId, x: Post) => exists c :: c in x.comments && c in authored,
                    (x: Post) => x.(comments := Cascade.WithoutAny(x.comments, authored)));
  }

  /** The loop over `Comment.find({'replies.user': u})`, one comment at a time. */
  method PullRepliesOf(comments: map<CommentId, Comment>, u: UserId) returns (r: map<CommentId, Comment>)
    ensures r == Cascade.PullRepliesBy(comments, u)
  {
    var found := FindMany(comments, (c: CommentId, x: Comment) => exists y :: y in x.replies && y.user == u);
    forall c | c in comments && c !in found
      ensures comments[c].(replies := DropRepliesBy(comments[c].replies, u)) == comments[c]
    {
      var rs := comments[c].replies;
      forall j | 0 <= j < |rs| ensures rs[j].user != u {
        assert rs[j] in rs;
      }
      DropRepliesByNone(rs, u);
    }
    r := comments;
    var todo := found.Keys;
    while todo != {}
      invariant todo <= found.Keys && r.Keys == comments.Keys
      invariant forall c :: c in comments ==>
        r[c] == if c in todo then comments[c] else comments[c].(replies := DropRepliesBy(comments[c].replies, u))
      decreases todo
    {
      var c :| c in todo;
      var cm := r[c];
      cm := cm.(replies := DropRepliesBy(cm.replies, u));
      r := r[c := cm];
      todo := todo - {c};
    }
  }

  /** `Comment.deleteMany({ post: post })`. */
  method DeleteCommentsUnder(comments: map<CommentId, Comment>, post: PostId) returns (r: map<CommentId, Comment>)
    ensures r == Posts.DropCommentsUnder(comments, post)
  {
    r := DeleteMany(comments, (c: CommentId, x: Comment) => x.post == post);
  }

  method DeleteCommentsOf(comments: map<CommentId, Comment>, u: UserId) returns (r: map<CommentId, Comment>)
    ensures r == Cascade.DropCommentsOf(comments, u)
  {
    r := DeleteMany(comments, (c: CommentId, x: Comment) => x.user == u);
  }

  method DeleteStoriesOf(stories: map<StoryId, Story>, u: UserId) returns (r: map<StoryId, Story>)
    ensures r == Cascade.DropStoriesOf(stories, u)
  {
    r := DeleteMany(stories, (s: StoryId, x: Story) => x.user == u);
  }

  /** With `matchLiked`, only the posts whose likes hold u are rewritten (`{ likes: u }`);
      otherwise every post is (`{}`). Either way the result is the same. */
  method PullLikesFromPosts(posts: map<PostId, Post>, u: UserId, matchLiked: bool) returns (r: map<PostId, Post>)
    ensures r == Cascade.PullPostLikes(posts, u)
  {
    r := UpdateMany(posts, (p: PostId, x: Post) => !matchLiked || u in x.likes,
                    (x: Post) => x.(likes := Without(x.likes, u)));
  }

  method PullFollowerFromTargets(users: map<UserId, User>, targets: seq<UserId>, u: UserId) returns (r: map<UserId, User>)
    ensures r == Cascade.PullFollowerFrom(users, targets, u)
  {
    r := UpdateMany(users, (v: UserId, x: User) => v in targets,
                    (x: User) => x.(followers := Without(x.followers, u)));
  }

  method PullFromFollowing(users: map<UserId, User>, u: UserId) returns (r: map<UserId, User>)
    ensures r == Cascade.PullFollowing(users, u)
  {
    r := UpdateMany(users, (v: UserId, x: User) => u in x.following,
                    (x: User) => x.(following := Without(x.following, u)));
  }

  method PullLikesFromComments(comments: map<CommentId, Comment>, u: UserId) returns (r: map<CommentId, Comment>)
    ensures r == Cascade.PullCommentLikes(comments, u)
  {
    r := UpdateMany(comments, (c: CommentId, x: Comment) => true,
                    (x: Comment) => x.(likes := Without(x.likes, u)));
  }

  method PullLikesFromReplies(comments: map<CommentId, Comment>, u: UserId) returns (r: map<CommentId, Comment>)
    ensures r == Cascade.PullReplyLikes(comments, u)
  {
    r := UpdateMany(comments, (c: CommentId, x: Comment) => exists y :: y in x.replies && u in y.likes,
                    (x: Comment) => x.(replies := Cascade.UnlikeReplies(x.replies, u)));
    forall c | c in comments ensures r[c] == comments[c].(replies := Cascade.UnlikeReplies(comments[c].replies, u)) {
      var rs := comments[c].replies;
      if !exists y :: y in rs && u in y.likes {
        forall j | 0 <= j < |rs| ensures rs[j].(likes := Without(rs[j].likes, u)) == rs[j] {
          assert rs[j] in rs;
        }
        assert Cascade.UnlikeReplies(rs, u) == rs;
      }
    }
  }

  // ---------------------------------------------------------------------------
  // The store

  class Store {
    var users: map<UserId, User>
    var posts: map<PostId, Post>
    var comments: map<CommentId, Comment>
    var stories: map<StoryId, Story>
    var next: nat

    function State(): Db
      reads this
    {
      Db(users, posts, comments, stories, next)
    }

    ghost predicate Valid()
      reads this
    {
      Consistent(State())
    }

    /** A store over existing collections; users come from registration, which is not part
        of this model. */
    constructor (db: Db)
      requires Consistent(db)
      ensures State() == db && Valid()
    {
      users, posts, comments, stories, next := db.users, db.posts, db.comments, db.stories, db.next;
    }

    // Follow/block graph --------------------------------------------------------

    method Follow(actor: UserId, target: UserId) returns (err: Option<Error>)
      requires Valid()
      modifies this
      ensures Agrees(Relationships.Follow(old(State()), actor, target), err, old(State()), State())
      ensures Valid()
    {
      if target == actor { return Some(SelfReference); }
      if target !in users || actor !in users { return Some(NotFound(UserDoc)); }
      var toFollow := users[target];
      var me := users[actor];
      if target in me.blockList { return Some(Blocked); }
      if target in me.following { return Some(AlreadyFollowing); }
      me := me.(following := me.following + [target]);
      toFollow := toFollow.(followers := toFollow.followers + [actor]);
      users := users[actor := me];
      users := users[target := toFollow];
      err := None;
      Relationships.FollowKeepsConsistent(old(State()), actor, target);
    }

    method Unfollow(actor: UserId, target: UserId) returns (err: Option<Error>)
      requires Valid()
      modifies this
      ensures Agrees(Relationships.Unfollow(old(State()), actor, target), err, old(State()), State())
      ensures Valid()
    {
      if target == actor { return Some(SelfReference); }
      if target !in users || actor !in users { return Some(NotFound(UserDoc)); }
      var toUnfollow := users[target];
      var me := users[actor];
      if target !in me.following { return Some(NotFollowing); }
      me := me.(following := Without(me.following, target));
      toUnfollow := toUnfollow.(followers := Without(toUnfollow.followers, actor));
      users := users[actor := me];
      users := users[target := toUnfollow];
      err := None;
      Relationships.UnfollowKeepsConsistent(old(State()), actor, target);
    }

    method Block(actor: UserId, target: UserId) returns (err: Option<Error>)
      requires Valid()
      modifies this
      ensures Agrees(Relationships.Block(old(State()), actor, target), err, old(State()), State())
      ensures Valid()
    {
      if target == actor { return Some(SelfReference); }
      if target !in users || actor !in users { return Some(NotFound(UserDoc)); }
      var toBlock := users[target];
      var me := users[actor];
      if target in me.blockList { return Some(AlreadyBlocked); }
      me := me.(blockList := me.blockList + [target]);
      me := me.(following := Without(me.following, target));
      toBlock := toBlock.(followers := Without(toBlock.followers, actor));
      users := users[actor := me];
      users := users[target := toBlock];
      err := None;
      Relationships.BlockKeepsConsistent(old(State()), actor, target);
    }

    method Unblock(actor: UserId, target: UserId) returns (err: Option<Error>)
      requires Valid()
      modifies this
      ensures Agrees(Relationships.Unblock(old(State()), actor, target), err, old(State()), State())
      ensures Valid()
    {
      if target == actor { return Some(SelfReference); }
      if target !in users || actor !in users { return Some(NotFound(UserDoc)); }
      var me := users[actor];
      if target !in me.blockList { return Some(NotBlocked); }
      me := me.(blockList := Without(me.blockList, target));
      users := users[actor := me];
      err := None;
      Relationships.UnblockKeepsConsistent(old(State()), actor, target);
    }

    // Posts ----------------------------------------------------------------------

    /** createPostController (no images) and createPostWithImageController (with the
        image URLs already built). */
    method CreatePost(user: UserId, caption: string, image: seq<string>) returns (err: Option<Error>)
      requires Valid()
      modifies this
      ensures Agrees(Posts.CreatePost(old(State()), user, caption, image), err, old(State()), State())
      ensures Valid()
    {
      if user !in users { return Some(NotFound(UserDoc)); }
      ghost var before := State();
      var owner := users[user];
      var id := next;
      next := next + 1;
      posts := posts[id := Post(user, caption, image, [], [])];
      owner := owner.(posts := owner.posts + [id]);
      users := users[user := owner];
      err := None;
      assert Posts.CreatePost(before, user, caption, image) == Ok(State());
      Posts.CreatePostKeepsConsistent(before, user, caption, image);
    }

    method UpdatePost(post: PostId, caption: string) returns (err: Option<Error>)
      requires Valid()
      modifies this
      ensures Agrees(Posts.UpdatePost(old(State()), post, caption), err, old(State()), State())
      ensures Valid()
    {
      if post !in posts { return Some(NotFound(PostDoc)); }
      posts := posts[post := posts[post].(caption := caption)];
      err := None;
      Posts.UpdatePostKeepsConsistent(old(State()), post, caption);
    }

    method GetPosts(user: UserId) returns (r: Result<map<PostId, Post>>)
      ensures r == Posts.GetPosts(State(), user)
    {
      if user !in users { return Failure(NotFound(UserDoc)); }
      var found := FindMany(posts, (p: PostId, x: Post) => x.user == user);
      assert found == Posts.PostsBy(posts, user);
      r := Success(found);
    }

    method DeletePost(post: PostId) returns (err: Option<Error>)
      requires Valid()
      modifies this
      ensures Agrees(Posts.DeletePost(old(State()), post), err, old(State()), State())
      ensures Valid()
    {
      if post !in posts { return Some(NotFound(PostDoc)); }
      var toDelete := posts[post];
      if toDelete.user !in users { return Some(NotFound(UserDoc)); }
      ghost var before := State();
      var owner := users[toDelete.user];
      owner := owner.(posts := Without(owner.posts, post));
      var kept := DeleteCommentsUnder(comments, post);
      users, comments, posts := users[toDelete.user := owner], kept, posts - {post};
      err := None;
      assert Posts.DeletePost(before, post) == Ok(State());
      Posts.DeletePostKeepsConsistent(before, post);
    }

    method LikePost(post: PostId, user: UserId) returns (err: Option<Error>)
      requires Valid()
      modifies this
      ensures Agrees(Posts.LikePost(old(State()), post, user), err, old(State()), State())
      ensures Valid()
    {
      if post !in posts { return Some(NotFound(PostDoc)); }
      if user !in users { return Some(NotFound(UserDoc)); }
      var p := posts[post];
      if user in p.likes { return Some(AlreadyLiked); }
      p := p.(likes := p.likes + [user]);
      posts := posts[post := p];
      err := None;
      Posts.LikePostKeepsConsistent(old(State()), post, user);
    }

    method DislikePost(post: PostId, user: UserId) returns (err: Option<Error>)
      requires Valid()
      modifies this
      ensures Agrees(Posts.DislikePost(old(State()), post, user), err, old(State()), State())
      ensures Valid()
    {
      if post !in posts { return Some(NotFound(PostDoc)); }
      if user !in users { return Some(NotFound(UserDoc)); }
      var p := posts[post];
      if user !in p.likes { return Some(NotLiked); }
      p := p.(likes := Without(p.likes, user));
      posts := posts[post := p];
      err := None;
      Posts.DislikePostKeepsConsistent(old(State()), post, user);
    }

    method CreatePostWithImage(user: UserId, caption: string, baseUrl: string, files: seq<string>)
      returns (err: Option<Error>)
      requires Valid()
      modifies this
      ensures Agrees(Posts.CreatePostWithImage(old(State()), user, caption, baseUrl, files), err, old(State()), State())
      ensures Valid()
    {
      if user !in users { return Some(NotFound(UserDoc)); }
      var imageUrls := Posts.ImageUrls(baseUrl, files);
      err := CreatePost(user, caption, imageUrls);
    }

    // Comments and replies -------------------------------------------------------

    method CreateComment(post: PostId, user: UserId, text: string) returns (err: Option<Error>)
      requires Valid()
      modifies this
      ensures Agrees(Comments.CreateComment(old(State()), post, user, text), err, old(State()), State())
      ensures Valid()
    {
      if post !in posts { return Some(NotFound(PostDoc)); }
      if user !in users { return Some(NotFound(UserDoc)); }
      var p := posts[post];
      var id := next;
      next := next + 1;
      comments := comments[id := Comment(user, post, text, [], [])];
      p := p.(comments := p.comments + [id]);
      posts := posts[post := p];
      err := None;
      Comments.CreateCommentKeepsConsistent(old(State()), post, user, text);
    }

    method CreateReply(comment: CommentId, user: UserId, text: string) returns (err: Option<Error>)
      requires Valid()
      modifies this
      ensures Agrees(Comments.CreateReply(old(State()), comment, user, text), err, old(State()), State())
      ensures Valid()
    {
      if comment !in comments { return Some(NotFound(CommentDoc)); }
      if user !in users { return Some(NotFound(UserDoc)); }
      var cm := comments[comment];
      var id := next;
      next := next + 1;
      cm := cm.(replies := cm.replies + [Reply(id, user, text, [])]);
      comments := comments[comment := cm];
      err := None;
      Comments.CreateReplyKeepsConsistent(old(State()), comment, user, text);
    }

    method UpdateComment(comment: CommentId, user: UserId, text: string) returns (err: Option<Error>)
      requires Valid()
      modifies this
      ensures Agrees(Comments.UpdateComment(old(State()), comment, user, text), err, old(State()), State())
      ensures Valid()
    {
      if comment !in comments { return Some(NotFound(CommentDoc)); }
      var cm := comments[comment];
      if cm.user != user { return Some(NotAuthor); }
      comments := comments[comment := cm.(text := text)];
      err := None;
      Comments.UpdateCommentKeepsConsistent(old(State()), comment, user, text);
    }

    method UpdateReply(comment: CommentId, reply: ReplyId, user: UserId, text: string) returns (err: Option<Error>)
      requires Valid()
      modifies this
      ensures Agrees(Comments.UpdateReply(old(State()), comment, reply, user, text), err, old(State()), State())
      ensures Valid()
    {
      if comment !in comments { return Some(NotFound(CommentDoc)); }
      var cm := comments[comment];
      var found := FindReply(cm.replies, reply);
      if found.None? { return Some(NotFound(ReplyDoc)); }
      var k := found.value;
      if cm.replies[k].user != user { return Some(NotAuthor); }
      cm := cm.(replies := cm.replies[k := cm.replies[k].(text := text)]);
      comments := comments[comment := cm];
      err := None;
      Comments.UpdateReplyKeepsConsistent(old(State()), comment, reply, user, text);
    }

    /** Pulls the id from the one post that lists it, if any, then deletes the comment. */
    method DeleteComment(comment: CommentId) returns (err: Option<Error>)
      requires Valid()
      modifies this
      ensures Agrees(Comments.DeleteComment(old(State()), comment), err, old(State()), State())
      ensures Valid()
    {
      if comment !in comments { return Some(NotFound(CommentDoc)); }
      ghost var before := State();
      assert ListingAgrees(posts, comments);
      posts := FindOneAndPull(posts, comments, comment);
      comments := comments - {comment};
      err := None;
      assert Comments.DeleteComment(before, comment) == Ok(State());
      Comments.DeleteCommentKeepsConsistent(before, comment);
    }

    /** The reply with the given id is removed and the others kept (the handler's evident
        intent; see Comments.DeleteReplyAsWritten for what its filter does). */
    method DeleteReply(comment: CommentId, reply: ReplyId) returns (err: Option<Error>)
      requires Valid()
      modifies this
      ensures Agrees(Comments.DeleteReply(old(State()), comment, reply), err, old(State()), State())
      ensures Valid()
    {
      if comment !in comments { return Some(NotFound(CommentDoc)); }
      var cm := comments[comment];
      if FindReply(cm.replies, reply).None? { return Some(NotFound(ReplyDoc)); }
      var kept := KeepOtherReplies(cm.replies, reply);
      comments := comments[comment := cm.(replies := kept)];
      err := None;
      Comments.DeleteReplyKeepsConsistent(old(State()), comment, reply);
    }

    method LikeComment(comment: CommentId, user: UserId) returns (err: Option<Error>)
      requires Valid()
      modifies this
      ensures Agrees(Comments.LikeComment(old(State()), comment, user), err, old(State()), State())
      ensures Valid()
    {
      if comment !in comments { return Some(NotFound(CommentDoc)); }
      if user !in users { return Some(NotFound(UserDoc)); }
      var cm := comments[comment];
      if user in cm.likes { return Some(AlreadyLiked); }
      comments := comments[comment := cm.(likes := cm.likes + [user])];
      err := None;
      Comments.LikeCommentKeepsConsistent(old(State()), comment, user);
    }

    method DislikeComment(comment: CommentId, user: UserId) returns (err: Option<Error>)
      requires Valid()
      modifies this
      ensures Agrees(Comments.DislikeComment(old(State()), comment, user), err, old(State()), State())
      ensures Valid()
    {
      if comment !in comments { return Some(NotFound(CommentDoc)); }
      if user !in users { return Some(NotFound(UserDoc)); }
      var cm := comments[comment];
      if user !in cm.likes { return Some(NotLiked); }
      comments := comments[comment := cm.(likes := Without(cm.likes, user))];
      err := None;
      Comments.DislikeCommentKeepsConsistent(old(State()), comment, user);
    }

    method LikeReply(comment: CommentId, reply: ReplyId, user: UserId) returns (err: Option<Error>)
      requires Valid()
      modifies this
      ensures Agrees(Comments.LikeReply(old(State()), comment, reply, user), err, old(State()), State())
      ensures Valid()
    {
      if comment !in comments { return Some(NotFound(CommentDoc)); }
      if user !in users { return Some(NotFound(UserDoc)); }
      var cm := comments[comment];
      var found := FindReply(cm.replies, reply);
      if found.None? { return Some(NotFound(ReplyDoc)); }
      var k := found.value;
      var x := cm.replies[k];
      if user in x.likes { return Some(AlreadyLiked); }
      cm := cm.(replies := cm.replies[k := x.(likes := x.likes + [user])]);
      comments := comments[comment := cm];
      err := None;
      Comments.LikeReplyKeepsConsistent(old(State()), comment, reply, user);
    }

    method DislikeReply(comment: CommentId, reply: ReplyId, user: UserId) returns (err: Option<Error>)
      requires Valid()
      modifies this
      ensures Agrees(Comments.DislikeReply(old(State()), comment, reply, user), err, old(State()), State())
      ensures Valid()
    {
      if comment !in comments { return Some(NotFound(CommentDoc)); }
      if user !in users { return Some(NotFound(UserDoc)); }
      var cm := comments[comment];
      var found := FindReply(cm.replies, reply);
      if found.None? { return Some(NotFound(ReplyDoc)); }
      var k := found.value;
      var x := cm.replies[k];
      if user !in x.likes { return Some(NotLiked); }
      cm := cm.(replies := cm.replies[k := x.(likes := Without(x.likes, user))]);
      comments := comments[comment := cm];
      err := None;
      Comments.DislikeReplyKeepsConsistent(old(State()), comment, reply, user);
    }

    // The cascade ------------------------------------------------------------------

    /** deleteUserController: the cascade runs over the store's collections and its result
        is written back. */
    method DeleteUser(u: UserId) returns (err: Option<Error>)
      requires Valid()
      modifies this
      ensures Agrees(Cascade.DeleteUser(old(State()), u), err, old(State()), State())
      ensures Valid()
    {
      var after;
      err, after := RunCascade(State(), u);
      WriteBack(after);
    }

    /** Replaces the four collections by those of `db`, which has the same id counter. */
    method WriteBack(db: Db)
      requires db.next == next && Consistent(db)
      modifies this
      ensures State() == db && Valid()
    {
      users, posts, comments, stories := db.users, db.posts, db.comments, db.stories;
    }
  }

  /** `Post.findOneAndUpdate({ comments: comment }, { $pull: { comments: comment } })`: the
      one post whose listing holds the comment, if any, loses it. Since only the comment's
      own post lists it, this is the pull from every post. */
  method FindOneAndPull(posts: map<PostId, Post>, comments: map<CommentId, Comment>, comment: CommentId)
    returns (r: map<PostId, Post>)
    requires ListingAgrees(posts, comments) && comment in comments
    ensures r == Comments.PullListing(posts, comment)
  {
    r := posts;
    if p :| p in posts && comment in posts[p].comments {
      Comments.PullListingAt(posts, comments, comment, p);
      r := posts[p := posts[p].(comments := Without(posts[p].comments, comment))];
    } else {
      Comments.PullListingNone(posts, comment);
    }
  }

  /** deleteUserController over the collections: the user lookup, the eleven bulk steps in
      the handler's order, then the user record itself. */
  method RunCascade(db: Db, u: UserId) returns (err: Option<Error>, r: Db)
    ensures Agrees(Cascade.DeleteUser(db, u), err, db, r)
    ensures r.next == db.next
    ensures Consistent(db) ==> Consistent(r)
  {
    if u !in db.users { return Some(NotFound(UserDoc)), db; }
    var userToDelete := db.users[u];
    var users, posts, comments, stories := db.users, db.posts, db.comments, db.stories;
    posts := DeletePostsOf(posts, u);
    posts := PullAuthoredComments(posts, comments, u);
    comments := PullRepliesOf(comments, u);
    comments := DeleteCommentsOf(comments, u);
    stories := DeleteStoriesOf(stories, u);
    posts := PullLikesFromPosts(posts, u, true);
    users := PullFollowerFromTargets(users, userToDelete.following, u);
    users := PullFromFollowing(users, u);
    comments := PullLikesFromComments(comments, u);
    comments := PullLikesFromReplies(comments, u);
    posts := PullLikesFromPosts(posts, u, false);
    users := users - {u};
    r := Db(users, posts, comments, stories, db.next);
    err := None;
    if Consistent(db) {
      Cascade.DeleteUserKeepsConsistent(db, u);
    }
  }

  /** `replies.filter(reply => reply._id != replyId)`, one reply at a time. */
  method KeepOtherReplies(rs: seq<Reply>, reply: ReplyId) returns (r: seq<Reply>)
    ensures r == RemoveReply(rs, reply)
  {
    r := [];
    var i := 0;
    while i < |rs|
      invariant 0 <= i <= |rs|
      invariant r + RemoveReply(rs[i..], reply) == RemoveReply(rs, reply)
    {
      assert RemoveReply(rs[i..], reply) ==
             (if rs[i].id == reply then [] else [rs[i]]) + RemoveReply(rs[i + 1..], reply) by {
        assert rs[i..][1..] == rs[i + 1..];
      }
      if rs[i].id != reply {
        assert (r + [rs[i]]) + RemoveReply(rs[i + 1..], reply) == r + ([rs[i]] + RemoveReply(rs[i + 1..], reply));
        r := r + [rs[i]];
      }
      i := i + 1;
    }
  }
}
