/** Comments and their replies (controllers/commentController.js). A comment is its own
    document that points at its post, and the post lists the comment's id; replies live
    inside their comment as a sequence addressed by reply id. */
module Comments {
  import opened Model

  /** The only change is that comment `c` now holds `cm`. */
  ghost predicate OnlyCommentChanged(db: Db, db': Db, c: CommentId, cm: Comment) {
    db' == db.(comments := db.comments[c := cm])
  }

  /** Creates a comment by `user` on `post` under the next fresh id and appends the id to
      the end of the post's `comments`. The post is looked up before the user. */
  function CreateComment(db: Db, post: PostId, user: UserId, text: string): (r: Outcome)
    ensures post !in db.posts ==> r == Err(NotFound(PostDoc))
    ensures post in db.posts && user !in db.users ==> r == Err(NotFound(UserDoc))
    ensures r.Ok? <==> post in db.posts && user in db.users
    ensures r.Ok? ==>
      r.db.comments == db.comments[db.next := Comment(user, post, text, [], [])] &&
      r.db.posts == db.posts[post := db.posts[post].(comments := db.posts[post].comments + [db.next])] &&
      r.db.users == db.users && r.db.stories == db.stories && r.db.next == db.next + 1
  {
    if post !in db.posts then Err(NotFound(PostDoc))
    else if user !in db.users then Err(NotFound(UserDoc))
    else
      var id := db.next;
      var p := db.posts[post];
      Ok(db.(comments := db.comments[id := Comment(user, post, text, [], [])],
             posts := db.posts[post := p.(comments := p.comments + [id])],
             next := id + 1))
  }

  /** Appends a reply `{text, user}` with the next fresh id to the end of the comment's
      replies. The comment is looked up before the user. */
  function CreateReply(db: Db, comment: CommentId, user: UserId, text: string): (r: Outcome)
    ensures comment !in db.comments ==> r == Err(NotFound(CommentDoc))
    ensures comment in db.comments && user !in db.users ==> r == Err(NotFound(UserDoc))
    ensures r.Ok? <==> comment in db.comments && user in db.users
    ensures r.Ok? ==>
      var cm := db.comments[comment];
      r.db == db.(comments := db.comments[comment := cm.(replies := cm.replies + [Reply(db.next, user, text, [])])],
                  next := db.next + 1)
  {
    if comment !in db.comments then Err(NotFound(CommentDoc))
    else if user !in db.users then Err(NotFound(UserDoc))
    else
      var cm := db.comments[comment];
      Ok(db.(comments := db.comments[comment := cm.(replies := cm.replies + [Reply(db.next, user, text, [])])],
             next := db.next + 1))
  }

  /** Replaces the text of a comment; only its author may. */
  function UpdateComment(db: Db, comment: CommentId, user: UserId, text: string): (r: Outcome)
    ensures comment !in db.comments ==> r == Err(NotFound(CommentDoc))
    ensures comment in db.comments && db.comments[comment].user != user ==> r == Err(NotAuthor)
    ensures r.Ok? <==> comment in db.comments && db.comments[comment].user == user
    ensures r.Ok? ==> OnlyCommentChanged(db, r.db, comment, db.comments[comment].(text := text))
  {
    if comment !in db.comments then Err(NotFound(CommentDoc))
    else if db.comments[comment].user != user then Err(NotAuthor)
    else Ok(db.(comments := db.comments[comment := db.comments[comment].(text := text)]))
  }

  /** Replaces the text of the reply found by id (the first one holding it); only the
      reply's author may. */
  function UpdateReply(db: Db, comment: CommentId, reply: ReplyId, user: UserId, text: string): (r: Outcome)
    ensures comment !in db.comments ==> r == Err(NotFound(CommentDoc))
    ensures comment in db.comments && FindReply(db.comments[comment].replies, reply).None? ==>
      r == Err(NotFound(ReplyDoc))
    ensures r.Ok? ==> comment in db.comments && FindReply(db.comments[comment].replies, reply).Some?
    ensures comment in db.comments && FindReply(db.comments[comment].replies, reply).Some? ==>
      var rs := db.comments[comment].replies;
      var k := FindReply(rs, reply).value;
      (r == Err(NotAuthor) <==> rs[k].user != user) &&
      (r.Ok? <==> rs[k].user == user) &&
      (r.Ok? ==> OnlyCommentChanged(db, r.db, comment,
                   db.comments[comment].(replies := rs[k := rs[k].(text := text)])))
  {
    if comment !in db.comments then Err(NotFound(CommentDoc))
    else
      var cm := db.comments[comment];
      match FindReply(cm.replies, reply)
      case None => Err(NotFound(ReplyDoc))
      case Some(k) =>
        if cm.replies[k].user != user then Err(NotAuthor)
        else Ok(db.(comments := db.comments[comment := cm.(replies := cm.replies[k := cm.replies[k].(text := text)])]))
  }

  /** Pulls the comment id from the posts' `comments` and deletes the comment. The handler
      pulls it from the one post it finds listing the id; pulling it from every post is the
      same store whenever at most one post lists it (see DeleteCommentTouchesOnlyParent). */
  function DeleteComment(db: Db, comment: CommentId): (r: Outcome)
    ensures r.Err? <==> comment !in db.comments
    ensures r.Err? ==> r.error == NotFound(CommentDoc)
    ensures r.Ok? ==>
      r.db.comments == db.comments - {comment} &&
      r.db.posts.Keys == db.posts.Keys &&
      (forall p :: p in db.posts ==>
         r.db.posts[p] == db.posts[p].(comments := Without(db.posts[p].comments, comment)) &&
         comment !in r.db.posts[p].comments) &&
      r.db.users == db.users && r.db.stories == db.stories && r.db.next == db.next
  {
    if comment !in db.comments then Err(NotFound(CommentDoc))
    else
      Ok(db.(posts := PullListing(db.posts, comment), comments := db.comments - {comment}))
  }

  /** Every post with the comment id pulled from its `comments`. */
  function PullListing(posts: map<PostId, Post>, comment: CommentId): (r: map<PostId, Post>)
    ensures r.Keys == posts.Keys
    ensures forall p :: p in r ==> r[p].(comments := posts[p].comments) == posts[p]
    ensures forall p, c :: p in r ==> (c in r[p].comments <==> c in posts[p].comments && c != comment)
  {
    map p | p in posts :: posts[p].(comments := Without(posts[p].comments, comment))
  }

  /** Deletes the reply with the given id; refused when no reply holds it. This is the
      handler's evident intent; DeleteReplyAsWritten is what its filter does. */
  function DeleteReply(db: Db, comment: CommentId, reply: ReplyId): (r: Outcome)
    ensures comment !in db.comments ==> r == Err(NotFound(CommentDoc))
    ensures comment in db.comments ==>
      var cm := db.comments[comment];
      (r == Err(NotFound(ReplyDoc)) <==> FindReply(cm.replies, reply).None?) &&
      (r.Ok? <==> FindReply(cm.replies, reply).Some?) &&
      (r.Ok? ==> OnlyCommentChanged(db, r.db, comment, cm.(replies := RemoveReply(cm.replies, reply))))
  {
    if comment !in db.comments then Err(NotFound(CommentDoc))
    else
      var cm := db.comments[comment];
      if FindReply(cm.replies, reply).None? then Err(NotFound(ReplyDoc))
      else Ok(db.(comments := db.comments[comment := cm.(replies := RemoveReply(cm.replies, reply))]))
  }

  /** deleteReplyCommentController as written: the filter callback has a block body with no
      `return`, so it yields undefined for every reply and the whole list is dropped. */
  function DeleteReplyAsWritten(db: Db, comment: CommentId, reply: ReplyId): (r: Outcome)
    ensures comment !in db.comments ==> r == Err(NotFound(CommentDoc))
    ensures comment in db.comments ==>
      var cm := db.comments[comment];
      (r == Err(NotFound(ReplyDoc)) <==> FindReply(cm.replies, reply).None?) &&
      (r.Ok? <==> FindReply(cm.replies, reply).Some?) &&
      (r.Ok? ==> OnlyCommentChanged(db, r.db, comment, cm.(replies := [])))
  {
    if comment !in db.comments then Err(NotFound(CommentDoc))
    else
      var cm := db.comments[comment];
      if FindReply(cm.replies, reply).None? then Err(NotFound(ReplyDoc))
      else Ok(db.(comments := db.comments[comment := cm.(replies := [])]))
  }

  /** Pushes `user` onto the comment's `likes`; refused if they already like it. */
  function LikeComment(db: Db, comment: CommentId, user: UserId): (r: Outcome)
    ensures comment !in db.comments ==> r == Err(NotFound(CommentDoc))
    ensures comment in db.comments && user !in db.users ==> r == Err(NotFound(UserDoc))
    ensures comment in db.comments && user in db.users ==>
      var cm := db.comments[comment];
      (r == Err(AlreadyLiked) <==> user in cm.likes) &&
      (r.Ok? <==> user !in cm.likes) &&
      (r.Ok? ==> OnlyCommentChanged(db, r.db, comment, cm.(likes := cm.likes + [user])))
  {
    if comment !in db.comments then Err(NotFound(CommentDoc))
    else if user !in db.users then Err(NotFound(UserDoc))
    else
      var cm := db.comments[comment];
      if user in cm.likes then Err(AlreadyLiked)
      else Ok(db.(comments := db.comments[comment := cm.(likes := cm.likes + [user])]))
  }

  /** Pulls `user` from the comment's `likes`; refused if they do not like it. */
  function DislikeComment(db: Db, comment: CommentId, user: UserId): (r: Outcome)
    ensures comment !in db.comments ==> r == Err(NotFound(CommentDoc))
    ensures comment in db.comments && user !in db.users ==> r == Err(NotFound(UserDoc))
    ensures comment in db.comments && user in db.users ==>
      var cm := db.comments[comment];
      (r == Err(NotLiked) <==> user !in cm.likes) &&
      (r.Ok? <==> user in cm.likes) &&
      (r.Ok? ==> OnlyCommentChanged(db, r.db, comment, cm.(likes := Without(cm.likes, user))) &&
                 user !in r.db.comments[comment].likes)
  {
    if comment !in db.comments then Err(NotFound(CommentDoc))
    else if user !in db.users then Err(NotFound(UserDoc))
    else
      var cm := db.comments[comment];
      if user !in cm.likes then Err(NotLiked)
      else Ok(db.(comments := db.comments[comment := cm.(likes := Without(cm.likes, user))]))
  }

  /** Pushes `user` onto the likes of the reply found by id; refused if they already like
      it. Lookups run comment, user, reply. */
  function LikeReply(db: Db, comment: CommentId, reply: ReplyId, user: UserId): (r: Outcome)
    ensures comment !in db.comments ==> r == Err(NotFound(CommentDoc))
    ensures comment in db.comments && user !in db.users ==> r == Err(NotFound(UserDoc))
    ensures comment in db.comments && user in db.users ==>
      var rs := db.comments[comment].replies;
      (r == Err(NotFound(ReplyDoc)) <==> FindReply(rs, reply).None?) &&
      (FindReply(rs, reply).Some? ==>
         var k := FindReply(rs, reply).value;
         (r == Err(AlreadyLiked) <==> user in rs[k].likes) &&
         (r.Ok? <==> user !in rs[k].likes) &&
         (r.Ok? ==> OnlyCommentChanged(db, r.db, comment,
                      db.comments[comment].(replies := rs[k := rs[k].(likes := rs[k].likes + [user])]))))
    ensures r.Ok? ==> comment in db.comments && user in db.users && FindReply(db.comments[comment].replies, reply).Some?
  {
    if comment !in db.comments then Err(NotFound(CommentDoc))
    else if user !in db.users then Err(NotFound(UserDoc))
    else
      var cm := db.comments[comment];
      match FindReply(cm.replies, reply)
      case None => Err(NotFound(ReplyDoc))
      case Some(k) =>
        var x := cm.replies[k];
        if user in x.likes then Err(AlreadyLiked)
        else Ok(db.(comments := db.comments[comment := cm.(replies := cm.replies[k := x.(likes := x.likes + [user])])]))
  }

  /** Pulls `user` from the likes of the reply found by id; refused if they do not like it. */
  function DislikeReply(db: Db, comment: CommentId, reply: ReplyId, user: UserId): (r: Outcome)
    ensures comment !in db.comments ==> r == Err(NotFound(CommentDoc))
    ensures comment in db.comments && user !in db.users ==> r == Err(NotFound(UserDoc))
    ensures comment in db.comments && user in db.users ==>
      var rs := db.comments[comment].replies;
      (r == Err(NotFound(ReplyDoc)) <==> FindReply(rs, reply).None?) &&
      (FindReply(rs, reply).Some? ==>
         var k := FindReply(rs, reply).value;
         (r == Err(NotLiked) <==> user !in rs[k].likes) &&
         (r.Ok? <==> user in rs[k].likes) &&
         (r.Ok? ==> OnlyCommentChanged(db, r.db, comment,
                      db.comments[comment].(replies := rs[k := rs[k].(likes := Without(rs[k].likes, user))]))))
    ensures r.Ok? ==> comment in db.comments && user in db.users && FindReply(db.comments[comment].replies, reply).Some?
  {
    if comment !in db.comments then Err(NotFound(CommentDoc))
    else if user !in db.users then Err(NotFound(UserDoc))
    else
      var cm := db.comments[comment];
      match FindReply(cm.replies, reply)
      case None => Err(NotFound(ReplyDoc))
      case Some(k) =>
        var x := cm.replies[k];
        if user !in x.likes then Err(NotLiked)
        else Ok(db.(comments := db.comments[comment := cm.(replies := cm.replies[k := x.(likes := Without(x.likes, user))])]))
  }

  // ---------------------------------------------------------------------------
  // Properties of single handlers

  /** The new comment's id was never handed out: no comment holds it and no post lists it,
      so after creation exactly its own post lists it, at the end. */
  lemma CreateCommentIsFresh(db: Db, post: PostId, user: UserId, text: string)
    requires Consistent(db) && CreateComment(db, post, user, text).Ok?
    ensures db.next !in db.comments
    ensures forall p :: p in db.posts ==> db.next !in db.posts[p].comments
    ensures var db' := CreateComment(db, post, user, text).db;
      forall p :: p in db'.posts ==> (db.next in db'.posts[p].comments <==> p == post)
  {
    assert PostIdsBelow(db.posts, db.next) && CommentIdsBelow(db.comments, db.next);
  }

  /** The new reply is addressable by its id: FindReply finds it at the end of the list. */
  lemma CreateReplyIsFindable(db: Db, comment: CommentId, user: UserId, text: string)
    requires Consistent(db) && CreateReply(db, comment, user, text).Ok?
    ensures var rs := db.comments[comment].replies;
      FindReply(CreateReply(db, comment, user, text).db.comments[comment].replies, db.next) == Some(|rs|)
  {
    var rs := db.comments[comment].replies;
    var rs' := rs + [Reply(db.next, user, text, [])];
    assert CommentIdsBelow(db.comments, db.next);
    forall j | 0 <= j < |rs| ensures rs'[j].id != db.next {
      assert rs'[j] == rs[j] && rs[j] in db.comments[comment].replies;
    }
    assert rs'[|rs|].id == db.next;
    assert CreateReply(db, comment, user, text).db.comments[comment].replies == rs';
  }

  /** After a successful delete no reply holds the id, and every reply with another id is
      still there. */
  lemma DeleteReplyRemovesId(db: Db, comment: CommentId, reply: ReplyId)
    requires DeleteReply(db, comment, reply).Ok?
    ensures var rs' := DeleteReply(db, comment, reply).db.comments[comment].replies;
      forall x :: x in rs' <==> x in db.comments[comment].replies && x.id != reply
  {
    RemoveReplyKeeps(db.comments[comment].replies, reply);
  }

  /** The handler as written also leaves no reply with the id, trivially. */
  lemma DeleteReplyAsWrittenRemovesId(db: Db, comment: CommentId, reply: ReplyId)
    requires DeleteReplyAsWritten(db, comment, reply).Ok?
    ensures forall x :: x in DeleteReplyAsWritten(db, comment, reply).db.comments[comment].replies ==> x.id != reply
  {
  }

  /** With distinct reply ids, deleting cuts exactly the position FindReply reports and keeps
      the order of the rest. */
  lemma DeleteReplyCutsOne(db: Db, comment: CommentId, reply: ReplyId)
    requires RepliesDistinct(db.comments) && DeleteReply(db, comment, reply).Ok?
    ensures var rs := db.comments[comment].replies;
      var k := FindReply(rs, reply).value;
      DeleteReply(db, comment, reply).db.comments[comment].replies == rs[..k] + rs[k + 1..]
  {
    var rs := db.comments[comment].replies;
    var k := FindReply(rs, reply).value;
    FoundReplyIsUnique(rs, reply, k);
    RemoveReplyAt(rs, reply, k);
  }

  /** Of the handler as written: deleting one reply of a comment with two replies drops the
      other one too, where the intended rule keeps it. */
  lemma DeleteReplyAsWrittenDropsOthers()
    ensures var keep := Reply(2, 0, "b", []);
      var db := Db(map[0 := User([], [], [], [])], map[],
                   map[0 := Comment(0, 0, "c", [], [Reply(1, 0, "a", []), keep])], map[], 3);
      DeleteReplyAsWritten(db, 0, 1).Ok? && keep !in DeleteReplyAsWritten(db, 0, 1).db.comments[0].replies &&
      DeleteReply(db, 0, 1).Ok? && DeleteReply(db, 0, 1).db.comments[0].replies == [keep]
  {
    var keep := Reply(2, 0, "b", []);
    var rs := [Reply(1, 0, "a", []), keep];
    assert FindReply(rs, 1) == Some(0);
    assert RemoveReply(rs[1..], 1) == [keep] + RemoveReply(rs[2..], 1);
  }

  /** Under the invariants only the comment's parent post lists it, so pulling the id from
      every post changes that post alone: this is the one post findOneAndUpdate finds. */
  lemma DeleteCommentTouchesOnlyParent(db: Db, comment: CommentId)
    requires ListingAgrees(db.posts, db.comments) && DeleteComment(db, comment).Ok?
    ensures forall p :: p in db.posts && p != db.comments[comment].post ==>
      DeleteComment(db, comment).db.posts[p] == db.posts[p]
  {
    forall p | p in db.posts && p != db.comments[comment].post
      ensures DeleteComment(db, comment).db.posts[p] == db.posts[p]
    {
      assert comment !in db.posts[p].comments;
    }
  }

  /** When post `p` lists the comment, pulling the id from every post is pulling it from
      `p`: the update of the one post `findOneAndUpdate` finds. */
  lemma PullListingAt(posts: map<PostId, Post>, comments: map<CommentId, Comment>, comment: CommentId, p: PostId)
    requires ListingAgrees(posts, comments) && comment in comments
    requires p in posts && comment in posts[p].comments
    ensures PullListing(posts, comment) == posts[p := posts[p].(comments := Without(posts[p].comments, comment))]
  {
    assert comments[comment].post == p;
    forall q | q in posts && q != p ensures comment !in posts[q].comments {
    }
  }

  /** When no post lists the comment, pulling its id changes nothing. */
  lemma PullListingNone(posts: map<PostId, Post>, comment: CommentId)
    requires forall p :: p in posts ==> comment !in posts[p].comments
    ensures PullListing(posts, comment) == posts
  {
    forall p | p in posts ensures PullListing(posts, comment)[p] == posts[p] {
    }
  }

  /** Dislike undoes Like exactly, for comments. */
  lemma LikeThenDislikeComment(db: Db, comment: CommentId, user: UserId)
    requires LikeComment(db, comment, user).Ok?
    ensures DislikeComment(LikeComment(db, comment, user).db, comment, user) == Ok(db)
  {
    var cm := db.comments[comment];
    PushThenPull(cm.likes, user);
    assert cm.(likes := cm.likes) == cm;
    assert db.comments[comment := cm] == db.comments;
  }

  /** Like is a strict toggle, and a duplicate-free `likes` stays duplicate-free. */
  lemma LikeCommentStrict(db: Db, comment: CommentId, user: UserId)
    requires LikeComment(db, comment, user).Ok?
    ensures LikeComment(LikeComment(db, comment, user).db, comment, user) == Err(AlreadyLiked)
    ensures NoDup(db.comments[comment].likes) ==> NoDup(LikeComment(db, comment, user).db.comments[comment].likes)
  {
  }

  /** Editing a reply's fields other than its id keeps its position and every other reply. */
  lemma ReplyEditKeepsIds(rs: seq<Reply>, k: nat, x: Reply)
    requires k < |rs| && x.id == rs[k].id
    ensures ReplyIds(rs[k := x]) == ReplyIds(rs)
  {
  }

  /** Dislike undoes Like exactly, for replies. */
  lemma LikeThenDislikeReply(db: Db, comment: CommentId, reply: ReplyId, user: UserId)
    requires LikeReply(db, comment, reply, user).Ok?
    ensures DislikeReply(LikeReply(db, comment, reply, user).db, comment, reply, user) == Ok(db)
  {
    var cm := db.comments[comment];
    var rs := cm.replies;
    var k := FindReply(rs, reply).value;
    var x := rs[k];
    var rs' := rs[k := x.(likes := x.likes + [user])];
    ReplyEditKeepsIds(rs, k, x.(likes := x.likes + [user]));
    FindReplySameIds(rs, rs', reply);
    PushThenPull(x.likes, user);
    assert rs'[k := rs'[k].(likes := Without(rs'[k].likes, user))] == rs;
    assert cm.(replies := rs) == cm;
    assert db.comments[comment := cm] == db.comments;
  }

  /** Like on a reply is a strict toggle. */
  lemma LikeReplyStrict(db: Db, comment: CommentId, reply: ReplyId, user: UserId)
    requires LikeReply(db, comment, reply, user).Ok?
    ensures LikeReply(LikeReply(db, comment, reply, user).db, comment, reply, user) == Err(AlreadyLiked)
  {
    var rs := db.comments[comment].replies;
    var k := FindReply(rs, reply).value;
    var x := rs[k].(likes := rs[k].likes + [user]);
    ReplyEditKeepsIds(rs, k, x);
    FindReplySameIds(rs, rs[k := x], reply);
  }

  /** Updating a reply keeps the list's length, its ids and every other reply. */
  lemma UpdateReplyOnlyThatReply(db: Db, comment: CommentId, reply: ReplyId, user: UserId, text: string)
    requires UpdateReply(db, comment, reply, user, text).Ok?
    ensures var rs := db.comments[comment].replies;
      var rs' := UpdateReply(db, comment, reply, user, text).db.comments[comment].replies;
      var k := FindReply(rs, reply).value;
      |rs'| == |rs| && rs'[k].id == reply && rs'[k].text == text &&
      rs'[k] == rs[k].(text := text) &&
      forall j :: 0 <= j < |rs| && j != k ==> rs'[j] == rs[j]
  {
  }

  // ---------------------------------------------------------------------------
  // Every handler keeps the store consistent

  /** Replacing one comment by one with the same parent post, distinct reply ids and reply
      ids below `next` keeps the comment invariants. */
  lemma {:induction false} ReplaceCommentKeeps(posts: map<PostId, Post>, comments: map<CommentId, Comment>,
                                               next: nat, c: CommentId, cm: Comment)
    requires CommentIdsBelow(comments, next) && ListingAgrees(posts, comments) && RepliesDistinct(comments)
    requires ListingsLive(posts, comments)
    requires c in comments && cm.post == comments[c].post && DistinctIds(cm.replies)
    requires forall x :: x in cm.replies ==> x.id < next
    ensures var comments' := comments[c := cm];
      CommentIdsBelow(comments', next) && ListingAgrees(posts, comments') && RepliesDistinct(comments') &&
      ListingsLive(posts, comments')
  {
    var comments' := comments[c := cm];
    forall d, x | d in comments' && x in comments'[d].replies ensures x.id < next {
      if d != c {
        assert x in comments[d].replies;
      }
    }
    forall p, d | p in posts && d in posts[p].comments && d in comments' ensures comments'[d].post == p {
      assert comments[d].post == p;
    }
  }

  /** Replacing one reply by one with the same id keeps the ids distinct and bounded. */
  lemma ReplyEditKeepsBounds(rs: seq<Reply>, k: nat, x: Reply, next: nat)
    requires DistinctIds(rs) && k < |rs| && x.id == rs[k].id
    requires forall y :: y in rs ==> y.id < next
    ensures DistinctIds(rs[k := x])
    ensures forall y :: y in rs[k := x] ==> y.id < next
  {
    var rs' := rs[k := x];
    forall y | y in rs' ensures y.id < next {
      var j :| 0 <= j < |rs'| && rs'[j] == y;
      assert rs[j] in rs;
    }
  }

  /** Adding a comment without replies under a fresh id, listed at the end of its own post,
      keeps the invariants that mention posts and comments. */
  lemma {:induction false} AddCommentKeeps(users: map<UserId, User>, posts: map<PostId, Post>,
                                           comments: map<CommentId, Comment>, next: nat, cm: Comment)
    requires PostIdsBelow(posts, next) && CommentIdsBelow(comments, next)
    requires ListingAgrees(posts, comments) && RepliesDistinct(comments) && PostsIndexed(users, posts)
    requires ListingsLive(posts, comments)
    requires cm.post in posts && cm.replies == []
    ensures var p := posts[cm.post];
      var posts' := posts[cm.post := p.(comments := p.comments + [next])];
      var comments' := comments[next := cm];
      PostIdsBelow(posts', next + 1) && CommentIdsBelow(comments', next + 1) &&
      ListingAgrees(posts', comments') && RepliesDistinct(comments') && PostsIndexed(users, posts') &&
      ListingsLive(posts', comments')
  {
    var p := posts[cm.post];
    var posts' := posts[cm.post := p.(comments := p.comments + [next])];
    var comments' := comments[next := cm];
    AddListingKeeps(posts, comments, next, cm);
    forall d, x | d in comments' && x in comments'[d].replies ensures x.id < next + 1 {
      assert x in comments[d].replies;
    }
    PostsIndexedPostsFrame(users, posts, posts');
  }

  /** The listing half of AddCommentKeeps. */
  lemma {:induction false} AddListingKeeps(posts: map<PostId, Post>, comments: map<CommentId, Comment>,
                                           next: nat, cm: Comment)
    requires PostIdsBelow(posts, next) && CommentIdsBelow(comments, next)
    requires ListingAgrees(posts, comments) && ListingsLive(posts, comments) && cm.post in posts
    ensures var p := posts[cm.post];
      var posts' := posts[cm.post := p.(comments := p.comments + [next])];
      var comments' := comments[next := cm];
      PostIdsBelow(posts', next + 1) && ListingAgrees(posts', comments') && ListingsLive(posts', comments')
  {
    var p := posts[cm.post];
    var posts' := posts[cm.post := p.(comments := p.comments + [next])];
    var comments' := comments[next := cm];
    assert forall q :: q in posts ==> next !in posts[q].comments;
    forall q, c | q in posts' && c in posts'[q].comments
      ensures c < next + 1 && c in comments' && comments'[c].post == q
    {
      if c != next {
        assert c in posts[q].comments;
      }
    }
  }

  lemma CreateCommentKeepsConsistent(db: Db, post: PostId, user: UserId, text: string)
    requires Consistent(db) && CreateComment(db, post, user, text).Ok?
    ensures Consistent(CreateComment(db, post, user, text).db)
  {
    AddCommentKeeps(db.users, db.posts, db.comments, db.next, Comment(user, post, text, [], []));
  }

  lemma CreateReplyKeepsConsistent(db: Db, comment: CommentId, user: UserId, text: string)
    requires Consistent(db) && CreateReply(db, comment, user, text).Ok?
    ensures Consistent(CreateReply(db, comment, user, text).db)
  {
    var cm := db.comments[comment];
    var rs' := cm.replies + [Reply(db.next, user, text, [])];
    assert CommentIdsBelow(db.comments, db.next) && RepliesDistinct(db.comments);
    forall y | y in rs' ensures y.id < db.next + 1 {
      if y != Reply(db.next, user, text, []) {
        assert y in cm.replies;
      }
    }
    forall i, j | 0 <= i < j < |rs'| ensures rs'[i].id != rs'[j].id {
      if j < |cm.replies| {
        assert rs'[i] == cm.replies[i] && rs'[j] == cm.replies[j];
      } else {
        assert rs'[i] in cm.replies;
      }
    }
    CommentIdsBelowGrows(db.comments, db.next, db.next + 1);
    PostIdsBelowGrows(db.posts, db.next, db.next + 1);
    ReplaceCommentKeeps(db.posts, db.comments, db.next + 1, comment, cm.(replies := rs'));
  }

  lemma UpdateCommentKeepsConsistent(db: Db, comment: CommentId, user: UserId, text: string)
    requires Consistent(db) && UpdateComment(db, comment, user, text).Ok?
    ensures Consistent(UpdateComment(db, comment, user, text).db)
  {
    var cm := db.comments[comment];
    assert RepliesDistinct(db.comments) && CommentIdsBelow(db.comments, db.next);
    ReplaceCommentKeeps(db.posts, db.comments, db.next, comment, cm.(text := text));
  }

  lemma UpdateReplyKeepsConsistent(db: Db, comment: CommentId, reply: ReplyId, user: UserId, text: string)
    requires Consistent(db) && UpdateReply(db, comment, reply, user, text).Ok?
    ensures Consistent(UpdateReply(db, comment, reply, user, text).db)
  {
    var cm := db.comments[comment];
    var k := FindReply(cm.replies, reply).value;
    assert RepliesDistinct(db.comments) && CommentIdsBelow(db.comments, db.next);
    ReplyEditKeepsBounds(cm.replies, k, cm.replies[k].(text := text), db.next);
    ReplaceCommentKeeps(db.posts, db.comments, db.next, comment,
                        cm.(replies := cm.replies[k := cm.replies[k].(text := text)]));
  }

  lemma DeleteCommentKeepsConsistent(db: Db, comment: CommentId)
    requires Consistent(db) && DeleteComment(db, comment).Ok?
    ensures Consistent(DeleteComment(db, comment).db)
  {
    var posts', comments' := PullListing(db.posts, comment), db.comments - {comment};
    assert DeleteComment(db, comment).db == db.(posts := posts', comments := comments');
    PullListingKeeps(db.posts, db.comments, db.next, comment);
    PostsIndexedPostsFrame(db.users, db.posts, posts');
    ContentSubmaps(db.posts, db.comments, db.posts, comments', db.next);
  }

  /** Pulling a comment id from every listing and deleting that comment keeps the listing
      invariants. */
  lemma {:induction false} PullListingKeeps(posts: map<PostId, Post>, comments: map<CommentId, Comment>,
                                            next: nat, comment: CommentId)
    requires PostIdsBelow(posts, next) && ListingAgrees(posts, comments) && ListingsLive(posts, comments)
    ensures var posts', comments' := PullListing(posts, comment), comments - {comment};
      PostIdsBelow(posts', next) && ListingAgrees(posts', comments') && ListingsLive(posts', comments')
  {
    var posts', comments' := PullListing(posts, comment), comments - {comment};
    forall p, c | p in posts && c in posts'[p].comments ensures c in posts[p].comments && c in comments' {
    }
    ListingsShrink(posts, posts', comments, comments', next);
  }

  lemma DeleteReplyKeepsConsistent(db: Db, comment: CommentId, reply: ReplyId)
    requires Consistent(db) && DeleteReply(db, comment, reply).Ok?
    ensures Consistent(DeleteReply(db, comment, reply).db)
  {
    var cm := db.comments[comment];
    var rs := cm.replies;
    var k := FindReply(rs, reply).value;
    assert RepliesDistinct(db.comments) && CommentIdsBelow(db.comments, db.next);
    DeleteReplyCutsOne(db, comment, reply);
    DistinctIdsCut(rs, k);
    RemoveReplyKeeps(rs, reply);
    ReplaceCommentKeeps(db.posts, db.comments, db.next, comment, cm.(replies := RemoveReply(rs, reply)));
  }

  lemma DeleteReplyAsWrittenKeepsConsistent(db: Db, comment: CommentId, reply: ReplyId)
    requires Consistent(db) && DeleteReplyAsWritten(db, comment, reply).Ok?
    ensures Consistent(DeleteReplyAsWritten(db, comment, reply).db)
  {
    var cm := db.comments[comment];
    ReplaceCommentKeeps(db.posts, db.comments, db.next, comment, cm.(replies := []));
  }

  lemma LikeCommentKeepsConsistent(db: Db, comment: CommentId, user: UserId)
    requires Consistent(db) && LikeComment(db, comment, user).Ok?
    ensures Consistent(LikeComment(db, comment, user).db)
  {
    var cm := db.comments[comment];
    assert RepliesDistinct(db.comments) && CommentIdsBelow(db.comments, db.next);
    ReplaceCommentKeeps(db.posts, db.comments, db.next, comment, cm.(likes := cm.likes + [user]));
  }

  lemma DislikeCommentKeepsConsistent(db: Db, comment: CommentId, user: UserId)
    requires Consistent(db) && DislikeComment(db, comment, user).Ok?
    ensures Consistent(DislikeComment(db, comment, user).db)
  {
    var cm := db.comments[comment];
    assert RepliesDistinct(db.comments) && CommentIdsBelow(db.comments, db.next);
    ReplaceCommentKeeps(db.posts, db.comments, db.next, comment, cm.(likes := Without(cm.likes, user)));
  }

  lemma LikeReplyKeepsConsistent(db: Db, comment: CommentId, reply: ReplyId, user: UserId)
    requires Consistent(db) && LikeReply(db, comment, reply, user).Ok?
    ensures Consistent(LikeReply(db, comment, reply, user).db)
  {
    var cm := db.comments[comment];
    var k := FindReply(cm.replies, reply).value;
    var x := cm.replies[k].(likes := cm.replies[k].likes + [user]);
    assert RepliesDistinct(db.comments) && CommentIdsBelow(db.comments, db.next);
    ReplyEditKeepsBounds(cm.replies, k, x, db.next);
    ReplaceCommentKeeps(db.posts, db.comments, db.next, comment, cm.(replies := cm.replies[k := x]));
  }

  lemma DislikeReplyKeepsConsistent(db: Db, comment: CommentId, reply: ReplyId, user: UserId)
    requires Consistent(db) && DislikeReply(db, comment, reply, user).Ok?
    ensures Consistent(DislikeReply(db, comment, reply, user).db)
  {
    var cm := db.comments[comment];
    var k := FindReply(cm.replies, reply).value;
    var x := cm.replies[k].(likes := Without(cm.replies[k].likes, user));
    assert RepliesDistinct(db.comments) && CommentIdsBelow(db.comments, db.next);
    ReplyEditKeepsBounds(cm.replies, k, x, db.next);
    ReplaceCommentKeeps(db.posts, db.comments, db.next, comment, cm.(replies := cm.replies[k := x]));
  }
}
