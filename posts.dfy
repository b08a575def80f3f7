/** Posts (controllers/postController.js): creation with and without images, caption
    update, deletion with its owner index and its comments, and the like toggle. */
module Posts {
  import opened Model

  /** `process.env.URL + "/uploads/" + filename`; the base URL is a parameter. */
  function FileUrl(baseUrl: string, filename: string): (r: string)
    ensures |r| == |baseUrl| + |"/uploads/"| + |filename|
    ensures r[..|baseUrl|] == baseUrl && r[|baseUrl|..|r| - |filename|] == "/uploads/"
    ensures r[|r| - |filename|..] == filename
  {
    baseUrl + "/uploads/" + filename
  }

  /** `files.map(file => generateFileUrl(file.filename))`. */
  function ImageUrls(baseUrl: string, files: seq<string>): (r: seq<string>)
    ensures |r| == |files|
    ensures forall i :: 0 <= i < |files| ==> r[i] == FileUrl(baseUrl, files[i])
  {
    seq(|files|, i requires 0 <= i < |files| => FileUrl(baseUrl, files[i]))
  }

  /** Creates a post owned by `user` under the next fresh id and appends that id to the end
      of the user's `posts`. createPostController, which sets no image, is
      `CreatePost(db, user, caption, [])`; createPostWithImageController passes the file URLs. */
  function CreatePost(db: Db, user: UserId, caption: string, image: seq<string>): (r: Outcome)
    ensures r.Err? <==> user !in db.users
    ensures r.Err? ==> r.error == NotFound(UserDoc)
    ensures r.Ok? ==>
      r.db.posts.Keys == db.posts.Keys + {db.next} &&
      r.db.posts[db.next] == Post(user, caption, image, [], []) &&
      (forall p :: p in db.posts && p != db.next ==> r.db.posts[p] == db.posts[p]) &&
      r.db.users.Keys == db.users.Keys &&
      r.db.users[user] == db.users[user].(posts := db.users[user].posts + [db.next]) &&
      (forall u :: u in db.users && u != user ==> r.db.users[u] == db.users[u]) &&
      r.db.comments == db.comments && r.db.stories == db.stories && r.db.next == db.next + 1
  {
    if user !in db.users then Err(NotFound(UserDoc))
    else
      var id := db.next;
      var owner := db.users[user];
      Ok(db.(posts := db.posts[id := Post(user, caption, image, [], [])],
             users := db.users[user := owner.(posts := owner.posts + [id])],
             next := id + 1))
  }

  /** createPostWithImageController: one image entry per uploaded file, in file order. */
  function CreatePostWithImage(db: Db, user: UserId, caption: string, baseUrl: string, files: seq<string>): (r: Outcome)
    ensures r.Err? <==> user !in db.users
    ensures r.Ok? ==> db.next in r.db.posts &&
                      var image := r.db.posts[db.next].image;
                      |image| == |files| && forall i :: 0 <= i < |files| ==> image[i] == FileUrl(baseUrl, files[i])
    ensures r.Ok? ==> r.db.posts[db.next].user == user && r.db.posts[db.next].caption == caption &&
                      r.db.posts[db.next].likes == [] && r.db.posts[db.next].comments == [] &&
                      user in r.db.users && r.db.users[user].posts == db.users[user].posts + [db.next]
  {
    CreatePost(db, user, caption, ImageUrls(baseUrl, files))
  }

  /** Replaces the caption; nothing else in the store changes. */
  function UpdatePost(db: Db, post: PostId, caption: string): (r: Outcome)
    ensures r.Err? <==> post !in db.posts
    ensures r.Err? ==> r.error == NotFound(PostDoc)
    ensures r.Ok? ==>
      r.db == db.(posts := r.db.posts) && r.db.posts.Keys == db.posts.Keys &&
      r.db.posts[post] == db.posts[post].(caption := caption) &&
      forall p :: p in db.posts && p != post ==> r.db.posts[p] == db.posts[p]
  {
    if post !in db.posts then Err(NotFound(PostDoc))
    else Ok(db.(posts := db.posts[post := db.posts[post].(caption := caption)]))
  }

  /** getPostsController: `Post.find({ user })` once the user is known to exist. */
  function GetPosts(db: Db, user: UserId): (r: Result<map<PostId, Post>>)
    ensures r.Failure? <==> user !in db.users
    ensures r.Failure? ==> r.error == NotFound(UserDoc)
    ensures r.Success? ==>
      (forall p :: p in r.value <==> p in db.posts && db.posts[p].user == user) &&
      (forall p :: p in r.value ==> r.value[p] == db.posts[p])
  {
    if user !in db.users then Failure(NotFound(UserDoc))
    else Success(PostsBy(db.posts, user))
  }

  /** The posts whose author is `user`, under their ids. */
  function PostsBy(posts: map<PostId, Post>, user: UserId): (r: map<PostId, Post>)
    ensures forall p :: p in r <==> p in posts && posts[p].user == user
    ensures forall p :: p in r ==> r[p] == posts[p]
  {
    map p | p in posts && posts[p].user == user :: posts[p]
  }

  /** The comments whose parent is not `post`. */
  function DropCommentsUnder(comments: map<CommentId, Comment>, post: PostId): (r: map<CommentId, Comment>)
    ensures forall c :: c in r <==> c in comments && comments[c].post != post
    ensures forall c :: c in r ==> r[c] == comments[c]
  {
    map c | c in comments && comments[c].post != post :: comments[c]
  }

  /** Removes the post id from its owner's `posts`, deletes every comment whose parent is
      the post, and deletes the post. */
  function DeletePost(db: Db, post: PostId): (r: Outcome)
    ensures post !in db.posts ==> r == Err(NotFound(PostDoc))
    ensures post in db.posts && db.posts[post].user !in db.users ==> r == Err(NotFound(UserDoc))
    ensures r.Ok? <==> post in db.posts && db.posts[post].user in db.users
    ensures r.Ok? ==>
      var owner := db.posts[post].user;
      r.db.posts.Keys == db.posts.Keys - {post} &&
      (forall p :: p in r.db.posts ==> r.db.posts[p] == db.posts[p]) &&
      r.db.users.Keys == db.users.Keys &&
      r.db.users[owner] == db.users[owner].(posts := Without(db.users[owner].posts, post)) &&
      post !in r.db.users[owner].posts &&
      (forall u :: u in db.users && u != owner ==> r.db.users[u] == db.users[u]) &&
      (forall c :: c in r.db.comments <==> c in db.comments && db.comments[c].post != post) &&
      (forall c :: c in r.db.comments ==> r.db.comments[c] == db.comments[c]) &&
      r.db.stories == db.stories && r.db.next == db.next
  {
    if post !in db.posts then Err(NotFound(PostDoc))
    else
      var owner := db.posts[post].user;
      if owner !in db.users then Err(NotFound(UserDoc))
      else
        var u := db.users[owner];
        Ok(db.(users := db.users[owner := u.(posts := Without(u.posts, post))],
               comments := DropCommentsUnder(db.comments, post),
               posts := db.posts - {post}))
  }

  /** Pushes `user` onto the post's `likes`; refused if they already like it. */
  function LikePost(db: Db, post: PostId, user: UserId): (r: Outcome)
    ensures post !in db.posts ==> r == Err(NotFound(PostDoc))
    ensures post in db.posts && user !in db.users ==> r == Err(NotFound(UserDoc))
    ensures post in db.posts && user in db.users ==>
      (r == Err(AlreadyLiked) <==> user in db.posts[post].likes)
    ensures r.Ok? <==> post in db.posts && user in db.users && user !in db.posts[post].likes
    ensures r.Ok? ==>
      r.db == db.(posts := db.posts[post := db.posts[post].(likes := db.posts[post].likes + [user])])
  {
    if post !in db.posts then Err(NotFound(PostDoc))
    else if user !in db.users then Err(NotFound(UserDoc))
    else if user in db.posts[post].likes then Err(AlreadyLiked)
    else Ok(db.(posts := db.posts[post := db.posts[post].(likes := db.posts[post].likes + [user])]))
  }

  /** Pulls `user` from the post's `likes`; refused if they do not like it. */
  function DislikePost(db: Db, post: PostId, user: UserId): (r: Outcome)
    ensures post !in db.posts ==> r == Err(NotFound(PostDoc))
    ensures post in db.posts && user !in db.users ==> r == Err(NotFound(UserDoc))
    ensures post in db.posts && user in db.users ==>
      (r == Err(NotLiked) <==> user !in db.posts[post].likes)
    ensures r.Ok? <==> post in db.posts && user in db.users && user in db.posts[post].likes
    ensures r.Ok? ==>
      r.db == db.(posts := db.posts[post := db.posts[post].(likes := Without(db.posts[post].likes, user))]) &&
      user !in r.db.posts[post].likes
  {
    if post !in db.posts then Err(NotFound(PostDoc))
    else if user !in db.users then Err(NotFound(UserDoc))
    else if user !in db.posts[post].likes then Err(NotLiked)
    else Ok(db.(posts := db.posts[post := db.posts[post].(likes := Without(db.posts[post].likes, user))]))
  }

  // ---------------------------------------------------------------------------
  // Properties

  /** Dislike undoes Like exactly. */
  lemma LikeThenDislike(db: Db, post: PostId, user: UserId)
    requires LikePost(db, post, user).Ok?
    ensures DislikePost(LikePost(db, post, user).db, post, user) == Ok(db)
  {
    PushThenPull(db.posts[post].likes, user);
    assert db.posts[post := db.posts[post]] == db.posts;
  }

  /** Like is a strict toggle, and a duplicate-free `likes` stays duplicate-free. */
  lemma LikePostStrict(db: Db, post: PostId, user: UserId)
    requires LikePost(db, post, user).Ok?
    ensures LikePost(LikePost(db, post, user).db, post, user) == Err(AlreadyLiked)
    ensures NoDup(db.posts[post].likes) ==> NoDup(LikePost(db, post, user).db.posts[post].likes)
  {
  }

  /** In a consistent store the posts found by owner are exactly those in the owner's index. */
  lemma GetPostsMatchesIndex(db: Db, user: UserId)
    requires PostsIndexed(db.users, db.posts) && user in db.users
    ensures forall p :: p in GetPosts(db, user).value <==> p in db.users[user].posts
  {
  }

  /** A new post id is one the store has never handed out: creating never overwrites an
      existing post, and the id is in no user's index yet. */
  lemma CreatePostIsFresh(db: Db, user: UserId, caption: string, image: seq<string>)
    requires Consistent(db) && CreatePost(db, user, caption, image).Ok?
    ensures db.next !in db.posts
    ensures forall u :: u in db.users ==> db.next !in db.users[u].posts
    ensures CreatePost(db, user, caption, image).db.users[user].posts == db.users[user].posts + [db.next]
  {
    assert PostIdsBelow(db.posts, db.next) && PostsIndexed(db.users, db.posts);
  }

  /** Adding a post with no comments under a fresh id, and appending the id to its owner's
      index, keeps the post invariants. */
  lemma {:induction false} AddPostKeeps(users: map<UserId, User>, posts: map<PostId, Post>,
                                        comments: map<CommentId, Comment>, next: nat, user: UserId, p: Post)
    requires PostIdsBelow(posts, next) && ListingAgrees(posts, comments) && PostsIndexed(users, posts)
    requires ListingsLive(posts, comments)
    requires user in users && p.user == user && p.comments == []
    requires forall u :: u in users ==> next !in users[u].posts
    ensures var posts' := posts[next := p];
      var users' := users[user := users[user].(posts := users[user].posts + [next])];
      PostIdsBelow(posts', next + 1) && ListingAgrees(posts', comments) && PostsIndexed(users', posts') &&
      ListingsLive(posts', comments)
  {
    var posts' := posts[next := p];
    var users' := users[user := users[user].(posts := users[user].posts + [next])];
    forall q, c | q in posts' && c in posts'[q].comments ensures c < next + 1 && c in comments {
      assert q != next && c in posts[q].comments;
    }
    forall q, c | q in posts' && c in posts'[q].comments && c in comments ensures comments[c].post == q {
      assert q != next && c in posts[q].comments;
    }
    forall u, q | u in users' && q in users'[u].posts ensures q in posts' && posts'[q].user == u {
      if q != next {
        assert q in users[u].posts;
      }
    }
    forall q | q in posts' ensures posts'[q].user in users' && q in users'[posts'[q].user].posts {
      if q != next {
        assert q in users[posts[q].user].posts;
      }
    }
  }

  lemma CreatePostKeepsConsistent(db: Db, user: UserId, caption: string, image: seq<string>)
    requires Consistent(db) && CreatePost(db, user, caption, image).Ok?
    ensures Consistent(CreatePost(db, user, caption, image).db)
  {
    var p := Post(user, caption, image, [], []);
    var users' := db.users[user := db.users[user].(posts := db.users[user].posts + [db.next])];
    var posts' := db.posts[db.next := p];
    assert CreatePost(db, user, caption, image).db == db.(posts := posts', users := users', next := db.next + 1);
    CreatePostIsFresh(db, user, caption, image);
    AddPostKeepsConsistent(db, user, p);
  }

  /** Storing a comment-less post of an existing user under the fresh id, indexed by its
      owner, keeps the store consistent. */
  lemma AddPostKeepsConsistent(db: Db, user: UserId, p: Post)
    requires Consistent(db) && user in db.users && p.user == user && p.comments == []
    requires forall u :: u in db.users ==> db.next !in db.users[u].posts
    ensures Consistent(db.(posts := db.posts[db.next := p],
                           users := db.users[user := db.users[user].(posts := db.users[user].posts + [db.next])],
                           next := db.next + 1))
  {
    var users' := db.users[user := db.users[user].(posts := db.users[user].posts + [db.next])];
    AddPostKeeps(db.users, db.posts, db.comments, db.next, user, p);
    FollowGraphFrame(db.users, users');
    CommentIdsBelowGrows(db.comments, db.next, db.next + 1);
  }

  lemma UpdatePostKeepsConsistent(db: Db, post: PostId, caption: string)
    requires Consistent(db) && UpdatePost(db, post, caption).Ok?
    ensures Consistent(UpdatePost(db, post, caption).db)
  {
    var db' := UpdatePost(db, post, caption).db;
    PostsFieldFrame(db.users, db.posts, db'.posts, db.comments, db.next);
  }

  /** Removing a post from the posts map and from its owner's index keeps PostsIndexed. */
  lemma {:induction false} RemovePostKeepsIndex(users: map<UserId, User>, posts: map<PostId, Post>, post: PostId)
    requires PostsIndexed(users, posts) && post in posts && posts[post].user in users
    ensures var owner := posts[post].user;
      PostsIndexed(users[owner := users[owner].(posts := Without(users[owner].posts, post))], posts - {post})
  {
    var owner := posts[post].user;
    var users' := users[owner := users[owner].(posts := Without(users[owner].posts, post))];
    var posts' := posts - {post};
    forall u, q | u in users' && q in users'[u].posts ensures q in posts' && posts'[q].user == u {
      assert q in users[u].posts;
    }
    forall q | q in posts' ensures posts'[q].user in users' && q in users'[posts'[q].user].posts {
      assert q in users[posts[q].user].posts;
    }
  }

  lemma DeletePostKeepsConsistent(db: Db, post: PostId)
    requires Consistent(db) && DeletePost(db, post).Ok?
    ensures Consistent(DeletePost(db, post).db)
  {
    var db' := DeletePost(db, post).db;
    var owner := db.posts[post].user;
    assert db'.users == db.users[owner := db.users[owner].(posts := Without(db.users[owner].posts, post))];
    assert db'.posts == db.posts - {post};
    assert db'.comments == DropCommentsUnder(db.comments, post);
    DropPostKeepsContent(db.posts, db.comments, db.next, post);
    RemovePostKeepsIndex(db.users, db.posts, post);
    FollowGraphFrame(db.users, db'.users);
  }

  /** Deleting a post together with the comments under it keeps the content invariants. */
  lemma {:induction false} DropPostKeepsContent(posts: map<PostId, Post>, comments: map<CommentId, Comment>,
                                                next: nat, post: PostId)
    requires PostIdsBelow(posts, next) && CommentIdsBelow(comments, next)
    requires ListingAgrees(posts, comments) && RepliesDistinct(comments) && ListingsLive(posts, comments)
    ensures var posts', comments' := posts - {post}, DropCommentsUnder(comments, post);
      PostIdsBelow(posts', next) && CommentIdsBelow(comments', next) &&
      ListingAgrees(posts', comments') && RepliesDistinct(comments') && ListingsLive(posts', comments')
  {
    var posts', comments' := posts - {post}, DropCommentsUnder(comments, post);
    ContentSubmaps(posts, comments, posts', comments', next);
    forall q, c | q in posts' && c in posts'[q].comments ensures c in comments' {
      assert c in posts[q].comments && comments[c].post == q;
    }
  }

  lemma LikePostKeepsConsistent(db: Db, post: PostId, user: UserId)
    requires Consistent(db) && LikePost(db, post, user).Ok?
    ensures Consistent(LikePost(db, post, user).db)
  {
    var db' := LikePost(db, post, user).db;
    PostsFieldFrame(db.users, db.posts, db'.posts, db.comments, db.next);
  }

  lemma DislikePostKeepsConsistent(db: Db, post: PostId, user: UserId)
    requires Consistent(db) && DislikePost(db, post, user).Ok?
    ensures Consistent(DislikePost(db, post, user).db)
  {
    var db' := DislikePost(db, post, user).db;
    PostsFieldFrame(db.users, db.posts, db'.posts, db.comments, db.next);
  }
}
