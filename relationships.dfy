/** The follow/block graph over users (followUserController, unfollowUserController,
    blockUserController, unblockUserController in controllers/userController.js).
    Each handler is a transition on the store that either fails with one typed error,
    before anything is written, or rewrites the two user documents it loaded. */
module Relationships {
  import opened Model

  /** Only the users map changes, it keeps its keys, and only the users in `touched` differ. */
  ghost predicate OnlyUsersChanged(db: Db, db': Db, touched: set<UserId>) {
    db'.posts == db.posts && db'.comments == db.comments && db'.stories == db.stories &&
    db'.next == db.next && db'.users.Keys == db.users.Keys &&
    forall u :: u in db.users && u !in touched ==> db'.users[u] == db.users[u]
  }

  /** The checks shared by the four handlers: no self-edge, and both users exist. */
  function CheckPair(db: Db, actor: UserId, target: UserId): (r: Option<Error>)
    ensures r == None <==> actor != target && actor in db.users && target in db.users
    ensures r != None ==> r == Some(if actor == target then SelfReference else NotFound(UserDoc))
  {
    if actor == target then Some(SelfReference)
    else if target !in db.users || actor !in db.users then Some(NotFound(UserDoc))
    else None
  }

  /** `actor` follows `target`: refused while `actor` blocks `target` or already follows them. */
  function Follow(db: Db, actor: UserId, target: UserId): (r: Outcome)
    ensures CheckPair(db, actor, target).Some? ==> r == Err(CheckPair(db, actor, target).value)
    ensures CheckPair(db, actor, target).None? ==>
      (r == Err(Blocked) <==> target in db.users[actor].blockList) &&
      (r == Err(AlreadyFollowing) <==> target !in db.users[actor].blockList && target in db.users[actor].following)
    ensures r.Ok? <==>
      CheckPair(db, actor, target).None? &&
      target !in db.users[actor].blockList && target !in db.users[actor].following
    ensures r.Ok? ==>
      OnlyUsersChanged(db, r.db, {actor, target}) &&
      r.db.users[actor] == db.users[actor].(following := db.users[actor].following + [target]) &&
      r.db.users[target] == db.users[target].(followers := db.users[target].followers + [actor])
  {
    match CheckPair(db, actor, target)
    case Some(e) => Err(e)
    case None =>
      var me := db.users[actor];
      var them := db.users[target];
      if target in me.blockList then Err(Blocked)
      else if target in me.following then Err(AlreadyFollowing)
      else
        Ok(db.(users := db.users[actor := me.(following := me.following + [target])]
                                [target := them.(followers := them.followers + [actor])]))
  }

  /** `actor` stops following `target`: refused unless `actor` follows `target`. */
  function Unfollow(db: Db, actor: UserId, target: UserId): (r: Outcome)
    ensures CheckPair(db, actor, target).Some? ==> r == Err(CheckPair(db, actor, target).value)
    ensures CheckPair(db, actor, target).None? ==>
      (r == Err(NotFollowing) <==> target !in db.users[actor].following)
    ensures r.Ok? <==> CheckPair(db, actor, target).None? && target in db.users[actor].following
    ensures r.Ok? ==>
      OnlyUsersChanged(db, r.db, {actor, target}) &&
      r.db.users[actor] == db.users[actor].(following := Without(db.users[actor].following, target)) &&
      r.db.users[target] == db.users[target].(followers := Without(db.users[target].followers, actor)) &&
      target !in r.db.users[actor].following && actor !in r.db.users[target].followers
  {
    match CheckPair(db, actor, target)
    case Some(e) => Err(e)
    case None =>
      var me := db.users[actor];
      var them := db.users[target];
      if target !in me.following then Err(NotFollowing)
      else
        Ok(db.(users := db.users[actor := me.(following := Without(me.following, target))]
                                [target := them.(followers := Without(them.followers, actor))]))
  }

  /** `actor` blocks `target`: the block is recorded and the edge actor -> target is cut on
      both of its ends. The reverse edge target -> actor is left as it was. */
  function Block(db: Db, actor: UserId, target: UserId): (r: Outcome)
    ensures CheckPair(db, actor, target).Some? ==> r == Err(CheckPair(db, actor, target).value)
    ensures CheckPair(db, actor, target).None? ==>
      (r == Err(AlreadyBlocked) <==> target in db.users[actor].blockList)
    ensures r.Ok? <==> CheckPair(db, actor, target).None? && target !in db.users[actor].blockList
    ensures r.Ok? ==>
      OnlyUsersChanged(db, r.db, {actor, target}) &&
      r.db.users[actor] == db.users[actor].(
        blockList := db.users[actor].blockList + [target],
        following := Without(db.users[actor].following, target)) &&
      r.db.users[target] == db.users[target].(followers := Without(db.users[target].followers, actor)) &&
      target !in r.db.users[actor].following && actor !in r.db.users[target].followers
  {
    match CheckPair(db, actor, target)
    case Some(e) => Err(e)
    case None =>
      var me := db.users[actor];
      var them := db.users[target];
      if target in me.blockList then Err(AlreadyBlocked)
      else
        Ok(db.(users := db.users[actor := me.(blockList := me.blockList + [target],
                                              following := Without(me.following, target))]
                                [target := them.(followers := Without(them.followers, actor))]))
  }

  /** `actor` unblocks `target`: only `actor`'s block list changes; no follow edge comes back. */
  function Unblock(db: Db, actor: UserId, target: UserId): (r: Outcome)
    ensures CheckPair(db, actor, target).Some? ==> r == Err(CheckPair(db, actor, target).value)
    ensures CheckPair(db, actor, target).None? ==>
      (r == Err(NotBlocked) <==> target !in db.users[actor].blockList)
    ensures r.Ok? <==> CheckPair(db, actor, target).None? && target in db.users[actor].blockList
    ensures r.Ok? ==>
      OnlyUsersChanged(db, r.db, {actor}) &&
      r.db.users[actor] == db.users[actor].(blockList := Without(db.users[actor].blockList, target)) &&
      target !in r.db.users[actor].blockList
  {
    match CheckPair(db, actor, target)
    case Some(e) => Err(e)
    case None =>
      var me := db.users[actor];
      if target !in me.blockList then Err(NotBlocked)
      else Ok(db.(users := db.users[actor := me.(blockList := Without(me.blockList, target))]))
  }

  // ---------------------------------------------------------------------------
  // Properties

  /** Follow is a strict toggle: the second of two identical calls fails and changes nothing. */
  lemma FollowTwiceFails(db: Db, actor: UserId, target: UserId)
    requires Follow(db, actor, target).Ok?
    ensures Follow(Follow(db, actor, target).db, actor, target) == Err(AlreadyFollowing)
  {
  }

  /** Unfollow undoes Follow exactly, given that both ends of every edge are recorded. */
  lemma FollowThenUnfollow(db: Db, actor: UserId, target: UserId)
    requires FollowGraph(db.users)
    requires Follow(db, actor, target).Ok?
    ensures Unfollow(Follow(db, actor, target).db, actor, target) == Ok(db)
  {
    var me, them := db.users[actor], db.users[target];
    assert actor !in them.followers by {
      assert FollowersMirrored(db.users);
    }
    PushThenPull(me.following, target);
    PushThenPull(them.followers, actor);
    var us1 := db.users[actor := me.(following := me.following + [target])]
                       [target := them.(followers := them.followers + [actor])];
    assert Follow(db, actor, target) == Ok(db.(users := us1));
    assert us1[actor := me][target := them] == db.users;
  }

  /** Block is one-directional: when `target` follows `actor`, it still does after `actor`
      blocks `target`, on both ends of that edge. */
  lemma BlockKeepsReverseEdge(db: Db, actor: UserId, target: UserId)
    requires Block(db, actor, target).Ok?
    requires actor in db.users[target].following && target in db.users[actor].followers
    ensures actor in Block(db, actor, target).db.users[target].following
    ensures target in Block(db, actor, target).db.users[actor].followers
  {
  }

  /** After Block and then Unblock, no follow edge actor -> target is left, and Follow is no
      longer refused by the block check: it succeeds. */
  lemma BlockUnblockThenFollow(db: Db, actor: UserId, target: UserId)
    requires Block(db, actor, target).Ok?
    ensures Unblock(Block(db, actor, target).db, actor, target).Ok?
    ensures var db2 := Unblock(Block(db, actor, target).db, actor, target).db;
      target !in db2.users[actor].following && actor !in db2.users[target].followers &&
      Follow(db2, actor, target).Ok?
  {
    var db1 := Block(db, actor, target).db;
    assert target in db1.users[actor].blockList;
  }

  /** Follow is refused while a block is in place, whatever the follow edges are. */
  lemma BlockedMeansNoFollow(db: Db, actor: UserId, target: UserId)
    requires Block(db, actor, target).Ok?
    ensures Follow(Block(db, actor, target).db, actor, target) == Err(Blocked)
  {
  }

  // The four handlers keep the store consistent.

  lemma FollowKeepsConsistent(db: Db, actor: UserId, target: UserId)
    requires Consistent(db) && Follow(db, actor, target).Ok?
    ensures Consistent(Follow(db, actor, target).db)
  {
    var db' := Follow(db, actor, target).db;
    FollowRewritesEdge(db, actor, target);
    EdgeRewriteKeepsGraph(db.users, db'.users, actor, target, true);
    EdgeChangeKeepsContent(db, db');
  }

  lemma FollowRewritesEdge(db: Db, actor: UserId, target: UserId)
    requires Follow(db, actor, target).Ok?
    ensures EdgeRewrite(db.users, Follow(db, actor, target).db.users, actor, target, true)
  {
  }

  lemma UnfollowKeepsConsistent(db: Db, actor: UserId, target: UserId)
    requires Consistent(db) && Unfollow(db, actor, target).Ok?
    ensures Consistent(Unfollow(db, actor, target).db)
  {
    var db' := Unfollow(db, actor, target).db;
    UnfollowRewritesEdge(db, actor, target);
    EdgeRewriteKeepsGraph(db.users, db'.users, actor, target, false);
    EdgeChangeKeepsContent(db, db');
  }

  lemma UnfollowRewritesEdge(db: Db, actor: UserId, target: UserId)
    requires Unfollow(db, actor, target).Ok?
    ensures EdgeRewrite(db.users, Unfollow(db, actor, target).db.users, actor, target, false)
  {
  }

  lemma BlockKeepsConsistent(db: Db, actor: UserId, target: UserId)
    requires Consistent(db) && Block(db, actor, target).Ok?
    ensures Consistent(Block(db, actor, target).db)
  {
    var db' := Block(db, actor, target).db;
    BlockRewritesEdge(db, actor, target);
    EdgeRewriteKeepsGraph(db.users, db'.users, actor, target, false);
    EdgeChangeKeepsContent(db, db');
  }

  lemma BlockRewritesEdge(db: Db, actor: UserId, target: UserId)
    requires Block(db, actor, target).Ok?
    ensures EdgeRewrite(db.users, Block(db, actor, target).db.users, actor, target, false)
  {
  }

  lemma UnblockKeepsConsistent(db: Db, actor: UserId, target: UserId)
    requires Consistent(db) && Unblock(db, actor, target).Ok?
    ensures Consistent(Unblock(db, actor, target).db)
  {
    var db' := Unblock(db, actor, target).db;
    UnblockKeepsGraph(db, actor, target);
    EdgeChangeKeepsContent(db, db');
  }

  lemma UnblockKeepsGraph(db: Db, actor: UserId, target: UserId)
    requires FollowGraph(db.users) && Unblock(db, actor, target).Ok?
    ensures FollowGraph(Unblock(db, actor, target).db.users)
  {
    var us' := Unblock(db, actor, target).db.users;
    assert forall a :: a in db.users ==>
      us'[a].following == db.users[a].following && us'[a].followers == db.users[a].followers;
  }

  /** `us'` has the users of `us`, and its follow lists are those of `us` with the one edge
      actor -> target present (`add`) or absent (not `add`) on both of its ends; block
      lists are only extended by `target`, or shrink. */
  ghost predicate EdgeRewrite(us: map<UserId, User>, us': map<UserId, User>, actor: UserId, target: UserId, add: bool) {
    actor != target && actor in us && target in us && us'.Keys == us.Keys &&
    (forall u :: u in us && u != actor && u != target ==> us'[u] == us[u]) &&
    us'[actor].followers == us[actor].followers &&
    us'[target].following == us[target].following &&
    us'[target].blockList == us[target].blockList &&
    (forall b :: b in us'[actor].blockList ==> b in us[actor].blockList || b == target) &&
    (forall b :: b in us'[actor].following <==> if b == target then add else b in us[actor].following) &&
    (forall b :: b in us'[target].followers <==> if b == actor then add else b in us[target].followers)
  }

  lemma EdgeRewriteKeepsGraph(us: map<UserId, User>, us': map<UserId, User>, actor: UserId, target: UserId, add: bool)
    requires FollowGraph(us) && EdgeRewrite(us, us', actor, target, add)
    ensures FollowGraph(us')
  {
    EdgeRewriteNoSelf(us, us', actor, target, add);
    EdgeRewriteFollowing(us, us', actor, target, add);
    EdgeRewriteFollowers(us, us', actor, target, add);
  }

  lemma {:induction false} EdgeRewriteNoSelf(us: map<UserId, User>, us': map<UserId, User>, actor: UserId, target: UserId, add: bool)
    requires FollowGraph(us) && EdgeRewrite(us, us', actor, target, add)
    ensures NoSelfEdges(us')
  {
    forall a | a in us'
      ensures a !in us'[a].following && a !in us'[a].followers && a !in us'[a].blockList
    {
      if a != actor && a != target {
        assert us'[a] == us[a];
      }
    }
  }

  lemma {:induction false} EdgeRewriteFollowing(us: map<UserId, User>, us': map<UserId, User>, actor: UserId, target: UserId, add: bool)
    requires FollowGraph(us) && EdgeRewrite(us, us', actor, target, add)
    ensures FollowingMirrored(us')
  {
    forall a, b | a in us' && b in us'[a].following
      ensures b in us' && a in us'[b].followers
    {
      if a != actor || b != target {
        assert b in us[a].following by {
          if a != actor && a != target {
            assert us'[a] == us[a];
          }
        }
        assert a in us[b].followers;
        if b != actor && b != target {
          assert us'[b] == us[b];
        }
      }
    }
  }

  lemma {:induction false} EdgeRewriteFollowers(us: map<UserId, User>, us': map<UserId, User>, actor: UserId, target: UserId, add: bool)
    requires FollowGraph(us) && EdgeRewrite(us, us', actor, target, add)
    ensures FollowersMirrored(us')
  {
    forall a, b | a in us' && b in us'[a].followers
      ensures b in us' && a in us'[b].following
    {
      if a != target || b != actor {
        assert b in us[a].followers by {
          if a != actor && a != target {
            assert us'[a] == us[a];
          }
        }
        assert a in us[b].following;
        if b != actor && b != target {
          assert us'[b] == us[b];
        }
      }
    }
  }

  /** Editing only the edge lists of users leaves every content invariant as it was. */
  lemma EdgeChangeKeepsContent(db: Db, db': Db)
    requires Consistent(db) && FollowGraph(db'.users)
    requires db'.posts == db.posts && db'.comments == db.comments && db'.next == db.next
    requires db'.users.Keys == db.users.Keys
    requires forall u :: u in db.users ==> db'.users[u].posts == db.users[u].posts
    ensures Consistent(db')
  {
    PostsIndexedUsersFrame(db.users, db'.users, db.posts);
  }
}
