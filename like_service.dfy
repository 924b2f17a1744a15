/**
 * Liking and unliking posts, and the like queries
 * (backend/services/likes/like_service.py).
 */
module LikeService {
  import opened Common
  import opened Models
  import opened Store

  function LikeIndex(ls: seq<Like>, postId: int, user: UserId): Option<nat> {
    IndexOf(ls, (l: Like) => l.postId == postId && l.userId == user)
  }

  /** A like row for (post, user) exists. */
  predicate Liked(ls: seq<Like>, postId: int, user: UserId) {
    exists k :: 0 <= k < |ls| && ls[k].postId == postId && ls[k].userId == user
  }

  /** `db.query(Like).filter(Like.post_id == post_id).count()` */
  function LikeCount(ls: seq<Like>, postId: int): (n: nat)
    ensures n <= |ls|
    ensures n == 0 <==> forall k :: 0 <= k < |ls| ==> ls[k].postId != postId
    decreases |ls|
  {
    if ls == [] then 0
    else
      var init := ls[..|ls| - 1];
      assert forall k :: 0 <= k < |init| ==> init[k] == ls[k];
      LikeCount(init, postId) + (if ls[|ls| - 1].postId == postId then 1 else 0)
  }

  /** The users who like a post. */
  ghost function Likers(ls: seq<Like>, postId: int): set<UserId> {
    set k | 0 <= k < |ls| && ls[k].postId == postId :: ls[k].userId
  }

  /** With at most one like per (post, user), the like count is the number of users who like the post. */
  lemma {:induction false} LikeCountIsLikers(ls: seq<Like>, postId: int)
    requires UniqueLikes(ls)
    ensures LikeCount(ls, postId) == |Likers(ls, postId)|
    decreases |ls|
  {
    if ls != [] {
      var init := ls[..|ls| - 1];
      var last := ls[|ls| - 1];
      assert forall k :: 0 <= k < |init| ==> init[k] == ls[k];
      LikeCountIsLikers(init, postId);
      var all, before := Likers(ls, postId), Likers(init, postId);
      forall u | u in all ensures u in before || (last.postId == postId && u == last.userId) {
        var k :| 0 <= k < |ls| && ls[k].postId == postId && ls[k].userId == u;
        if k < |init| {
          assert init[k] == ls[k];
        }
      }
      forall u | u in before ensures u in all && (last.postId != postId || u != last.userId) {
        var k :| 0 <= k < |init| && init[k].postId == postId && init[k].userId == u;
        assert ls[k] == init[k];
      }
      if last.postId == postId {
        assert last.userId in all;
        assert all == before + {last.userId};
      } else {
        assert all == before;
      }
    }
  }

  lemma {:induction false} LikeCountConcat(a: seq<Like>, b: seq<Like>, postId: int)
    ensures LikeCount(a + b, postId) == LikeCount(a, postId) + LikeCount(b, postId)
    decreases |b|
  {
    if b != [] {
      var b' := b[..|b| - 1];
      assert (a + b)[..|a + b| - 1] == a + b';
      assert (a + b)[|a + b| - 1] == b[|b| - 1];
      LikeCountConcat(a, b', postId);
    } else {
      assert a + b == a;
    }
  }

  /** The like table after `toggle_like`: the first (post, user) like removed, or a new one added. */
  function ToggledLikes(ls: seq<Like>, postId: int, user: UserId, nextId: int): seq<Like> {
    match LikeIndex(ls, postId, user)
    case Some(i) => RemoveAt(ls, i)
    case None => ls + [Like(nextId, postId, user)]
  }

  /** Toggling changes the count of the toggled post by one, and no other post's count. */
  lemma ToggleCount(ls: seq<Like>, postId: int, user: UserId, nextId: int, q: int)
    ensures LikeCount(ToggledLikes(ls, postId, user, nextId), q)
         == if q != postId then LikeCount(ls, q)
            else if Liked(ls, postId, user) then LikeCount(ls, q) - 1
            else LikeCount(ls, q) + 1
  {
    match LikeIndex(ls, postId, user)
    case Some(i) =>
      assert ls == ls[..i] + [ls[i]] + ls[i + 1..];
      LikeCountConcat(ls[..i] + [ls[i]], ls[i + 1..], q);
      LikeCountConcat(ls[..i], [ls[i]], q);
      LikeCountConcat(ls[..i], ls[i + 1..], q);
    case None =>
      LikeCountConcat(ls, [Like(nextId, postId, user)], q);
  }

  /**
   * Toggling flips whether the user likes the post, leaves every other (post, user) pair
   * as it was, and keeps at most one like per pair.
   */
  lemma ToggleFlips(ls: seq<Like>, postId: int, user: UserId, nextId: int)
    requires UniqueLikes(ls)
    ensures UniqueLikes(ToggledLikes(ls, postId, user, nextId))
    ensures Liked(ToggledLikes(ls, postId, user, nextId), postId, user) == !Liked(ls, postId, user)
    ensures forall q, v :: (q != postId || v != user) ==>
              (Liked(ToggledLikes(ls, postId, user, nextId), q, v) <==> Liked(ls, q, v))
  {
    var t := ToggledLikes(ls, postId, user, nextId);
    match LikeIndex(ls, postId, user)
    case Some(i) =>
      forall a, b | 0 <= a < b < |t| ensures t[a].postId != t[b].postId || t[a].userId != t[b].userId {
        var a' := if a < i then a else a + 1;
        var b' := if b < i then b else b + 1;
        assert t[a] == ls[a'] && t[b] == ls[b'];
      }
      forall k | 0 <= k < |t| ensures t[k].postId != postId || t[k].userId != user {
        var k' := if k < i then k else k + 1;
        assert t[k] == ls[k'];
      }
      forall q, v | (q != postId || v != user) && Liked(ls, q, v) ensures Liked(t, q, v) {
        var k :| 0 <= k < |ls| && ls[k].postId == q && ls[k].userId == v;
        var k' := if k < i then k else k - 1;
        assert t[k'] == ls[k];
      }
      forall q, v | Liked(t, q, v) ensures Liked(ls, q, v) {
        var k :| 0 <= k < |t| && t[k].postId == q && t[k].userId == v;
        var k' := if k < i then k else k + 1;
        assert t[k] == ls[k'];
      }
    case None =>
      assert forall k :: 0 <= k < |ls| ==> t[k] == ls[k];
      assert t[|ls|].postId == postId && t[|ls|].userId == user;
      forall q, v | Liked(t, q, v) && (q != postId || v != user) ensures Liked(ls, q, v) {
        var k :| 0 <= k < |t| && t[k].postId == q && t[k].userId == v;
        assert k < |ls|;
      }
  }

  /**
   * Two successive toggles by the same user on the same post give back the same likes:
   * every (post, user) pair is liked exactly when it was, and every post has its old count.
   */
  lemma ToggleTwice(ls: seq<Like>, postId: int, user: UserId, n1: int, n2: int)
    requires UniqueLikes(ls)
    ensures forall q, v :: Liked(ToggledLikes(ToggledLikes(ls, postId, user, n1), postId, user, n2), q, v)
                           <==> Liked(ls, q, v)
    ensures forall q :: LikeCount(ToggledLikes(ToggledLikes(ls, postId, user, n1), postId, user, n2), q)
                        == LikeCount(ls, q)
  {
    var once := ToggledLikes(ls, postId, user, n1);
    ToggleFlips(ls, postId, user, n1);
    ToggleFlips(once, postId, user, n2);
    forall q ensures LikeCount(ToggledLikes(once, postId, user, n2), q) == LikeCount(ls, q) {
      ToggleCount(ls, postId, user, n1, q);
      ToggleCount(once, postId, user, n2, q);
    }
  }

  /** The response of `toggle_like`. */
  datatype LikeStatus = LikeStatus(postId: int, isLiked: bool, likeCount: nat, message: string)

  method ToggleLike(db: Db, postId: int, user: UserId) returns (r: Result<LikeStatus, ServiceError>)
    requires db.Valid()
    modifies db
    ensures db.Valid()
    ensures FindPost(old(db.posts), postId).None? ==> r == Err(PostNotFound)
    ensures (FindPost(old(db.posts), postId).Some?
             && !MayAccess(old(db.communities), old(db.memberships), FindPost(old(db.posts), postId).value.communityId, user))
              ==> r == Err(MustBeMemberToLike)
    ensures r.Ok? <==> FindPost(old(db.posts), postId).Some?
                       && MayAccess(old(db.communities), old(db.memberships), FindPost(old(db.posts), postId).value.communityId, user)
    ensures r.Err? ==> unchanged(db)
    ensures r.Ok? ==> db.Snapshot() == old(db.Snapshot()).(
                        likes := ToggledLikes(old(db.likes), postId, user, old(db.nextLikeId)),
                        nextLikeId := if Liked(old(db.likes), postId, user) then old(db.nextLikeId) else old(db.nextLikeId) + 1)
    ensures r.Ok? ==> r.value.postId == postId
    ensures r.Ok? ==> r.value.isLiked == !Liked(old(db.likes), postId, user)
    ensures r.Ok? ==> r.value.isLiked == Liked(db.likes, postId, user)
    ensures r.Ok? ==> r.value.likeCount == LikeCount(db.likes, postId)
    ensures r.Ok? ==> r.value.message == if r.value.isLiked then "Post liked successfully" else "Post unliked successfully"
  {
    var post := FindPost(db.posts, postId);
    if post.None? {
      return Err(PostNotFound);
    }
    var cid := post.value.communityId;
    if !IsCreator(db.communities, cid, user) && FindMembership(db.memberships, user, cid).None? {
      return Err(MustBeMemberToLike);
    }
    ghost var t := db.Snapshot();
    ToggleKeepsValid(t, postId, user);
    var existing := LikeIndex(db.likes, postId, user);
    if existing.Some? {
      db.likes := RemoveAt(db.likes, existing.value);
    } else {
      db.likes := db.likes + [Like(db.nextLikeId, postId, user)];
      db.nextLikeId := db.nextLikeId + 1;
    }
    assert db.Snapshot() == t.(likes := ToggledLikes(t.likes, postId, user, t.nextLikeId),
                               nextLikeId := if Liked(t.likes, postId, user) then t.nextLikeId else t.nextLikeId + 1);
    var isLiked := existing.None?;
    var message := if isLiked then "Post liked successfully" else "Post unliked successfully";
    r := Ok(LikeStatus(postId, isLiked, LikeCount(db.likes, postId), message));
  }

  /** Toggling a like keeps the store's invariant and flips the (post, user) pair. */
  lemma ToggleKeepsValid(t: Tables, postId: int, user: UserId)
    requires TablesValid(t)
    ensures TablesValid(t.(likes := ToggledLikes(t.likes, postId, user, t.nextLikeId),
                           nextLikeId := if Liked(t.likes, postId, user) then t.nextLikeId else t.nextLikeId + 1))
    ensures Liked(ToggledLikes(t.likes, postId, user, t.nextLikeId), postId, user) == !Liked(t.likes, postId, user)
    ensures LikeIndex(t.likes, postId, user).Some? == Liked(t.likes, postId, user)
  {
    ToggleFlips(t.likes, postId, user, t.nextLikeId);
    match LikeIndex(t.likes, postId, user)
    case Some(i) =>
      RemoveKeepsKeysAscending(t.likes, (l: Like) => l.likeId, t.nextLikeId, i);
    case None =>
      AppendKeepsKeysAscending(t.likes, (l: Like) => l.likeId, t.nextLikeId, Like(t.nextLikeId, postId, user));
  }

  /** `get_post_likes_count`: the number of users who like the post. */
  function GetPostLikesCount(db: Db, postId: int): (n: nat)
    reads db
    requires db.Valid()
    ensures n == |Likers(db.likes, postId)|
  {
    LikeCountIsLikers(db.likes, postId);
    LikeCount(db.likes, postId)
  }

  /** `is_post_liked_by_user`: false without a user, else whether their like row exists. */
  function IsPostLikedByUser(db: Db, postId: int, user: Option<UserId>): (liked: bool)
    reads db
    ensures liked <==> user.Some? && Liked(db.likes, postId, user.value)
  {
    match user
    case None => false
    case Some(u) => LikeIndex(db.likes, postId, u).Some?
  }
}
