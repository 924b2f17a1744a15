/**
 * The relational store the services work on, held in memory: one sequence per table in
 * insertion order, the users table as a map, and one serial counter per table for the
 * next primary key. The lookups the services run (`.filter(...).first()`) and the access
 * rule they share are defined here once.
 */
module Store {
  import opened Common
  import opened Models

  /** The value of every table at one moment. */
  datatype Tables = Tables(
    users: map<UserId, User>,
    communities: seq<Community>,
    memberships: seq<Membership>,
    posts: seq<Post>,
    comments: seq<Comment>,
    likes: seq<Like>,
    rooms: seq<ChatRoom>,
    messages: seq<Message>,
    nextCommunityId: nat,
    nextMembershipId: nat,
    nextPostId: nat,
    nextCommentId: nat,
    nextLikeId: nat,
    nextChatId: nat,
    nextMsgId: nat)

  // ---------------------------------------------------------------------------
  // `.filter(...).first()`: the first row, in table order, that satisfies a condition

  function IndexOf<T>(s: seq<T>, p: T -> bool): (r: Option<nat>)
    ensures r.Some? ==> r.value < |s| && p(s[r.value])
    ensures r.Some? ==> forall k :: 0 <= k < r.value ==> !p(s[k])
    ensures r.None? ==> forall k :: 0 <= k < |s| ==> !p(s[k])
  {
    if |s| == 0 then None
    else if p(s[0]) then Some(0)
    else match IndexOf(s[1..], p)
      case None => None
      case Some(i) => Some(i + 1)
  }

  /** The sequence without its element at position `i` (`db.delete(row)`). */
  function RemoveAt<T>(s: seq<T>, i: nat): (r: seq<T>)
    requires i < |s|
    ensures |r| == |s| - 1
    ensures forall k :: 0 <= k < i ==> r[k] == s[k]
    ensures forall k :: i <= k < |r| ==> r[k] == s[k + 1]
  {
    s[..i] + s[i + 1..]
  }

  /** `.filter(p).all()`: the rows satisfying `p`, in table order. */
  function Filter<T>(s: seq<T>, p: T -> bool): (r: seq<T>)
    ensures |r| <= |s|
    ensures forall k :: 0 <= k < |r| ==> r[k] in s && p(r[k])
    ensures forall k :: 0 <= k < |s| && p(s[k]) ==> s[k] in r
    decreases |s|
  {
    if s == [] then []
    else
      var init, last := s[..|s| - 1], s[|s| - 1];
      assert forall k :: 0 <= k < |init| ==> init[k] == s[k];
      Filter(init, p) + (if p(last) then [last] else [])
  }

  function CommunityIndex(cs: seq<Community>, id: int): Option<nat> {
    IndexOf(cs, (c: Community) => c.communityId == id)
  }

  /** `db.query(Community).filter(Community.community_id == id).first()` */
  function FindCommunity(cs: seq<Community>, id: int): (r: Option<Community>)
    ensures r.Some? ==> r.value in cs && r.value.communityId == id
    ensures r.None? <==> forall k :: 0 <= k < |cs| ==> cs[k].communityId != id
  {
    match CommunityIndex(cs, id)
    case None => None
    case Some(i) => Some(cs[i])
  }

  function MembershipIndex(ms: seq<Membership>, user: UserId, cid: int): Option<nat> {
    IndexOf(ms, (m: Membership) => m.userId == user && m.communityId == cid)
  }

  /** A membership row for (user, community) exists. */
  predicate HasMembership(ms: seq<Membership>, user: UserId, cid: int) {
    exists k :: 0 <= k < |ms| && ms[k].userId == user && ms[k].communityId == cid
  }

  /** The first membership row of `user` in community `cid`, if any. */
  function FindMembership(ms: seq<Membership>, user: UserId, cid: int): (r: Option<Membership>)
    ensures r.Some? ==> r.value in ms && r.value.userId == user && r.value.communityId == cid
    ensures r.Some? <==> HasMembership(ms, user, cid)
  {
    match MembershipIndex(ms, user, cid)
    case None => None
    case Some(i) => Some(ms[i])
  }

  function PostIndex(ps: seq<Post>, id: int): Option<nat> {
    IndexOf(ps, (p: Post) => p.postId == id)
  }

  /** `db.query(Post).filter(Post.post_id == id).first()` (`get_post`). */
  function FindPost(ps: seq<Post>, id: int): (r: Option<Post>)
    ensures r.Some? ==> r.value in ps && r.value.postId == id
    ensures r.None? <==> forall k :: 0 <= k < |ps| ==> ps[k].postId != id
  {
    match PostIndex(ps, id)
    case None => None
    case Some(i) => Some(ps[i])
  }

  function CommentIndex(cs: seq<Comment>, id: int): Option<nat> {
    IndexOf(cs, (c: Comment) => c.commentId == id)
  }

  function RoomIndex(rs: seq<ChatRoom>, id: int): Option<nat> {
    IndexOf(rs, (r: ChatRoom) => r.chatId == id)
  }

  /** `db.query(ChatRoom).filter(ChatRoom.chat_id == id).first()` */
  function FindRoom(rs: seq<ChatRoom>, id: int): (r: Option<ChatRoom>)
    ensures r.Some? ==> r.value in rs && r.value.chatId == id
    ensures r.None? <==> forall k :: 0 <= k < |rs| ==> rs[k].chatId != id
  {
    match RoomIndex(rs, id)
    case None => None
    case Some(i) => Some(rs[i])
  }

  function TitledRoomIndex(rs: seq<ChatRoom>, cid: int, title: string): Option<nat> {
    IndexOf(rs, (r: ChatRoom) => r.communityId == cid && r.title == title)
  }

  /** A room with this title exists in community `cid`. */
  predicate HasRoomTitled(rs: seq<ChatRoom>, cid: int, title: string) {
    exists k :: 0 <= k < |rs| && rs[k].communityId == cid && rs[k].title == title
  }

  // ---------------------------------------------------------------------------
  // The access rule

  /** The community exists and `user` is its creator (`str(community.created_by) == str(user_id)`). */
  predicate IsCreator(cs: seq<Community>, cid: int, user: UserId) {
    match FindCommunity(cs, cid)
    case Some(c) => c.createdBy == Some(user)
    case None => false
  }

  /**
   * The rule every service applies before letting a user act in a community: the user
   * is the community's creator, or holds a membership row in it.
   */
  predicate MayAccess(cs: seq<Community>, ms: seq<Membership>, cid: int, user: UserId): (ok: bool)
    ensures ok <==> (FindCommunity(cs, cid).Some? && FindCommunity(cs, cid).value.createdBy == Some(user))
                    || FindMembership(ms, user, cid).Some?
  {
    IsCreator(cs, cid, user) || HasMembership(ms, user, cid)
  }

  // ---------------------------------------------------------------------------
  // The store's invariant

  /** Primary keys are handed out in increasing order and all lie below the next key. */
  ghost predicate KeysAscending<T>(s: seq<T>, key: T -> int, next: int) {
    && (forall i, j :: 0 <= i < j < |s| ==> key(s[i]) < key(s[j]))
    && (forall i :: 0 <= i < |s| ==> key(s[i]) < next)
  }

  /** At most one membership row per (user, community). */
  ghost predicate UniqueMemberships(ms: seq<Membership>) {
    forall i, j :: 0 <= i < j < |ms| ==> ms[i].userId != ms[j].userId || ms[i].communityId != ms[j].communityId
  }

  /** At most one like per (post, user). */
  ghost predicate UniqueLikes(ls: seq<Like>) {
    forall i, j :: 0 <= i < j < |ls| ==> ls[i].postId != ls[j].postId || ls[i].userId != ls[j].userId
  }

  /** Room titles are unique within a community. */
  ghost predicate UniqueRoomTitles(rs: seq<ChatRoom>) {
    forall i, j :: 0 <= i < j < |rs| ==> rs[i].communityId != rs[j].communityId || rs[i].title != rs[j].title
  }

  /** Community names are unique (the `unique=True` column). */
  ghost predicate UniqueCommunityNames(cs: seq<Community>) {
    forall i, j :: 0 <= i < j < |cs| ==> cs[i].name != cs[j].name
  }

  /**
   * Membership rows only name communities that have been created, and the creator of a
   * community never holds a membership row in it.
   */
  ghost predicate MembershipsConsistent(cs: seq<Community>, ms: seq<Membership>, nextCommunityId: int) {
    && (forall k :: 0 <= k < |ms| ==> ms[k].communityId < nextCommunityId)
    && (forall i, k :: 0 <= i < |cs| && 0 <= k < |ms| && cs[i].createdBy == Some(ms[k].userId)
          ==> ms[k].communityId != cs[i].communityId)
  }

  ghost predicate TablesValid(t: Tables) {
    && KeysAscending(t.communities, (c: Community) => c.communityId, t.nextCommunityId)
    && KeysAscending(t.memberships, (m: Membership) => m.membershipId, t.nextMembershipId)
    && KeysAscending(t.posts, (p: Post) => p.postId, t.nextPostId)
    && KeysAscending(t.comments, (c: Comment) => c.commentId, t.nextCommentId)
    && KeysAscending(t.likes, (l: Like) => l.likeId, t.nextLikeId)
    && KeysAscending(t.rooms, (r: ChatRoom) => r.chatId, t.nextChatId)
    && KeysAscending(t.messages, (m: Message) => m.msgId, t.nextMsgId)
    && UniqueMemberships(t.memberships)
    && UniqueLikes(t.likes)
    && UniqueRoomTitles(t.rooms)
    && UniqueCommunityNames(t.communities)
    && MembershipsConsistent(t.communities, t.memberships, t.nextCommunityId)
  }

  /** The database session: every table, updated in place by the services. */
  class Db {
    var users: map<UserId, User>
    var communities: seq<Community>
    var memberships: seq<Membership>
    var posts: seq<Post>
    var comments: seq<Comment>
    var likes: seq<Like>
    var rooms: seq<ChatRoom>
    var messages: seq<Message>
    var nextCommunityId: nat
    var nextMembershipId: nat
    var nextPostId: nat
    var nextCommentId: nat
    var nextLikeId: nat
    var nextChatId: nat
    var nextMsgId: nat

    function Snapshot(): Tables
      reads this
    {
      Tables(users, communities, memberships, posts, comments, likes, rooms, messages,
             nextCommunityId, nextMembershipId, nextPostId, nextCommentId, nextLikeId, nextChatId, nextMsgId)
    }

    ghost predicate Valid()
      reads this
    {
      TablesValid(Snapshot())
    }

    /** An empty database over a given set of registered users; serial keys start at 1. */
    constructor (users: map<UserId, User>)
      ensures Valid()
      ensures Snapshot() == Tables(users, [], [], [], [], [], [], [], 1, 1, 1, 1, 1, 1, 1)
    {
      this.users := users;
      communities, memberships, posts, comments, likes, rooms, messages := [], [], [], [], [], [], [];
      nextCommunityId, nextMembershipId, nextPostId, nextCommentId := 1, 1, 1, 1;
      nextLikeId, nextChatId, nextMsgId := 1, 1, 1;
      new;
      EmptyTablesValid(users);
      assert Snapshot() == Tables(users, [], [], [], [], [], [], [], 1, 1, 1, 1, 1, 1, 1);
    }
  }

  // ---------------------------------------------------------------------------
  // Facts about the invariant that several services use

  /** A store with no rows satisfies the invariant. */
  lemma EmptyTablesValid(users: map<UserId, User>)
    ensures TablesValid(Tables(users, [], [], [], [], [], [], [], 1, 1, 1, 1, 1, 1, 1))
  {
  }

  /** In a table with ascending keys, a row found by its key is the only row with that key. */
  lemma KeyIsUnique<T>(s: seq<T>, key: T -> int, next: int, i: nat, k: int)
    requires KeysAscending(s, key, next) && i < |s| && key(s[i]) == k
    ensures forall j :: 0 <= j < |s| && j != i ==> key(s[j]) != k
  {
  }

  /** Appending a row keyed with the next serial value keeps the keys ascending. */
  lemma AppendKeepsKeysAscending<T>(s: seq<T>, key: T -> int, next: nat, x: T)
    requires KeysAscending(s, key, next) && key(x) == next
    ensures KeysAscending(s + [x], key, next + 1)
  {
    assert forall i :: 0 <= i < |s| ==> (s + [x])[i] == s[i];
  }

  /** Removing a row keeps the keys ascending. */
  lemma RemoveKeepsKeysAscending<T>(s: seq<T>, key: T -> int, next: nat, i: nat)
    requires KeysAscending(s, key, next) && i < |s|
    ensures KeysAscending(RemoveAt(s, i), key, next)
  {
    var r := RemoveAt(s, i);
    forall a, b | 0 <= a < b < |r| ensures key(r[a]) < key(r[b]) {
      var a' := if a < i then a else a + 1;
      var b' := if b < i then b else b + 1;
      assert r[a] == s[a'] && r[b] == s[b'];
    }
  }

  /** After removing the row at `i` from a table with ascending keys, no row has its key. */
  lemma RemovedKeyIsGone<T>(s: seq<T>, key: T -> int, next: int, i: nat)
    requires KeysAscending(s, key, next) && i < |s|
    ensures forall k :: 0 <= k < |RemoveAt(s, i)| ==> key(RemoveAt(s, i)[k]) != key(s[i])
  {
    var r := RemoveAt(s, i);
    forall k | 0 <= k < |r| ensures key(r[k]) != key(s[i]) {
      if k < i {
        assert r[k] == s[k];
      } else {
        assert r[k] == s[k + 1];
      }
    }
  }

  /** Filtering keeps the rows in key order, so a filtered listing is in creation order. */
  lemma {:induction false} FilterKeepsKeysAscending<T>(s: seq<T>, p: T -> bool, key: T -> int, next: int)
    requires KeysAscending(s, key, next)
    ensures KeysAscending(Filter(s, p), key, next)
    decreases |s|
  {
    if s != [] {
      var init, last := s[..|s| - 1], s[|s| - 1];
      assert forall k :: 0 <= k < |init| ==> init[k] == s[k];
      FilterKeepsKeysAscending(init, p, key, next);
      var f := Filter(init, p);
      assert Filter(s, p) == f + (if p(last) then [last] else []);
      if p(last) {
        FilterKeepsBelow(init, p, key, key(last));
        AppendAboveKeepsAscending(f, last, key, next);
      } else {
        assert Filter(s, p) == f;
      }
    }
  }

  /** Every row a filter keeps has a key below a bound that all of the table's keys are below. */
  lemma FilterKeepsBelow<T>(s: seq<T>, p: T -> bool, key: T -> int, bound: int)
    requires forall k :: 0 <= k < |s| ==> key(s[k]) < bound
    ensures forall k :: 0 <= k < |Filter(s, p)| ==> key(Filter(s, p)[k]) < bound
  {
    var f := Filter(s, p);
    forall k | 0 <= k < |f| ensures key(f[k]) < bound {
      var j :| 0 <= j < |s| && s[j] == f[k];
    }
  }

  /** Appending a row whose key is above every key of an ascending table keeps it ascending. */
  lemma AppendAboveKeepsAscending<T>(s: seq<T>, x: T, key: T -> int, next: int)
    requires KeysAscending(s, key, next) && key(x) < next
    requires forall k :: 0 <= k < |s| ==> key(s[k]) < key(x)
    ensures KeysAscending(s + [x], key, next)
  {
    assert forall k :: 0 <= k < |s| ==> (s + [x])[k] == s[k];
  }

  /** Replacing a row by one with the same key keeps the keys ascending. */
  lemma ReplaceKeepsKeysAscending<T>(s: seq<T>, key: T -> int, next: nat, i: nat, x: T)
    requires KeysAscending(s, key, next) && i < |s| && key(x) == key(s[i])
    ensures KeysAscending(s[i := x], key, next)
  {
  }
}
