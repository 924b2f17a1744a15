/**
 * Posts (backend/services/posts/post_service.py): creation by the creator or members, the
 * paged newest-first listing, and edits and deletions restricted to the author.
 */
module PostService {
  import opened Common
  import opened Paging
  import opened Models
  import opened Store
  import opened Listing

  /** The row `create_post` adds: the request's fields, authored by the requester. */
  function NewPost(id: int, cid: int, user: UserId, content: string, mediaUrl: Option<string>, mediaType: Option<string>)
    : Post
  {
    Post(id, cid, user, content, mediaUrl, mediaType)
  }

  method CreatePost(db: Db, cid: int, content: string, mediaUrl: Option<string>, mediaType: Option<string>, user: UserId)
    returns (r: Result<Post, ServiceError>)
    requires db.Valid()
    modifies db
    ensures db.Valid()
    ensures FindCommunity(old(db.communities), cid).None? ==> r == Err(CommunityNotFound)
    ensures (FindCommunity(old(db.communities), cid).Some? && !MayAccess(old(db.communities), old(db.memberships), cid, user))
              ==> r == Err(MustBeMemberToCreatePosts)
    ensures r.Ok? <==> FindCommunity(old(db.communities), cid).Some? && MayAccess(old(db.communities), old(db.memberships), cid, user)
    ensures r.Err? ==> unchanged(db)
    ensures r.Ok? ==> r.value == NewPost(old(db.nextPostId), cid, user, content, mediaUrl, mediaType)
    ensures r.Ok? ==> db.Snapshot() == old(db.Snapshot()).(posts := old(db.posts) + [r.value],
                                                             nextPostId := old(db.nextPostId) + 1)
  {
    var community := FindCommunity(db.communities, cid);
    if community.None? {
      return Err(CommunityNotFound);
    }
    if community.value.createdBy != Some(user) && FindMembership(db.memberships, user, cid).None? {
      return Err(MustBeMemberToCreatePosts);
    }
    var post := NewPost(db.nextPostId, cid, user, content, mediaUrl, mediaType);
    ghost var t := db.Snapshot();
    AddPostKeepsValid(t, post);
    db.posts := db.posts + [post];
    db.nextPostId := db.nextPostId + 1;
    assert db.Snapshot() == t.(posts := t.posts + [post], nextPostId := t.nextPostId + 1);
    r := Ok(post);
  }

  /** Appending a post keyed with the next serial value keeps the store's invariant. */
  lemma AddPostKeepsValid(t: Tables, p: Post)
    requires TablesValid(t) && p.postId == t.nextPostId
    ensures TablesValid(t.(posts := t.posts + [p], nextPostId := t.nextPostId + 1))
  {
    AppendKeepsKeysAscending(t.posts, (x: Post) => x.postId, t.nextPostId, p);
  }

  // ---------------------------------------------------------------------------
  // get_community_posts

  function PostAuthor(p: Post): UserId {
    p.authorId
  }

  /** The rows the listing query counts: the community's posts whose author has a users row (inner join). */
  function CommunityPosts(ps: seq<Post>, users: map<UserId, User>, cid: int): (rows: seq<Post>)
    ensures forall k :: 0 <= k < |rows| ==> rows[k] in ps && rows[k].communityId == cid && rows[k].authorId in users
    ensures forall k :: 0 <= k < |ps| && ps[k].communityId == cid && ps[k].authorId in users ==> ps[k] in rows
  {
    Filter(ps, (p: Post) => p.communityId == cid && p.authorId in users)
  }

  /** A newest-first page of a community's posts: rows of that community with an author row, newest first. */
  lemma NewestPostsPage(ps: seq<Post>, users: map<UserId, User>, cid: int, next: int, skip: nat, limit: nat)
    requires KeysAscending(ps, (p: Post) => p.postId, next)
    ensures var w := Window(Reverse(CommunityPosts(ps, users, cid)), skip, limit);
            && (forall k :: 0 <= k < |w| ==> w[k].communityId == cid && w[k].authorId in users)
            && (forall i, j :: 0 <= i < j < |w| ==> w[i].postId > w[j].postId)
  {
    var rows := CommunityPosts(ps, users, cid);
    FilterKeepsKeysAscending(ps, (p: Post) => p.communityId == cid && p.authorId in users, (p: Post) => p.postId, next);
    NewestFirstDescending(rows, (p: Post) => p.postId, next, skip, limit);
    var w := Window(Reverse(rows), skip, limit);
    forall k | 0 <= k < |w| ensures w[k].communityId == cid && w[k].authorId in users {
      assert w[k] == rows[|rows| - 1 - (skip + k)];
    }
  }

  /**
   * `get_community_posts`: for a missing community an error; with a requester, the access
   * rule; then the page at `OFFSET skip LIMIT limit` of the community's posts newest first.
   */
  method GetCommunityPosts(db: Db, cid: int, user: Option<UserId>, skip: int, limit: int)
    returns (r: Result<Page<Authored<Post>>, ServiceError>)
    requires db.Valid()
    ensures FindCommunity(db.communities, cid).None? ==> r == Err(CommunityNotFound)
    ensures (FindCommunity(db.communities, cid).Some? && user.Some?
             && !MayAccess(db.communities, db.memberships, cid, user.value))
              ==> r == Err(MustBeMemberToViewPosts)
    ensures (FindCommunity(db.communities, cid).Some?
             && (user.None? || MayAccess(db.communities, db.memberships, cid, user.value))
             && (skip < 0 || limit < 0))
              ==> r == Err(NegativeOffsetOrLimit)
    ensures r.Ok? <==> FindCommunity(db.communities, cid).Some?
                       && (user.None? || MayAccess(db.communities, db.memberships, cid, user.value))
                       && skip >= 0 && limit >= 0
    ensures r.Ok? ==> r.value.totalCount == |CommunityPosts(db.posts, db.users, cid)|
    ensures r.Ok? ==> r.value.hasMore == (skip + limit < r.value.totalCount)
    ensures r.Ok? ==> r.value.page == PageNumber(skip, limit) && r.value.pageSize == limit
    ensures r.Ok? ==> r.value.items == AuthoredRows(Window(Reverse(CommunityPosts(db.posts, db.users, cid)), skip, limit),
                                                    PostAuthor, db.users, user)
    ensures r.Ok? ==> forall i, j :: 0 <= i < j < |r.value.items| ==> r.value.items[i].row.postId > r.value.items[j].row.postId
  {
    var community := FindCommunity(db.communities, cid);
    if community.None? {
      return Err(CommunityNotFound);
    }
    if user.Some? {
      if community.value.createdBy != user && FindMembership(db.memberships, user.value, cid).None? {
        return Err(MustBeMemberToViewPosts);
      }
    }
    var rows := CommunityPosts(db.posts, db.users, cid);
    var total := |rows|;
    if skip < 0 || limit < 0 {
      return Err(NegativeOffsetOrLimit);
    }
    NewestPostsPage(db.posts, db.users, cid, db.nextPostId, skip, limit);
    var page := Window(Reverse(rows), skip, limit);
    var items := AnnotateAuthors(page, PostAuthor, db.users, user);
    r := Ok(Page(items, total, PageNumber(skip, limit), limit, skip + limit < total));
  }

  // ---------------------------------------------------------------------------
  // update_post / delete_post

  /** The body of an update request: each field left out, or given (possibly as `null`). */
  datatype PostUpdate = PostUpdate(
    content: Field<Option<string>>,
    mediaUrl: Field<Option<string>>,
    mediaType: Field<Option<string>>)

  /** `content` is NOT NULL: an update that sets it to `null` is refused by the database. */
  predicate Storable(u: PostUpdate) {
    u.content != Set(None)
  }

  /** The post after `setattr` of every field the request gives. */
  function ApplyPostUpdate(p: Post, u: PostUpdate): (q: Post)
    requires Storable(u)
    ensures q.postId == p.postId && q.communityId == p.communityId && q.authorId == p.authorId
    ensures q.content == (if u.content.Set? then u.content.value.value else p.content)
    ensures q.mediaUrl == Apply(u.mediaUrl, p.mediaUrl)
    ensures q.mediaType == Apply(u.mediaType, p.mediaType)
  {
    var content := match u.content
      case Set(Some(c)) => c
      case _ => p.content;
    p.(content := content, mediaUrl := Apply(u.mediaUrl, p.mediaUrl), mediaType := Apply(u.mediaType, p.mediaType))
  }

  /** An update that gives no field changes nothing, and applying an update twice is applying it once. */
  lemma PostUpdateIdempotent(p: Post, u: PostUpdate)
    requires Storable(u)
    ensures ApplyPostUpdate(p, PostUpdate(Unset, Unset, Unset)) == p
    ensures ApplyPostUpdate(ApplyPostUpdate(p, u), u) == ApplyPostUpdate(p, u)
  {
  }

  method UpdatePost(db: Db, postId: int, u: PostUpdate, user: UserId) returns (r: Result<Option<Post>, ServiceError>)
    requires db.Valid()
    modifies db
    ensures db.Valid()
    ensures FindPost(old(db.posts), postId).None? ==> r == Ok(None)
    ensures (FindPost(old(db.posts), postId).Some? && FindPost(old(db.posts), postId).value.authorId != user)
              ==> r == Err(NotPostAuthorEdit)
    ensures (FindPost(old(db.posts), postId).Some? && FindPost(old(db.posts), postId).value.authorId == user
             && !Storable(u))
              ==> r == Err(NullInRequiredColumn)
    ensures r.Ok? && r.value.Some? <==> FindPost(old(db.posts), postId).Some?
                                        && FindPost(old(db.posts), postId).value.authorId == user && Storable(u)
    ensures !(r.Ok? && r.value.Some?) ==> unchanged(db)
    ensures (r.Ok? && r.value.Some?) ==> r.value.value == ApplyPostUpdate(FindPost(old(db.posts), postId).value, u)
    ensures (r.Ok? && r.value.Some?) ==>
              db.Snapshot() == old(db.Snapshot()).(posts := old(db.posts)[PostIndex(old(db.posts), postId).value := r.value.value])
  {
    var i := PostIndex(db.posts, postId);
    if i.None? {
      return Ok(None);
    }
    var post := db.posts[i.value];
    if post.authorId != user {
      return Err(NotPostAuthorEdit);
    }
    if !Storable(u) {
      return Err(NullInRequiredColumn);
    }
    var updated := ApplyPostUpdate(post, u);
    ReplaceKeepsKeysAscending(db.posts, (p: Post) => p.postId, db.nextPostId, i.value, updated);
    db.posts := db.posts[i.value := updated];
    r := Ok(Some(updated));
  }

  method DeletePost(db: Db, postId: int, user: UserId) returns (r: Result<Option<bool>, ServiceError>)
    requires db.Valid()
    modifies db
    ensures db.Valid()
    ensures FindPost(old(db.posts), postId).None? ==> r == Ok(None)
    ensures (FindPost(old(db.posts), postId).Some? && FindPost(old(db.posts), postId).value.authorId != user)
              ==> r == Err(NotPostAuthorDelete)
    ensures r == Ok(Some(true)) <==> FindPost(old(db.posts), postId).Some? && FindPost(old(db.posts), postId).value.authorId == user
    ensures r != Ok(Some(true)) ==> unchanged(db)
    ensures r == Ok(Some(true)) ==>
              db.Snapshot() == old(db.Snapshot()).(posts := RemoveAt(old(db.posts), PostIndex(old(db.posts), postId).value))
    ensures r == Ok(Some(true)) ==> FindPost(db.posts, postId).None?
  {
    var i := PostIndex(db.posts, postId);
    if i.None? {
      return Ok(None);
    }
    if db.posts[i.value].authorId != user {
      return Err(NotPostAuthorDelete);
    }
    RemoveKeepsKeysAscending(db.posts, (p: Post) => p.postId, db.nextPostId, i.value);
    RemovedKeyIsGone(db.posts, (p: Post) => p.postId, db.nextPostId, i.value);
    db.posts := RemoveAt(db.posts, i.value);
    r := Ok(Some(true));
  }
}
