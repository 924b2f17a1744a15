/**
 * Comments on posts (backend/services/comments/comment_service.py): commenting by the
 * community's creator or members, the paged newest-first listing, and edits and deletions
 * restricted to the author.
 */
module CommentService {
  import opened Common
  import opened Paging
  import opened Models
  import opened Store
  import opened Listing

  /** The row `create_comment` adds. */
  function NewComment(id: int, postId: int, user: UserId, content: string): Comment {
    Comment(id, postId, user, content)
  }

  /** Appending a comment keyed with the next serial value keeps the store's invariant. */
  lemma AddCommentKeepsValid(t: Tables, c: Comment)
    requires TablesValid(t) && c.commentId == t.nextCommentId
    ensures TablesValid(t.(comments := t.comments + [c], nextCommentId := t.nextCommentId + 1))
  {
    AppendKeepsKeysAscending(t.comments, (x: Comment) => x.commentId, t.nextCommentId, c);
  }

  method CreateComment(db: Db, postId: int, content: string, user: UserId) returns (r: Result<Comment, ServiceError>)
    requires db.Valid()
    modifies db
    ensures db.Valid()
    ensures FindPost(old(db.posts), postId).None? ==> r == Err(PostNotFound)
    ensures (FindPost(old(db.posts), postId).Some?
             && !MayAccess(old(db.communities), old(db.memberships), FindPost(old(db.posts), postId).value.communityId, user))
              ==> r == Err(MustBeMemberToComment)
    ensures r.Ok? <==> FindPost(old(db.posts), postId).Some?
                       && MayAccess(old(db.communities), old(db.memberships), FindPost(old(db.posts), postId).value.communityId, user)
    ensures r.Err? ==> unchanged(db)
    ensures r.Ok? ==> r.value == NewComment(old(db.nextCommentId), postId, user, content)
    ensures r.Ok? ==> db.Snapshot() == old(db.Snapshot()).(comments := old(db.comments) + [r.value],
                                                             nextCommentId := old(db.nextCommentId) + 1)
  {
    var post := FindPost(db.posts, postId);
    if post.None? {
      return Err(PostNotFound);
    }
    var cid := post.value.communityId;
    var community := FindCommunity(db.communities, cid);
    var isOwner := community.Some? && community.value.createdBy == Some(user);
    if !isOwner && FindMembership(db.memberships, user, cid).None? {
      return Err(MustBeMemberToComment);
    }
    var c := NewComment(db.nextCommentId, postId, user, content);
    ghost var t := db.Snapshot();
    AddCommentKeepsValid(t, c);
    db.comments := db.comments + [c];
    db.nextCommentId := db.nextCommentId + 1;
    assert db.Snapshot() == t.(comments := t.comments + [c], nextCommentId := t.nextCommentId + 1);
    r := Ok(c);
  }

  // ---------------------------------------------------------------------------
  // get_post_comments

  function CommentAuthor(c: Comment): UserId {
    c.authorId
  }

  /** The rows the listing query counts: the post's comments whose author has a users row (inner join). */
  function PostComments(cs: seq<Comment>, users: map<UserId, User>, postId: int): (rows: seq<Comment>)
    ensures forall k :: 0 <= k < |rows| ==> rows[k] in cs && rows[k].postId == postId && rows[k].authorId in users
    ensures forall k :: 0 <= k < |cs| && cs[k].postId == postId && cs[k].authorId in users ==> cs[k] in rows
  {
    Filter(cs, (c: Comment) => c.postId == postId && c.authorId in users)
  }

  /** A newest-first page of a post's comments: rows of that post with an author row, newest first. */
  lemma NewestCommentsPage(cs: seq<Comment>, users: map<UserId, User>, postId: int, next: int, skip: nat, limit: nat)
    requires KeysAscending(cs, (c: Comment) => c.commentId, next)
    ensures var w := Window(Reverse(PostComments(cs, users, postId)), skip, limit);
            && (forall k :: 0 <= k < |w| ==> w[k].postId == postId && w[k].authorId in users)
            && (forall i, j :: 0 <= i < j < |w| ==> w[i].commentId > w[j].commentId)
  {
    var rows := PostComments(cs, users, postId);
    FilterKeepsKeysAscending(cs, (c: Comment) => c.postId == postId && c.authorId in users,
                             (c: Comment) => c.commentId, next);
    NewestFirstDescending(rows, (c: Comment) => c.commentId, next, skip, limit);
    var w := Window(Reverse(rows), skip, limit);
    forall k | 0 <= k < |w| ensures w[k].postId == postId && w[k].authorId in users {
      assert w[k] == rows[|rows| - 1 - (skip + k)];
    }
  }

  /**
   * `get_post_comments`: for a missing post an error; with a requester, the access rule on
   * the post's community; then the page at `OFFSET skip LIMIT limit` of the post's comments
   * newest first.
   */
  method GetPostComments(db: Db, postId: int, user: Option<UserId>, skip: int, limit: int)
    returns (r: Result<Page<Authored<Comment>>, ServiceError>)
    requires db.Valid()
    ensures FindPost(db.posts, postId).None? ==> r == Err(PostNotFound)
    ensures (FindPost(db.posts, postId).Some? && user.Some?
             && !MayAccess(db.communities, db.memberships, FindPost(db.posts, postId).value.communityId, user.value))
              ==> r == Err(MustBeMemberToViewComments)
    ensures (FindPost(db.posts, postId).Some?
             && (user.None? || MayAccess(db.communities, db.memberships, FindPost(db.posts, postId).value.communityId, user.value))
             && (skip < 0 || limit < 0))
              ==> r == Err(NegativeOffsetOrLimit)
    ensures r.Ok? <==> FindPost(db.posts, postId).Some?
                       && (user.None? || MayAccess(db.communities, db.memberships, FindPost(db.posts, postId).value.communityId, user.value))
                       && skip >= 0 && limit >= 0
    ensures r.Ok? ==> r.value.totalCount == |PostComments(db.comments, db.users, postId)|
    ensures r.Ok? ==> r.value.hasMore == (skip + limit < r.value.totalCount)
    ensures r.Ok? ==> r.value.page == PageNumber(skip, limit) && r.value.pageSize == limit
    ensures r.Ok? ==> r.value.items == AuthoredRows(Window(Reverse(PostComments(db.comments, db.users, postId)), skip, limit),
                                                    CommentAuthor, db.users, user)
    ensures r.Ok? ==> forall i, j :: 0 <= i < j < |r.value.items| ==> r.value.items[i].row.commentId > r.value.items[j].row.commentId
  {
    var post := FindPost(db.posts, postId);
    if post.None? {
      return Err(PostNotFound);
    }
    if user.Some? && !MayAccess(db.communities, db.memberships, post.value.communityId, user.value) {
      return Err(MustBeMemberToViewComments);
    }
    var rows := PostComments(db.comments, db.users, postId);
    var total := |rows|;
    if skip < 0 || limit < 0 {
      return Err(NegativeOffsetOrLimit);
    }
    NewestCommentsPage(db.comments, db.users, postId, db.nextCommentId, skip, limit);
    var page := Window(Reverse(rows), skip, limit);
    var items := AnnotateAuthors(page, CommentAuthor, db.users, user);
    r := Ok(Page(items, total, PageNumber(skip, limit), limit, skip + limit < total));
  }

  // ---------------------------------------------------------------------------
  // update_comment / delete_comment

  /** `db.query(Comment).filter(Comment.comment_id == id).first()` */
  function FindComment(cs: seq<Comment>, id: int): (r: Option<Comment>)
    ensures r.Some? ==> r.value in cs && r.value.commentId == id
    ensures r.None? <==> forall k :: 0 <= k < |cs| ==> cs[k].commentId != id
  {
    match CommentIndex(cs, id)
    case None => None
    case Some(i) => Some(cs[i])
  }

  method UpdateComment(db: Db, commentId: int, content: string, user: UserId) returns (r: Result<Option<Comment>, ServiceError>)
    requires db.Valid()
    modifies db
    ensures db.Valid()
    ensures FindComment(old(db.comments), commentId).None? ==> r == Ok(None)
    ensures (FindComment(old(db.comments), commentId).Some? && FindComment(old(db.comments), commentId).value.authorId != user)
              ==> r == Err(NotCommentAuthorEdit)
    ensures r.Ok? && r.value.Some? <==> FindComment(old(db.comments), commentId).Some?
                                        && FindComment(old(db.comments), commentId).value.authorId == user
    ensures !(r.Ok? && r.value.Some?) ==> unchanged(db)
    ensures (r.Ok? && r.value.Some?) ==> r.value.value == FindComment(old(db.comments), commentId).value.(content := content)
    ensures (r.Ok? && r.value.Some?) ==>
              db.Snapshot() == old(db.Snapshot()).(comments :=
                old(db.comments)[CommentIndex(old(db.comments), commentId).value := r.value.value])
  {
    var i := CommentIndex(db.comments, commentId);
    if i.None? {
      return Ok(None);
    }
    var c := db.comments[i.value];
    if c.authorId != user {
      return Err(NotCommentAuthorEdit);
    }
    var updated := c.(content := content);
    ReplaceKeepsKeysAscending(db.comments, (x: Comment) => x.commentId, db.nextCommentId, i.value, updated);
    db.comments := db.comments[i.value := updated];
    r := Ok(Some(updated));
  }

  method DeleteComment(db: Db, commentId: int, user: UserId) returns (r: Result<Option<bool>, ServiceError>)
    requires db.Valid()
    modifies db
    ensures db.Valid()
    ensures FindComment(old(db.comments), commentId).None? ==> r == Ok(None)
    ensures (FindComment(old(db.comments), commentId).Some? && FindComment(old(db.comments), commentId).value.authorId != user)
              ==> r == Err(NotCommentAuthorDelete)
    ensures r == Ok(Some(true)) <==> FindComment(old(db.comments), commentId).Some?
                                     && FindComment(old(db.comments), commentId).value.authorId == user
    ensures r != Ok(Some(true)) ==> unchanged(db)
    ensures r == Ok(Some(true)) ==>
              db.Snapshot() == old(db.Snapshot()).(comments := RemoveAt(old(db.comments), CommentIndex(old(db.comments), commentId).value))
    ensures r == Ok(Some(true)) ==> FindComment(db.comments, commentId).None?
  {
    var i := CommentIndex(db.comments, commentId);
    if i.None? {
      return Ok(None);
    }
    if db.comments[i.value].authorId != user {
      return Err(NotCommentAuthorDelete);
    }
    RemoveKeepsKeysAscending(db.comments, (x: Comment) => x.commentId, db.nextCommentId, i.value);
    RemovedKeyIsGone(db.comments, (x: Comment) => x.commentId, db.nextCommentId, i.value);
    db.comments := RemoveAt(db.comments, i.value);
    r := Ok(Some(true));
  }
}
