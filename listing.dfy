/**
 * What the post and comment listings share: the page they return, the author fields they
 * set on each row, and the newest-first order of the rows.
 */
module Listing {
  import opened Common
  import opened Paging
  import opened Models
  import opened Store

  /** A row as a listing returns it, with the author's display name and `is_author`. */
  datatype Authored<R> = Authored(row: R, authorDisplayName: Option<string>, isAuthor: bool)

  /** A listing's response: the rows, `total_count`, `page`, `page_size` and `has_more`. */
  datatype Page<V> = Page(items: seq<V>, totalCount: nat, page: nat, pageSize: nat, hasMore: bool)

  /**
   * One row annotated for the requester: the author's `display_name or username or
   * email` (the inner join guarantees an author row), and whether the requester wrote it.
   * Without a requester `is_author` is falsy.
   */
  function AuthoredOf<R>(row: R, author: UserId, users: map<UserId, User>, user: Option<UserId>): (v: Authored<R>)
    requires author in users
    ensures v.row == row
    ensures v.authorDisplayName == DisplayName(users[author])
    ensures v.isAuthor <==> user == Some(author)
  {
    Authored(row, DisplayName(users[author]), user.Some? && user.value == author)
  }

  /** Every row of a page annotated, in the same order. */
  function AuthoredRows<R>(rows: seq<R>, author: R -> UserId, users: map<UserId, User>, user: Option<UserId>)
    : (vs: seq<Authored<R>>)
    requires forall k :: 0 <= k < |rows| ==> author(rows[k]) in users
    ensures |vs| == |rows|
    ensures forall k :: 0 <= k < |rows| ==> vs[k] == AuthoredOf(rows[k], author(rows[k]), users, user)
    decreases |rows|
  {
    if rows == [] then []
    else
      var init := rows[..|rows| - 1];
      assert forall k :: 0 <= k < |init| ==> init[k] == rows[k];
      AuthoredRows(init, author, users, user) + [AuthoredOf(rows[|rows| - 1], author(rows[|rows| - 1]), users, user)]
  }

  /** The listing loop: annotate the page's rows one by one, appending to the result. */
  method AnnotateAuthors<R>(rows: seq<R>, author: R -> UserId, users: map<UserId, User>, user: Option<UserId>)
    returns (vs: seq<Authored<R>>)
    requires forall k :: 0 <= k < |rows| ==> author(rows[k]) in users
    ensures vs == AuthoredRows(rows, author, users, user)
  {
    vs := [];
    for j := 0 to |rows|
      invariant vs == AuthoredRows(rows[..j], author, users, user)
    {
      assert rows[..j + 1][..j] == rows[..j];
      vs := vs + [AuthoredOf(rows[j], author(rows[j]), users, user)];
    }
    assert rows[..|rows|] == rows;
  }

  /**
   * Rows stored in creation order (ascending keys) come out of a newest-first page in
   * strictly descending key order.
   */
  lemma NewestFirstDescending<T>(s: seq<T>, key: T -> int, next: int, skip: nat, limit: nat)
    requires KeysAscending(s, key, next)
    ensures var w := Window(Reverse(s), skip, limit);
            forall i, j :: 0 <= i < j < |w| ==> key(w[i]) > key(w[j])
  {
    var w := Window(Reverse(s), skip, limit);
    forall i, j | 0 <= i < j < |w| ensures key(w[i]) > key(w[j]) {
      assert w[i] == s[|s| - 1 - (skip + i)];
      assert w[j] == s[|s| - 1 - (skip + j)];
    }
  }
}
