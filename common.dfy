/** Small value types shared by every part of the model. */
module Common {

  /** Python's `None` / a present value, and a nullable database column. */
  datatype Option<T> = None | Some(value: T)

  /** A service call either returns a value or raises; the raised exception is the `error`. */
  datatype Result<T, E> = Ok(value: T) | Err(error: E)

  /**
   * One field of a partial-update request body: left out of the body (`exclude_unset`
   * drops it), or given explicitly, possibly as JSON `null`.
   */
  datatype Field<T> = Unset | Set(value: T)

  /** The value a field takes after a partial update that may or may not mention it. */
  function Apply<T>(f: Field<T>, current: T): T {
    match f
    case Unset => current
    case Set(v) => v
  }

  /** Python truthiness of an optional string: neither `None` nor the empty string. */
  predicate Truthy(s: Option<string>) {
    s.Some? && s.value != ""
  }

  /** Python's `a or b` on optional strings: `a` when it is truthy, `b` otherwise. */
  function Or(a: Option<string>, b: Option<string>): (r: Option<string>)
    ensures Truthy(a) ==> r == a
    ensures !Truthy(a) ==> r == b
  {
    if Truthy(a) then a else b
  }

  /** JavaScript's `a || fallback` where `a` is an optional string. */
  function OrElse(a: Option<string>, fallback: string): (r: string)
    ensures Truthy(a) ==> r == a.value
    ensures !Truthy(a) ==> r == fallback
  {
    if Truthy(a) then a.value else fallback
  }
}

/**
 * The arithmetic of `OFFSET skip LIMIT limit` listings and the `has_more`/`page`
 * fields the services compute beside them.
 */
module Paging {

  function Min(a: int, b: int): int { if a <= b then a else b }

  /** The rows a query returns for `OFFSET skip LIMIT limit`: positions [skip, skip + limit). */
  function Window<T>(rows: seq<T>, skip: nat, limit: nat): (w: seq<T>)
    ensures |w| == if skip >= |rows| then 0 else Min(limit, |rows| - skip)
    ensures forall k :: 0 <= k < |w| ==> w[k] == rows[skip + k]
  {
    if skip >= |rows| then [] else rows[skip..skip + Min(limit, |rows| - skip)]
  }

  /** `has_more = skip + limit < total_count`. */
  function HasMore(skip: nat, limit: nat, total: nat): bool {
    skip + limit < total
  }

  /** `page = (skip // limit) + 1 if limit > 0 else 1`. */
  function PageNumber(skip: nat, limit: nat): (p: nat)
    ensures p >= 1
    ensures limit > 0 ==> (p - 1) * limit <= skip < p * limit
    ensures limit == 0 ==> p == 1
  {
    if limit > 0 then skip / limit + 1 else 1
  }

  /** The order `ORDER BY ... DESC` gives rows that were stored oldest first. */
  function Reverse<T>(s: seq<T>): (r: seq<T>)
    ensures |r| == |s|
    ensures forall k :: 0 <= k < |s| ==> r[k] == s[|s| - 1 - k]
  {
    if s == [] then [] else Reverse(s[1..]) + [s[0]]
  }

  /** `has_more` holds exactly when some row lies after the page just returned. */
  lemma HasMoreIffRowsRemain<T>(rows: seq<T>, skip: nat, limit: nat)
    ensures HasMore(skip, limit, |rows|) <==> skip + |Window(rows, skip, limit)| < |rows|
  {
  }

  /** With `limit > 0`, asking for page k (skip = k * limit) reports page number k + 1. */
  lemma PageOfAlignedSkip(k: nat, limit: nat)
    requires limit > 0
    ensures PageNumber(k * limit, limit) == k + 1
  {
  }

  /** Two consecutive pages are the one page that spans them both. */
  lemma ConsecutiveWindows<T>(rows: seq<T>, skip: nat, l1: nat, l2: nat)
    ensures Window(rows, skip, l1) + Window(rows, skip + l1, l2) == Window(rows, skip, l1 + l2)
  {
    var a, b, c := Window(rows, skip, l1), Window(rows, skip + l1, l2), Window(rows, skip, l1 + l2);
    assert |a + b| == |c|;
    forall k | 0 <= k < |c| ensures (a + b)[k] == c[k] {
      if k >= |a| {
        assert (a + b)[k] == b[k - |a|];
      }
    }
  }

  /**
   * The rows a newest-first listing returns for `OFFSET skip LIMIT limit`, put back into
   * oldest-first order: the run of (at most `limit`) rows that ends `skip` rows before the newest.
   */
  function LatestRun<T>(rows: seq<T>, skip: nat, limit: nat): (run: seq<T>)
    ensures run == Reverse(Window(Reverse(rows), skip, limit))
  {
    if skip >= |rows| then []
    else
      NewestFirstPage(rows, skip, limit);
      rows[|rows| - skip - Min(limit, |rows| - skip) .. |rows| - skip]
  }

  /**
   * The page of a newest-first listing, put back into oldest-first order (as the
   * chat listing does), is the run of rows that ends `skip` rows before the newest.
   */
  lemma {:induction false} NewestFirstPage<T>(rows: seq<T>, skip: nat, limit: nat)
    requires skip <= |rows|
    ensures Reverse(Window(Reverse(rows), skip, limit))
         == rows[|rows| - skip - Min(limit, |rows| - skip) .. |rows| - skip]
  {
    var w := Window(Reverse(rows), skip, limit);
    var n := Min(limit, |rows| - skip);
    var lhs := Reverse(w);
    var rhs := rows[|rows| - skip - n .. |rows| - skip];
    assert |lhs| == |rhs|;
    assert |w| == n;
    forall k | 0 <= k < n ensures lhs[k] == rhs[k] {
      calc {
        lhs[k];
        w[n - 1 - k];
        Reverse(rows)[skip + n - 1 - k];
        rows[|rows| - skip - n + k];
        rhs[k];
      }
    }
  }
}
