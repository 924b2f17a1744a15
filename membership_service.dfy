/**
 * Joining and leaving communities, membership queries, the member roster and role
 * changes (backend/services/memberships/membership_service.py).
 */
module MembershipService {
  import opened Common
  import opened Models
  import opened Store

  // ---------------------------------------------------------------------------
  // join_community / leave_community

  /** The row `join_community` adds: the next serial key, role "member". */
  function NewMembership(id: int, user: UserId, cid: int): Membership {
    Membership(id, user, cid, "member")
  }

  method JoinCommunity(db: Db, cid: int, user: UserId) returns (r: Result<Membership, ServiceError>)
    requires db.Valid()
    modifies db
    ensures db.Valid()
    ensures FindCommunity(old(db.communities), cid).None? ==> r == Err(CommunityNotFound)
    ensures (FindCommunity(old(db.communities), cid).Some? && HasMembership(old(db.memberships), user, cid))
              ==> r == Err(AlreadyMember)
    ensures (FindCommunity(old(db.communities), cid).Some? && !HasMembership(old(db.memberships), user, cid)
             && IsCreator(old(db.communities), cid, user))
              ==> r == Err(OwnerCannotJoin)
    ensures r.Ok? <==> FindCommunity(old(db.communities), cid).Some?
                       && !HasMembership(old(db.memberships), user, cid)
                       && !IsCreator(old(db.communities), cid, user)
    ensures r.Err? ==> unchanged(db)
    ensures r.Ok? ==> r.value == NewMembership(old(db.nextMembershipId), user, cid)
    ensures r.Ok? ==> db.Snapshot() == old(db.Snapshot()).(memberships := old(db.memberships) + [r.value],
                                                             nextMembershipId := old(db.nextMembershipId) + 1)
  {
    var community := FindCommunity(db.communities, cid);
    if community.None? {
      return Err(CommunityNotFound);
    }
    if FindMembership(db.memberships, user, cid).Some? {
      return Err(AlreadyMember);
    }
    if community.value.createdBy == Some(user) {
      return Err(OwnerCannotJoin);
    }
    var m := NewMembership(db.nextMembershipId, user, cid);
    ghost var t := db.Snapshot();
    JoinKeepsValid(t, m);
    db.memberships := db.memberships + [m];
    db.nextMembershipId := db.nextMembershipId + 1;
    assert db.Snapshot() == t.(memberships := t.memberships + [m], nextMembershipId := t.nextMembershipId + 1);
    r := Ok(m);
  }

  /** Adding the membership that `join_community` adds keeps the store's invariant. */
  lemma JoinKeepsValid(t: Tables, m: Membership)
    requires TablesValid(t)
    requires FindCommunity(t.communities, m.communityId).Some?
    requires !HasMembership(t.memberships, m.userId, m.communityId)
    requires !IsCreator(t.communities, m.communityId, m.userId)
    requires m.membershipId == t.nextMembershipId
    ensures TablesValid(t.(memberships := t.memberships + [m], nextMembershipId := t.nextMembershipId + 1))
  {
    var ms := t.memberships + [m];
    AppendKeepsKeysAscending(t.memberships, (x: Membership) => x.membershipId, t.nextMembershipId, m);
    var i := CommunityIndex(t.communities, m.communityId).value;
    KeyIsUnique(t.communities, (c: Community) => c.communityId, t.nextCommunityId, i, m.communityId);
    assert forall k :: 0 <= k < |t.memberships| ==> ms[k] == t.memberships[k];
  }

  method LeaveCommunity(db: Db, cid: int, user: UserId) returns (r: Result<bool, ServiceError>)
    requires db.Valid()
    modifies db
    ensures db.Valid()
    ensures FindCommunity(old(db.communities), cid).None? ==> r == Err(CommunityNotFound)
    ensures (FindCommunity(old(db.communities), cid).Some? && IsCreator(old(db.communities), cid, user))
              ==> r == Err(OwnerCannotLeave)
    ensures (FindCommunity(old(db.communities), cid).Some? && !IsCreator(old(db.communities), cid, user)
             && !HasMembership(old(db.memberships), user, cid))
              ==> r == Err(NotAMember)
    ensures r.Ok? <==> FindCommunity(old(db.communities), cid).Some?
                       && !IsCreator(old(db.communities), cid, user)
                       && HasMembership(old(db.memberships), user, cid)
    ensures r.Err? ==> unchanged(db)
    ensures r.Ok? ==> r.value && MembershipIndex(old(db.memberships), user, cid).Some?
    ensures r.Ok? ==> db.Snapshot() == old(db.Snapshot()).(memberships :=
                        RemoveAt(old(db.memberships), MembershipIndex(old(db.memberships), user, cid).value))
    ensures r.Ok? ==> !HasMembership(db.memberships, user, cid)
  {
    var community := FindCommunity(db.communities, cid);
    if community.None? {
      return Err(CommunityNotFound);
    }
    if community.value.createdBy == Some(user) {
      return Err(OwnerCannotLeave);
    }
    var i := MembershipIndex(db.memberships, user, cid);
    if i.None? {
      return Err(NotAMember);
    }
    LeaveKeepsValid(db.Snapshot(), i.value);
    db.memberships := RemoveAt(db.memberships, i.value);
    r := Ok(true);
  }

  /** Removing a membership row keeps the invariant, and the pair it held has no row left. */
  lemma LeaveKeepsValid(t: Tables, i: nat)
    requires TablesValid(t) && i < |t.memberships|
    ensures TablesValid(t.(memberships := RemoveAt(t.memberships, i)))
    ensures !HasMembership(RemoveAt(t.memberships, i), t.memberships[i].userId, t.memberships[i].communityId)
  {
    var ms := RemoveAt(t.memberships, i);
    RemoveKeepsKeysAscending(t.memberships, (x: Membership) => x.membershipId, t.nextMembershipId, i);
    forall a, b | 0 <= a < b < |ms|
      ensures ms[a].userId != ms[b].userId || ms[a].communityId != ms[b].communityId
    {
      var a' := if a < i then a else a + 1;
      var b' := if b < i then b else b + 1;
      assert ms[a] == t.memberships[a'] && ms[b] == t.memberships[b'];
    }
    forall k | 0 <= k < |ms|
      ensures ms[k].userId != t.memberships[i].userId || ms[k].communityId != t.memberships[i].communityId
    {
      var k' := if k < i then k else k + 1;
      assert ms[k] == t.memberships[k'];
    }
    forall c, k | 0 <= c < |t.communities| && 0 <= k < |ms| && t.communities[c].createdBy == Some(ms[k].userId)
      ensures ms[k].communityId != t.communities[c].communityId
    {
      var k' := if k < i then k else k + 1;
      assert ms[k] == t.memberships[k'];
    }
  }

  /** Joining and then leaving the same community gives back the membership table unchanged. */
  lemma {:induction false} JoinThenLeave(ms: seq<Membership>, id: int, user: UserId, cid: int)
    requires !HasMembership(ms, user, cid)
    ensures MembershipIndex(ms + [NewMembership(id, user, cid)], user, cid) == Some(|ms|)
    ensures RemoveAt(ms + [NewMembership(id, user, cid)], |ms|) == ms
  {
    var joined := ms + [NewMembership(id, user, cid)];
    assert forall k :: 0 <= k < |ms| ==> joined[k] == ms[k];
    assert joined[|ms|].userId == user && joined[|ms|].communityId == cid;
    assert joined[..|ms|] == ms;
  }

  // ---------------------------------------------------------------------------
  // is_member

  function IsMember(db: Db, cid: int, user: UserId): (r: bool)
    reads db
    ensures r <==> exists k :: 0 <= k < |db.memberships| && db.memberships[k].userId == user
                              && db.memberships[k].communityId == cid
  {
    MembershipIndex(db.memberships, user, cid).Some?
  }

  // ---------------------------------------------------------------------------
  // get_user_communities

  /** A community the user belongs to, with the role of their membership. */
  datatype JoinedCommunity = JoinedCommunity(community: Community, role: string)

  /** The inner join of the user's memberships with their communities, in membership order. */
  function UserCommunities(ms: seq<Membership>, cs: seq<Community>, user: UserId): (r: seq<JoinedCommunity>)
    ensures |r| <= |ms|
    ensures forall e :: e in r ==>
              exists k :: 0 <= k < |ms| && ms[k].userId == user && ms[k].role == e.role
                          && FindCommunity(cs, ms[k].communityId) == Some(e.community)
    decreases |ms|
  {
    if ms == [] then []
    else
      var last := ms[|ms| - 1];
      var rest := UserCommunities(ms[..|ms| - 1], cs, user);
      assert forall e :: e in rest ==>
               exists k :: 0 <= k < |ms| - 1 && ms[k].userId == user && ms[k].role == e.role
                           && FindCommunity(cs, ms[k].communityId) == Some(e.community);
      match FindCommunity(cs, last.communityId)
      case Some(c) => if last.userId == user then rest + [JoinedCommunity(c, last.role)] else rest
      case None => rest
  }

  /** Every membership of the user in an existing community shows up in the join. */
  lemma {:induction false} UserCommunitiesComplete(ms: seq<Membership>, cs: seq<Community>, user: UserId, k: nat)
    requires k < |ms| && ms[k].userId == user && FindCommunity(cs, ms[k].communityId).Some?
    ensures JoinedCommunity(FindCommunity(cs, ms[k].communityId).value, ms[k].role) in UserCommunities(ms, cs, user)
    decreases |ms|
  {
    if k < |ms| - 1 {
      UserCommunitiesComplete(ms[..|ms| - 1], cs, user, k);
    }
  }

  method GetUserCommunities(db: Db, user: UserId) returns (r: seq<JoinedCommunity>)
    ensures r == UserCommunities(db.memberships, db.communities, user)
  {
    r := [];
    var i := 0;
    while i < |db.memberships|
      invariant 0 <= i <= |db.memberships|
      invariant r == UserCommunities(db.memberships[..i], db.communities, user)
    {
      var m := db.memberships[i];
      assert db.memberships[..i + 1][..i] == db.memberships[..i];
      var c := FindCommunity(db.communities, m.communityId);
      if c.Some? && m.userId == user {
        r := r + [JoinedCommunity(c.value, m.role)];
      }
      i := i + 1;
    }
    assert db.memberships[..i] == db.memberships;
  }

  // ---------------------------------------------------------------------------
  // get_community_members

  /** One entry of the member roster. */
  datatype MemberRow = MemberRow(
    membershipId: int,
    userId: UserId,
    communityId: int,
    role: string,
    displayName: Option<string>,
    isOwner: bool)

  /** The roster entry of a membership row joined with its user. */
  function RowOf(m: Membership, u: User): MemberRow {
    MemberRow(m.membershipId, m.userId, m.communityId, m.role, DisplayName(u), false)
  }

  /**
   * The memberships of community `cid` inner-joined with `users`, in table order, before
   * the owner is marked or added.
   */
  function MemberRows(ms: seq<Membership>, users: map<UserId, User>, cid: int): (rows: seq<MemberRow>)
    ensures |rows| <= |ms|
    ensures forall i :: 0 <= i < |rows| ==> !rows[i].isOwner && rows[i].communityId == cid
    ensures forall row :: row in rows ==>
              exists m :: m in ms && m.communityId == cid && m.userId in users && row == RowOf(m, users[m.userId])
    decreases |ms|
  {
    if ms == [] then []
    else
      var last := ms[|ms| - 1];
      var rest := MemberRows(ms[..|ms| - 1], users, cid);
      assert forall m :: m in ms[..|ms| - 1] ==> m in ms;
      if last.communityId == cid && last.userId in users then rest + [RowOf(last, users[last.userId])]
      else rest
  }

  /** Every membership of the community whose user is registered has its roster entry. */
  lemma {:induction false} MemberRowsComplete(ms: seq<Membership>, users: map<UserId, User>, cid: int, k: nat)
    requires k < |ms| && ms[k].communityId == cid && ms[k].userId in users
    ensures RowOf(ms[k], users[ms[k].userId]) in MemberRows(ms, users, cid)
    decreases |ms|
  {
    if k < |ms| - 1 {
      MemberRowsComplete(ms[..|ms| - 1], users, cid, k);
    }
  }

  /** The entry added for a creator who holds no membership row. */
  function OwnerRow(owner: UserId, u: User, cid: int): MemberRow {
    MemberRow(0, owner, cid, "owner", DisplayName(u), true)
  }

  function RowIndexOf(rows: seq<MemberRow>, user: UserId): Option<nat> {
    IndexOf(rows, (row: MemberRow) => row.userId == user)
  }

  /**
   * The roster after the owner step: a creator found among the rows has their first row
   * flagged; a creator not found there but registered is put in front; otherwise the
   * rows are returned as they are.
   */
  function WithOwner(rows: seq<MemberRow>, createdBy: Option<UserId>, users: map<UserId, User>, cid: int)
    : (r: seq<MemberRow>)
    requires forall i :: 0 <= i < |rows| ==> !rows[i].isOwner
    ensures forall i :: 0 <= i < |r| && r[i].isOwner ==> createdBy == Some(r[i].userId)
    ensures forall i, j :: 0 <= i < |r| && 0 <= j < |r| && r[i].isOwner && r[j].isOwner ==> i == j
    ensures (exists i :: 0 <= i < |r| && r[i].isOwner)
        <==> createdBy.Some? && (createdBy.value in users || exists i :: 0 <= i < |rows| && rows[i].userId == createdBy.value)
  {
    match createdBy
    case None => rows
    case Some(owner) =>
      match RowIndexOf(rows, owner)
      case Some(i) =>
        var r := rows[i := rows[i].(isOwner := true)];
        assert r[i].isOwner;
        r
      case None =>
        if owner in users then
          var r := [OwnerRow(owner, users[owner], cid)] + rows;
          assert r[0].isOwner;
          r
        else rows
  }

  /**
   * In a valid store the creator never holds a membership row, so the roster never flags
   * an existing entry: the creator's entry, when there is one, is the one put in front.
   */
  lemma CreatorNeverListed(t: Tables, cid: int, c: Community)
    requires TablesValid(t) && FindCommunity(t.communities, cid) == Some(c) && c.createdBy.Some?
    ensures forall i :: 0 <= i < |MemberRows(t.memberships, t.users, cid)|
              ==> MemberRows(t.memberships, t.users, cid)[i].userId != c.createdBy.value
  {
    var rows := MemberRows(t.memberships, t.users, cid);
    var ci := CommunityIndex(t.communities, cid).value;
    forall i | 0 <= i < |rows| ensures rows[i].userId != c.createdBy.value {
      assert rows[i] in rows;
      var m :| m in t.memberships && m.communityId == cid && m.userId in t.users && rows[i] == RowOf(m, t.users[m.userId]);
      var k :| 0 <= k < |t.memberships| && t.memberships[k] == m;
      assert t.communities[ci] == c;
    }
  }

  method GetCommunityMembers(db: Db, cid: int, requester: UserId) returns (r: Result<seq<MemberRow>, ServiceError>)
    ensures FindCommunity(db.communities, cid).None? ==> r == Err(CommunityNotFound)
    ensures (FindCommunity(db.communities, cid).Some? && !MayAccess(db.communities, db.memberships, cid, requester))
              ==> r == Err(MustBeMemberToViewMembers)
    ensures r.Ok? <==> FindCommunity(db.communities, cid).Some? && MayAccess(db.communities, db.memberships, cid, requester)
    ensures r.Ok? ==> r.value == WithOwner(MemberRows(db.memberships, db.users, cid),
                                           FindCommunity(db.communities, cid).value.createdBy, db.users, cid)
  {
    var community := FindCommunity(db.communities, cid);
    if community.None? {
      return Err(CommunityNotFound);
    }
    if community.value.createdBy != Some(requester) && FindMembership(db.memberships, requester, cid).None? {
      return Err(MustBeMemberToViewMembers);
    }
    var rows := CollectMemberRows(db.memberships, db.users, cid);
    rows := MarkOwner(rows, community.value.createdBy, db.users, cid);
    r := Ok(rows);
  }

  /** The `for membership, user in memberships_with_users` loop that builds `members_data`. */
  method CollectMemberRows(ms: seq<Membership>, users: map<UserId, User>, cid: int) returns (rows: seq<MemberRow>)
    ensures rows == MemberRows(ms, users, cid)
  {
    rows := [];
    var i := 0;
    while i < |ms|
      invariant 0 <= i <= |ms|
      invariant rows == MemberRows(ms[..i], users, cid)
    {
      var m := ms[i];
      assert ms[..i + 1][..i] == ms[..i];
      if m.communityId == cid && m.userId in users {
        rows := rows + [RowOf(m, users[m.userId])];
      }
      i := i + 1;
    }
    assert ms[..i] == ms;
  }

  /** The owner step of the roster: flag the creator's first row, or insert an owner row at the front. */
  method MarkOwner(rows: seq<MemberRow>, createdBy: Option<UserId>, users: map<UserId, User>, cid: int)
    returns (r: seq<MemberRow>)
    requires forall i :: 0 <= i < |rows| ==> !rows[i].isOwner
    ensures r == WithOwner(rows, createdBy, users, cid)
  {
    r := rows;
    if createdBy.Some? {
      var owner := createdBy.value;
      var ownerInMembers := exists k :: 0 <= k < |rows| && rows[k].userId == owner;
      if !ownerInMembers {
        if owner in users {
          r := [OwnerRow(owner, users[owner], cid)] + rows;
        }
      } else {
        var j := 0;
        while j < |rows|
          invariant 0 <= j <= |rows|
          invariant r == rows
          invariant forall k :: 0 <= k < j ==> rows[k].userId != owner
        {
          if rows[j].userId == owner {
            r := rows[j := rows[j].(isOwner := true)];
            break;
          }
          j := j + 1;
        }
        assert RowIndexOf(rows, owner) == Some(j);
      }
    }
  }

  // ---------------------------------------------------------------------------
  // update_member_role

  /**
   * The requester may change roles: they created the community, or their membership row
   * holds the role "owner" or "admin".
   */
  predicate MayManageRoles(cs: seq<Community>, ms: seq<Membership>, cid: int, user: UserId): (ok: bool)
    ensures IsCreator(cs, cid, user) ==> ok
    ensures ok ==> MayAccess(cs, ms, cid, user)
    ensures !IsCreator(cs, cid, user) && FindMembership(ms, user, cid).None? ==> !ok
    ensures (!IsCreator(cs, cid, user) && FindMembership(ms, user, cid).Some?) ==>
              (ok <==> FindMembership(ms, user, cid).value.role == "owner" || FindMembership(ms, user, cid).value.role == "admin")
  {
    IsCreator(cs, cid, user)
    || (FindMembership(ms, user, cid).Some? && FindMembership(ms, user, cid).value.role in ["owner", "admin"])
  }

  /** Changing the role of a membership row keeps the store's invariant. */
  lemma RoleChangeKeepsValid(t: Tables, i: nat, role: string)
    requires TablesValid(t) && i < |t.memberships|
    ensures TablesValid(t.(memberships := t.memberships[i := t.memberships[i].(role := role)]))
  {
    var m := t.memberships[i].(role := role);
    ReplaceKeepsKeysAscending(t.memberships, (x: Membership) => x.membershipId, t.nextMembershipId, i, m);
  }

  method UpdateMemberRole(db: Db, cid: int, target: UserId, role: string, requester: UserId)
    returns (r: Result<Membership, ServiceError>)
    requires db.Valid()
    modifies db
    ensures db.Valid()
    ensures FindCommunity(old(db.communities), cid).None? ==> r == Err(CommunityNotFound)
    ensures (FindCommunity(old(db.communities), cid).Some?
             && !MayManageRoles(old(db.communities), old(db.memberships), cid, requester))
              ==> r == Err(MustBeOwnerOrAdmin)
    ensures (FindCommunity(old(db.communities), cid).Some?
             && MayManageRoles(old(db.communities), old(db.memberships), cid, requester)
             && !HasMembership(old(db.memberships), target, cid))
              ==> r == Err(TargetNotMember)
    ensures (FindCommunity(old(db.communities), cid).Some?
             && MayManageRoles(old(db.communities), old(db.memberships), cid, requester)
             && HasMembership(old(db.memberships), target, cid)
             && IsCreator(old(db.communities), cid, target))
              ==> r == Err(CannotChangeOwnerRole)
    ensures r.Ok? <==> FindCommunity(old(db.communities), cid).Some?
                       && MayManageRoles(old(db.communities), old(db.memberships), cid, requester)
                       && HasMembership(old(db.memberships), target, cid)
                       && !IsCreator(old(db.communities), cid, target)
    ensures r.Err? ==> unchanged(db)
    ensures r.Ok? ==> MembershipIndex(old(db.memberships), target, cid).Some?
    ensures r.Ok? ==>
              var i := MembershipIndex(old(db.memberships), target, cid).value;
              && r.value == old(db.memberships)[i].(role := role)
              && db.Snapshot() == old(db.Snapshot()).(memberships := old(db.memberships)[i := r.value])
  {
    var community := FindCommunity(db.communities, cid);
    if community.None? {
      return Err(CommunityNotFound);
    }
    if community.value.createdBy != Some(requester) {
      var own := FindMembership(db.memberships, requester, cid);
      if own.None? || own.value.role !in ["owner", "admin"] {
        return Err(MustBeOwnerOrAdmin);
      }
    }
    var i := MembershipIndex(db.memberships, target, cid);
    if i.None? {
      return Err(TargetNotMember);
    }
    if community.value.createdBy == Some(target) {
      return Err(CannotChangeOwnerRole);
    }
    var updated := db.memberships[i.value].(role := role);
    RoleChangeKeepsValid(db.Snapshot(), i.value, role);
    db.memberships := db.memberships[i.value := updated];
    r := Ok(updated);
  }
}
