/**
 * Communities (backend/services/communities/community_service.py): creation with its
 * default chat room, the plain listing, the detail view with member count and the
 * requester's flags, and edits and deletions restricted to the creator.
 */
module CommunityService {
  import opened Common
  import opened Paging
  import opened Models
  import opened Store
  import ChatService

  /** Some community other than `exceptId` already has this name. */
  predicate NameTaken(cs: seq<Community>, name: string, exceptId: Option<int>) {
    exists k :: 0 <= k < |cs| && cs[k].name == name && Some(cs[k].communityId) != exceptId
  }

  function NameClashIndex(cs: seq<Community>, name: string, exceptId: Option<int>): Option<nat> {
    IndexOf(cs, (c: Community) => c.name == name && Some(c.communityId) != exceptId)
  }

  /** Appending a community with a fresh name, keyed with the next serial value, keeps the invariant. */
  lemma AddCommunityKeepsValid(t: Tables, c: Community)
    requires TablesValid(t) && c.communityId == t.nextCommunityId
    requires !NameTaken(t.communities, c.name, None)
    ensures TablesValid(t.(communities := t.communities + [c], nextCommunityId := t.nextCommunityId + 1))
  {
    var cs := t.communities + [c];
    AppendKeepsKeysAscending(t.communities, (x: Community) => x.communityId, t.nextCommunityId, c);
    assert forall k :: 0 <= k < |t.communities| ==> cs[k] == t.communities[k];
  }

  /**
   * `create_community`: the requester becomes the creator; then a "General" room is made
   * (that step cannot fail here, so its `try`/`except` never fires). A name already in
   * use is refused by the unique index.
   */
  method CreateCommunity(db: Db, name: string, description: Option<string>, user: UserId)
    returns (r: Result<Community, ServiceError>)
    requires db.Valid()
    modifies db
    ensures db.Valid()
    ensures r.Err? <==> NameTaken(old(db.communities), name, None)
    ensures r.Err? ==> r.error == DuplicateCommunityName && unchanged(db)
    ensures r.Ok? ==> r.value == Community(old(db.nextCommunityId), name, description, Some(user))
    ensures r.Ok? ==> db.Snapshot() == old(db.Snapshot()).(
                        communities := old(db.communities) + [r.value],
                        nextCommunityId := old(db.nextCommunityId) + 1,
                        rooms := ChatService.WithGeneralRoom(old(db.rooms), r.value.communityId, old(db.nextChatId)),
                        nextChatId := if HasRoomTitled(old(db.rooms), r.value.communityId, "General") then old(db.nextChatId)
                                      else old(db.nextChatId) + 1)
    ensures r.Ok? ==> HasRoomTitled(db.rooms, r.value.communityId, "General")
    ensures r.Ok? ==> IsCreator(db.communities, r.value.communityId, user)
  {
    if NameClashIndex(db.communities, name, None).Some? {
      return Err(DuplicateCommunityName);
    }
    var c := Community(db.nextCommunityId, name, description, Some(user));
    ghost var t := db.Snapshot();
    AddCommunityKeepsValid(t, c);
    db.communities := db.communities + [c];
    db.nextCommunityId := db.nextCommunityId + 1;
    assert db.Snapshot() == t.(communities := t.communities + [c], nextCommunityId := t.nextCommunityId + 1);
    KeyIsUnique(db.communities, (x: Community) => x.communityId, db.nextCommunityId, |t.communities|, c.communityId);
    assert FindCommunity(db.communities, c.communityId) == Some(c);
    var _ := ChatService.CreateDefaultChatRoom(db, c.communityId);
    ChatService.DefaultRoomIdempotent(t.rooms, c.communityId, t.nextChatId, t.nextChatId);
    r := Ok(c);
  }

  /** `get_all_communities`: the communities at positions [skip, skip + limit), in table order. */
  function GetAllCommunities(db: Db, skip: int, limit: int): (r: Result<seq<Community>, ServiceError>)
    reads db
    ensures r.Err? <==> skip < 0 || limit < 0
    ensures r.Err? ==> r.error == NegativeOffsetOrLimit
    ensures r.Ok? ==> |r.value| == if skip >= |db.communities| then 0 else Min(limit, |db.communities| - skip)
    ensures r.Ok? ==> forall k :: 0 <= k < |r.value| ==> r.value[k] == db.communities[skip + k]
  {
    if skip < 0 || limit < 0 then Err(NegativeOffsetOrLimit) else Ok(Window(db.communities, skip, limit))
  }

  // ---------------------------------------------------------------------------
  // get_community_with_details

  /** `db.query(Membership).filter(Membership.community_id == cid).count()` */
  function MembershipCount(ms: seq<Membership>, cid: int): (n: nat)
    ensures n <= |ms|
    decreases |ms|
  {
    if ms == [] then 0
    else MembershipCount(ms[..|ms| - 1], cid) + (if ms[|ms| - 1].communityId == cid then 1 else 0)
  }

  /** The users holding a membership row in the community. */
  ghost function Members(ms: seq<Membership>, cid: int): set<UserId> {
    set k | 0 <= k < |ms| && ms[k].communityId == cid :: ms[k].userId
  }

  /** With one membership row per (user, community), the row count is the number of members. */
  lemma {:induction false} MembershipCountIsMembers(ms: seq<Membership>, cid: int)
    requires UniqueMemberships(ms)
    ensures MembershipCount(ms, cid) == |Members(ms, cid)|
    decreases |ms|
  {
    if ms != [] {
      var init, last := ms[..|ms| - 1], ms[|ms| - 1];
      assert forall k :: 0 <= k < |init| ==> init[k] == ms[k];
      MembershipCountIsMembers(init, cid);
      var all, before := Members(ms, cid), Members(init, cid);
      forall u | u in all ensures u in before || (last.communityId == cid && u == last.userId) {
        var k :| 0 <= k < |ms| && ms[k].communityId == cid && ms[k].userId == u;
        if k < |init| {
          assert init[k] == ms[k];
        }
      }
      forall u | u in before ensures u in all && (last.communityId != cid || u != last.userId) {
        var k :| 0 <= k < |init| && init[k].communityId == cid && init[k].userId == u;
        assert ms[k] == init[k];
      }
      if last.communityId == cid {
        assert last.userId in all;
        assert all == before + {last.userId};
      } else {
        assert all == before;
      }
    }
  }

  /** The detail view: the community with `member_count`, `is_member` and `is_owner`. */
  datatype Details = Details(community: Community, memberCount: nat, isMember: bool, isOwner: bool)

  function GetCommunityWithDetails(db: Db, cid: int, user: Option<UserId>): (r: Option<Details>)
    reads db
    ensures r.None? <==> FindCommunity(db.communities, cid).None?
    ensures r.Some? ==> r.value.community == FindCommunity(db.communities, cid).value
    ensures r.Some? ==> (r.value.memberCount ==
                         MembershipCount(db.memberships, cid)
                         + (if r.value.community.createdBy.Some?
                               && !HasMembership(db.memberships, r.value.community.createdBy.value, cid)
                            then 1 else 0))
    ensures r.Some? ==> (r.value.isOwner <==> user.Some? && r.value.community.createdBy == user)
    ensures r.Some? ==> (r.value.isMember <==> user.Some? && MayAccess(db.communities, db.memberships, cid, user.value))
    ensures r.Some? && r.value.isOwner ==> r.value.isMember
  {
    match FindCommunity(db.communities, cid)
    case None => None
    case Some(c) =>
      var count := MembershipCount(db.memberships, cid);
      var ownerHasMembership := c.createdBy.Some? && FindMembership(db.memberships, c.createdBy.value, cid).Some?;
      var memberCount := count + (if c.createdBy.Some? && !ownerHasMembership then 1 else 0);
      var isOwner := user.Some? && c.createdBy == user;
      var isMember := if isOwner then true else user.Some? && FindMembership(db.memberships, user.value, cid).Some?;
      Some(Details(c, memberCount, isMember, isOwner))
  }

  /**
   * In a valid store `member_count` is the number of distinct people in the community:
   * the users with a membership row together with the creator, if there is one (who,
   * in a valid store, never holds a row of their own).
   */
  lemma MemberCountIsPeople(db: Db, cid: int, user: Option<UserId>)
    requires db.Valid()
    requires FindCommunity(db.communities, cid).Some?
    ensures var c := FindCommunity(db.communities, cid).value;
            GetCommunityWithDetails(db, cid, user).value.memberCount
            == |Members(db.memberships, cid) + (if c.createdBy.Some? then {c.createdBy.value} else {})|
  {
    var c := FindCommunity(db.communities, cid).value;
    MembershipCountIsMembers(db.memberships, cid);
    if c.createdBy.Some? {
      var owner := c.createdBy.value;
      var i := CommunityIndex(db.communities, cid).value;
      assert db.communities[i] == c;
      assert forall k :: 0 <= k < |db.memberships| && db.memberships[k].communityId == cid
               ==> db.memberships[k].userId != owner;
      assert owner !in Members(db.memberships, cid);
    }
  }

  // ---------------------------------------------------------------------------
  // update_community / delete_community

  /** The body of an update request: each field left out, or given (possibly as `null`). */
  datatype CommunityUpdate = CommunityUpdate(name: Field<Option<string>>, description: Field<Option<string>>)

  /** `name` is NOT NULL: an update that sets it to `null` is refused by the database. */
  predicate Storable(u: CommunityUpdate) {
    u.name != Set(None)
  }

  /** The community after `setattr` of every field the request gives. */
  function ApplyCommunityUpdate(c: Community, u: CommunityUpdate): (d: Community)
    requires Storable(u)
    ensures d.communityId == c.communityId && d.createdBy == c.createdBy
    ensures d.name == (if u.name.Set? then u.name.value.value else c.name)
    ensures d.description == Apply(u.description, c.description)
  {
    var name := match u.name
      case Set(Some(n)) => n
      case _ => c.name;
    c.(name := name, description := Apply(u.description, c.description))
  }

  /** An update that gives no field changes nothing, and applying an update twice is applying it once. */
  lemma CommunityUpdateIdempotent(c: Community, u: CommunityUpdate)
    requires Storable(u)
    ensures ApplyCommunityUpdate(c, CommunityUpdate(Unset, Unset)) == c
    ensures ApplyCommunityUpdate(ApplyCommunityUpdate(c, u), u) == ApplyCommunityUpdate(c, u)
  {
  }

  /** The name an update would give, which the unique index checks. */
  function NewName(c: Community, u: CommunityUpdate): string
    requires Storable(u)
  {
    ApplyCommunityUpdate(c, u).name
  }

  /** Replacing a community by its updated row keeps the invariant when the new name is free. */
  lemma ReplaceCommunityKeepsValid(t: Tables, i: nat, d: Community)
    requires TablesValid(t) && i < |t.communities|
    requires d.communityId == t.communities[i].communityId && d.createdBy == t.communities[i].createdBy
    requires !NameTaken(t.communities, d.name, Some(d.communityId))
    ensures TablesValid(t.(communities := t.communities[i := d]))
  {
    var cs := t.communities[i := d];
    ReplaceKeepsKeysAscending(t.communities, (x: Community) => x.communityId, t.nextCommunityId, i, d);
    KeyIsUnique(t.communities, (x: Community) => x.communityId, t.nextCommunityId, i, d.communityId);
    forall a, b | 0 <= a < b < |cs| ensures cs[a].name != cs[b].name {
      if a == i {
        assert t.communities[b].communityId != d.communityId;
      } else if b == i {
        assert t.communities[a].communityId != d.communityId;
      }
    }
  }

  method UpdateCommunity(db: Db, cid: int, u: CommunityUpdate, user: UserId) returns (r: Result<Option<Community>, ServiceError>)
    requires db.Valid()
    modifies db
    ensures db.Valid()
    ensures FindCommunity(old(db.communities), cid).None? ==> r == Ok(None)
    ensures (FindCommunity(old(db.communities), cid).Some? && !IsCreator(old(db.communities), cid, user))
              ==> r == Err(NotCommunityCreatorEdit)
    ensures (IsCreator(old(db.communities), cid, user) && !Storable(u)) ==> r == Err(NullInRequiredColumn)
    ensures (IsCreator(old(db.communities), cid, user) && Storable(u)
             && NameTaken(old(db.communities), NewName(FindCommunity(old(db.communities), cid).value, u), Some(cid)))
              ==> r == Err(DuplicateCommunityName)
    ensures r.Ok? && r.value.Some? <==>
              IsCreator(old(db.communities), cid, user) && Storable(u)
              && !NameTaken(old(db.communities), NewName(FindCommunity(old(db.communities), cid).value, u), Some(cid))
    ensures !(r.Ok? && r.value.Some?) ==> unchanged(db)
    ensures (r.Ok? && r.value.Some?) ==> r.value.value == ApplyCommunityUpdate(FindCommunity(old(db.communities), cid).value, u)
    ensures (r.Ok? && r.value.Some?) ==>
              db.Snapshot() == old(db.Snapshot()).(communities :=
                old(db.communities)[CommunityIndex(old(db.communities), cid).value := r.value.value])
  {
    var i := CommunityIndex(db.communities, cid);
    if i.None? {
      return Ok(None);
    }
    var c := db.communities[i.value];
    if c.createdBy != Some(user) {
      return Err(NotCommunityCreatorEdit);
    }
    if !Storable(u) {
      return Err(NullInRequiredColumn);
    }
    var updated := ApplyCommunityUpdate(c, u);
    if NameClashIndex(db.communities, updated.name, Some(cid)).Some? {
      return Err(DuplicateCommunityName);
    }
    ghost var t := db.Snapshot();
    ReplaceCommunityKeepsValid(t, i.value, updated);
    db.communities := db.communities[i.value := updated];
    assert db.Snapshot() == t.(communities := t.communities[i.value := updated]);
    r := Ok(Some(updated));
  }

  /** Removing a community row keeps the invariant. */
  lemma RemoveCommunityKeepsValid(t: Tables, i: nat)
    requires TablesValid(t) && i < |t.communities|
    ensures TablesValid(t.(communities := RemoveAt(t.communities, i)))
  {
    var cs := RemoveAt(t.communities, i);
    RemoveKeepsKeysAscending(t.communities, (x: Community) => x.communityId, t.nextCommunityId, i);
    forall a, b | 0 <= a < b < |cs| ensures cs[a].name != cs[b].name {
      var a' := if a < i then a else a + 1;
      var b' := if b < i then b else b + 1;
      assert cs[a] == t.communities[a'] && cs[b] == t.communities[b'];
    }
    forall j, k | 0 <= j < |cs| && 0 <= k < |t.memberships| && cs[j].createdBy == Some(t.memberships[k].userId)
      ensures t.memberships[k].communityId != cs[j].communityId
    {
      var j' := if j < i then j else j + 1;
      assert cs[j] == t.communities[j'];
    }
  }

  method DeleteCommunity(db: Db, cid: int, user: UserId) returns (r: Result<Option<bool>, ServiceError>)
    requires db.Valid()
    modifies db
    ensures db.Valid()
    ensures FindCommunity(old(db.communities), cid).None? ==> r == Ok(None)
    ensures (FindCommunity(old(db.communities), cid).Some? && !IsCreator(old(db.communities), cid, user))
              ==> r == Err(NotCommunityCreatorDelete)
    ensures r == Ok(Some(true)) <==> IsCreator(old(db.communities), cid, user)
    ensures r != Ok(Some(true)) ==> unchanged(db)
    ensures r == Ok(Some(true)) ==>
              db.Snapshot() == old(db.Snapshot()).(communities :=
                RemoveAt(old(db.communities), CommunityIndex(old(db.communities), cid).value))
    ensures r == Ok(Some(true)) ==> FindCommunity(db.communities, cid).None?
  {
    var i := CommunityIndex(db.communities, cid);
    if i.None? {
      return Ok(None);
    }
    if db.communities[i.value].createdBy != Some(user) {
      return Err(NotCommunityCreatorDelete);
    }
    ghost var t := db.Snapshot();
    RemoveCommunityKeepsValid(t, i.value);
    RemovedKeyIsGone(db.communities, (x: Community) => x.communityId, db.nextCommunityId, i.value);
    db.communities := RemoveAt(db.communities, i.value);
    assert db.Snapshot() == t.(communities := RemoveAt(t.communities, i.value));
    r := Ok(Some(true));
  }
}
