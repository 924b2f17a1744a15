/**
 * The member roster panel (frontend/src/components/MembersSection.jsx): who is offered
 * the role controls, how roles are shown, and the local roster update after a role
 * change. The server's reply to the role update is a parameter.
 */
module MembersSection {
  import opened Common
  import opened Models
  import opened Store
  import opened MembershipService

  /** `canManageRoles`: the viewer owns the community or holds the role 'admin'. */
  predicate CanManageRoles(viewerIsOwner: bool, viewerRole: Option<string>): (ok: bool)
    ensures viewerIsOwner ==> ok
    ensures !viewerIsOwner && viewerRole == Some("admin") ==> ok
    ensures !viewerIsOwner && viewerRole != Some("admin") ==> !ok
  {
    viewerIsOwner || viewerRole == Some("admin")
  }

  /** The role a user's membership row gives them in a community, as the panel receives it. */
  function RoleIn(ms: seq<Membership>, user: UserId, cid: int): Option<string> {
    match FindMembership(ms, user, cid)
    case Some(m) => Some(m.role)
    case None => None
  }

  /**
   * The panel offers the role controls only to viewers the server lets change roles: when
   * the panel is told the viewer's true ownership and role, `canManageRoles` implies the
   * check of `update_member_role`. The converse fails for a member whose role is 'owner'.
   */
  lemma PanelGateImpliesServerGate(cs: seq<Community>, ms: seq<Membership>, cid: int, user: UserId)
    ensures CanManageRoles(IsCreator(cs, cid, user), RoleIn(ms, user, cid)) ==> MayManageRoles(cs, ms, cid, user)
  {
    if !IsCreator(cs, cid, user) && RoleIn(ms, user, cid) == Some("admin") {
      assert FindMembership(ms, user, cid).value.role == "admin";
    }
  }

  /** The choices of the role dropdown: 'admin' only for the community's owner. */
  function RoleOptions(viewerIsOwner: bool): (opts: seq<string>)
    ensures "member" in opts && "moderator" in opts
    ensures "admin" in opts <==> viewerIsOwner
    ensures "owner" !in opts
  {
    ["member", "moderator"] + (if viewerIsOwner then ["admin"] else [])
  }

  /** The roles offered on one roster entry: none unless the viewer may manage roles and the entry is not the owner's. */
  function OfferedRoles(viewerIsOwner: bool, viewerRole: Option<string>, m: MemberRow): (opts: seq<string>)
    ensures opts != [] <==> CanManageRoles(viewerIsOwner, viewerRole) && !m.isOwner
    ensures "admin" in opts ==> viewerIsOwner
    ensures "owner" !in opts
  {
    if CanManageRoles(viewerIsOwner, viewerRole) && !m.isOwner then RoleOptions(viewerIsOwner) else []
  }

  /**
   * On the roster the server builds from a valid store, the entry of the community's
   * creator is never offered a role change, whoever is looking.
   */
  lemma CreatorNeverOfferedRoles(t: Tables, cid: int, c: Community, viewerIsOwner: bool, viewerRole: Option<string>)
    requires TablesValid(t) && FindCommunity(t.communities, cid) == Some(c) && c.createdBy.Some?
    ensures var roster := WithOwner(MemberRows(t.memberships, t.users, cid), c.createdBy, t.users, cid);
            forall k :: 0 <= k < |roster| && roster[k].userId == c.createdBy.value
              ==> OfferedRoles(viewerIsOwner, viewerRole, roster[k]) == []
  {
    var rows := MemberRows(t.memberships, t.users, cid);
    CreatorNeverListed(t, cid, c);
    var owner := c.createdBy.value;
    assert RowIndexOf(rows, owner).None?;
    var roster := WithOwner(rows, c.createdBy, t.users, cid);
    if owner in t.users {
      assert roster == [OwnerRow(owner, t.users[owner], cid)] + rows;
      forall k | 1 <= k < |roster| ensures roster[k].userId != owner {
        assert roster[k] == rows[k - 1];
      }
    } else {
      assert roster == rows;
    }
  }

  const OwnerBadge := "bg-purple-100 text-purple-800 border-purple-200"
  const AdminBadge := "bg-red-100 text-red-800 border-red-200"
  const ModeratorBadge := "bg-orange-100 text-orange-800 border-orange-200"
  const DefaultBadge := "bg-neutral-100 text-neutral-800 border-neutral-200"

  /** `getRoleBadgeColor`: the owner's colour overrides the role's, and no one else gets it. */
  function RoleBadgeColor(role: string, isOwner: bool): (color: string)
    ensures color == OwnerBadge <==> isOwner
    ensures !isOwner ==> (color == AdminBadge <==> role == "admin")
    ensures !isOwner ==> (color == ModeratorBadge <==> role == "moderator")
    ensures !isOwner && role != "admin" && role != "moderator" ==> color == DefaultBadge
  {
    if isOwner then OwnerBadge
    else if role == "admin" then AdminBadge
    else if role == "moderator" then ModeratorBadge
    else DefaultBadge
  }

  /** `displayRole`: 'Owner' for the owner's entry, the stored role otherwise. */
  function DisplayRole(m: MemberRow): (shown: string)
    ensures m.isOwner ==> shown == "Owner"
    ensures !m.isOwner ==> shown == m.role
  {
    if m.isOwner then "Owner" else m.role
  }

  /** The roster after `prev.map(...)`: the entries of `target` get the new role, nothing else changes. */
  function WithRole(members: seq<MemberRow>, target: UserId, newRole: string): (r: seq<MemberRow>)
    ensures |r| == |members|
    ensures forall k :: 0 <= k < |members| ==>
              r[k] == if members[k].userId == target then members[k].(role := newRole) else members[k]
    decreases |members|
  {
    if members == [] then []
    else
      var m := members[|members| - 1];
      WithRole(members[..|members| - 1], target, newRole) + [if m.userId == target then m.(role := newRole) else m]
  }

  /**
   * The local update keeps every entry's identity and owner flag, gives the target the new
   * role, and repeating it changes nothing more.
   */
  lemma WithRoleKeepsRoster(members: seq<MemberRow>, target: UserId, newRole: string)
    ensures forall k :: 0 <= k < |members| ==>
              var r := WithRole(members, target, newRole)[k];
              r.userId == members[k].userId && r.isOwner == members[k].isOwner
              && r.membershipId == members[k].membershipId && r.displayName == members[k].displayName
              && (r.userId == target ==> r.role == newRole)
              && (r.userId != target ==> r.role == members[k].role)
    ensures WithRole(WithRole(members, target, newRole), target, newRole) == WithRole(members, target, newRole)
  {
  }

  /** The panel's state: the roster, the error shown, and which entries have a role update in flight. */
  class MembersSection {
    const communityId: int
    const viewerIsOwner: bool
    const viewerRole: Option<string>
    var members: seq<MemberRow>
    var error: Option<string>
    var updatingRoles: map<UserId, bool>

    constructor (communityId: int, viewerIsOwner: bool, viewerRole: Option<string>)
      ensures this.communityId == communityId && this.viewerIsOwner == viewerIsOwner && this.viewerRole == viewerRole
      ensures members == [] && error == None && updatingRoles == map[]
    {
      this.communityId := communityId;
      this.viewerIsOwner := viewerIsOwner;
      this.viewerRole := viewerRole;
      members := [];
      error := None;
      updatingRoles := map[];
    }

    /** `updatingRoles[user_id]`: whether the entry's role update is in flight. */
    predicate IsUpdating(user: UserId)
      reads this
    {
      user in updatingRoles && updatingRoles[user]
    }

    /** The first half of `handleRoleChange`, up to the request: mark the entry as updating. */
    method BeginRoleChange(target: UserId)
      modifies this
      ensures updatingRoles == old(updatingRoles)[target := true]
      ensures members == old(members) && error == old(error)
      ensures IsUpdating(target)
    {
      updatingRoles := updatingRoles[target := true];
    }

    /**
     * The second half, once the server has answered: on success the roster takes the new
     * role, on failure the error is shown; either way the entry is no longer updating.
     */
    method FinishRoleChange(target: UserId, newRole: string, reply: Result<(), Option<string>>)
      modifies this
      ensures reply.Ok? ==> members == WithRole(old(members), target, newRole) && error == old(error)
      ensures reply.Err? ==> members == old(members) && error == Some(OrElse(reply.error, "Failed to update member role"))
      ensures updatingRoles == old(updatingRoles)[target := false]
      ensures !IsUpdating(target)
    {
      if reply.Ok? {
        members := WithRole(members, target, newRole);
      } else {
        error := Some(OrElse(reply.error, "Failed to update member role"));
      }
      updatingRoles := updatingRoles[target := false];
    }

    /** `handleRoleChange` from start to end, given the server's reply. */
    method HandleRoleChange(target: UserId, newRole: string, reply: Result<(), Option<string>>)
      modifies this
      ensures reply.Ok? ==> members == WithRole(old(members), target, newRole) && error == old(error)
      ensures reply.Err? ==> members == old(members) && error == Some(OrElse(reply.error, "Failed to update member role"))
      ensures updatingRoles == old(updatingRoles)[target := false]
      ensures forall u :: u != target ==> IsUpdating(u) == old(IsUpdating(u))
    {
      BeginRoleChange(target);
      FinishRoleChange(target, newRole, reply);
    }
  }
}
