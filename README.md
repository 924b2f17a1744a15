# Community service layer, in Dafny

This project models the business rules of a small community platform (users create
communities, join them, post, comment, like posts and chat in rooms) and proves them.
The backend is a set of Python services over a relational database. The model replaces
the database with an in-memory store, the class `Store.Db`. It has one sequence per
table, in insertion order, and one serial-id counter per table. Each service function
becomes a Dafny method or function on that store, and every `raise Exception(...)`
becomes an `Err` result under which the store is unchanged. The store invariant
`Store.TablesValid` holds before and after every operation. It says:

- primary keys are ascending and below their counter;
- there is at most one membership per (user, community) and one like per (post, user);
- room titles are unique within a community, and community names are unique;
- a community's creator holds no membership row in it.

The access rule that recurs in almost every service — "creator of the community, or
holder of a membership row" — is the single predicate `Store.MayAccess`.

Three frontend components are modelled as classes over their React state:

- the member roster (`MembersSection`);
- the chat input (`MessageForm`);
- the new-post dialog (`CreatePostModal`).

Each handler is split at its `await` into a `Begin…` and a `Finish…` method, so the
in-flight state is visible. The server's answer is a parameter. The callbacks the
handler calls are out-parameters. JavaScript's `String.prototype.trim` is modelled in
`JsString`.

Modules and files:

| file | module | models |
|---|---|---|
| common.dfy | `Common`, `Paging` | Option/Result, Python and JavaScript truthiness; `OFFSET`/`LIMIT` windows, `has_more`, `page` |
| models.dfy | `Models` | the records of backend/models.py and the service exceptions |
| store.dfy | `Store` | the store, its lookups, the access rule and the invariant |
| membership_service.dfy | `MembershipService` | join, leave, membership test, user's communities, roster, role change |
| like_service.dfy | `LikeService` | like toggling, counts, like status |
| chat_service.dfy | `ChatService` | rooms, the default "General" room, sending and listing messages |
| listing.dfy | `Listing` | the `is_author` / author-name annotation shared by the post and comment listings |
| post_service.dfy | `PostService` | posts |
| comment_service.dfy | `CommentService` | comments |
| community_service.dfy | `CommunityService` | communities and their details |
| js_string.dfy | `JsString` | `trim` |
| members_section.dfy | `MembersSection` | role gates, badges, local role update |
| message_form.dfy | `MessageForm` | chat payload and form state |
| create_post_modal.dfy | `CreatePostModal` | post payload, validation and dialog state |

Where the code and its design description differ, the model follows the code:

- `get_community_members` inserts the owner row only when the creator's users row exists
  (backend/services/memberships/membership_service.py:121-141). Without that row the
  roster has no owner row (`MembershipService.WithOwner`).
- The post and comment listings count and page only rows whose author has a users row.
  This is the inner join at backend/services/posts/post_service.py:59-66 and
  backend/services/comments/comment_service.py:61-68 (`PostService.CommunityPosts`,
  `CommentService.PostComments`). The chat listing joins outer and counts every message.
- `create_default_chat_room`'s failure branch in `create_community` cannot be taken in
  the model: adding a room cannot fail once the store is abstracted
  (backend/services/communities/community_service.py:23-28).

## Model

| member | source | states |
|---|---|---|
| Common.Or | backend/services/chat/chat_service.py:126 | Python `a or b` on optional strings: `a` when it is neither None nor empty, else `b` |
| Common.OrElse | frontend/src/components/MessageForm.jsx:38 | JavaScript `err.detail \|\| fallback`: the detail when it is a non-empty string, else the fallback |
| Paging.Window | backend/services/communities/community_service.py:31-32 | `OFFSET skip LIMIT limit` returns rows skip, skip+1, … and holds min(limit, rows left) rows |
| Paging.PageNumber | backend/services/posts/post_service.py:75 | `page` is at least 1, exactly 1 when limit is 0, and when limit > 0 the skip lies inside the page it names |
| Paging.HasMoreIffRowsRemain | backend/services/posts/post_service.py:74 | `has_more` holds exactly when a row exists past the window |
| Paging.PageOfAlignedSkip | backend/services/comments/comment_service.py:77 | page k+1 is the page whose skip is k·limit |
| Paging.ConsecutiveWindows | backend/services/posts/post_service.py:59-66 | two consecutive pages, skip then skip+limit, concatenate to the window of twice the limit |
| Paging.NewestFirstPage | backend/services/chat/chat_service.py:119-122 | the window of a newest-first ordering is a reversed contiguous slice of the oldest-first rows |
| Paging.LatestRun | backend/services/chat/chat_service.py:122-125 | the newest-first page, turned back to oldest-first, is a contiguous run of the oldest-first rows |
| Models.DisplayName | backend/services/chat/chat_service.py:126 | a user's shown name is display_name, else username, else email |
| Store.FindCommunity | backend/services/communities/community_service.py:35-36 | the community with that id if one exists (it is in the table), None exactly when no row has the id |
| Store.FindPost | backend/services/posts/post_service.py:86-87 | the post with that id if one exists, None exactly when no row has the id |
| Store.FindRoom | backend/services/chat/chat_service.py:71-73 | the room with that id if one exists, None exactly when no row has the id |
| Store.FindMembership | backend/services/memberships/membership_service.py:16-22 | the membership of (user, community) if one exists, None exactly when none does |
| Store.MayAccess | backend/services/likes/like_service.py:15-25 | a user may act in a community exactly when the community's row names them as creator or a membership row links them to it |
| Store.Db.constructor | backend/models.py:8-123 | an empty store over the registered users satisfies the invariant, with every serial starting at 1 |
| Store.KeyIsUnique | backend/models.py:32 | in a table with ascending serial keys, a key identifies one row |
| Store.AppendKeepsKeysAscending | backend/models.py:47 | inserting a row with the next serial keeps the keys ascending |
| Store.RemoveKeepsKeysAscending | backend/models.py:60 | deleting a row keeps the keys ascending |
| Store.RemovedKeyIsGone | backend/services/posts/post_service.py:118-119 | after deleting a row no row has its key |
| Store.FilterKeepsKeysAscending | backend/services/chat/chat_service.py:117-119 | a filtered query keeps the rows in serial order |
| Store.ReplaceKeepsKeysAscending | backend/services/posts/post_service.py:98-102 | changing a row's non-key fields keeps the keys ascending |
| MembershipService.JoinCommunity | backend/services/memberships/membership_service.py:11-38 | missing community, existing membership and joining one's own community each fail with the store unchanged; otherwise exactly one row (user, community, "member") is added, and the invariant is kept |
| MembershipService.JoinKeepsValid | backend/services/memberships/membership_service.py:27-35 | adding a membership for a pair without one, by a non-creator, keeps the invariant |
| MembershipService.LeaveCommunity | backend/services/memberships/membership_service.py:41-61 | missing community, the creator, and no membership each fail with the store unchanged; otherwise exactly that row is removed, afterwards the user is no member |
| MembershipService.LeaveKeepsValid | backend/services/memberships/membership_service.py:57-59 | removing a membership keeps the invariant |
| MembershipService.JoinThenLeave | backend/services/memberships/membership_service.py:11-61 | a successful join followed by a leave restores the memberships table |
| MembershipService.IsMember | backend/services/memberships/membership_service.py:64-69 | true exactly when a membership row for (user, community) exists |
| MembershipService.UserCommunities | backend/services/memberships/membership_service.py:72-83 | the user's communities are communities the user holds a membership in |
| MembershipService.UserCommunitiesComplete | backend/services/memberships/membership_service.py:72-83 | every existing community the user holds a membership in is listed |
| MembershipService.GetUserCommunities | backend/services/memberships/membership_service.py:72-83 | the loop returns exactly the user's communities |
| MembershipService.MemberRows | backend/services/memberships/membership_service.py:102-119 | one row per membership of the community whose user exists, carrying that membership's fields and the user's name, none flagged as owner |
| MembershipService.MemberRowsComplete | backend/services/memberships/membership_service.py:102-119 | every membership of the community with a users row has its row |
| MembershipService.WithOwner | backend/services/memberships/membership_service.py:121-141 | only the creator's row is flagged, at most one row is flagged, and a flagged row exists exactly when the community has a creator who is registered or listed |
| MembershipService.CreatorNeverListed | backend/services/memberships/membership_service.py:121-141 | in a valid store the creator never appears among the membership rows, so the owner row is always the inserted one |
| MembershipService.GetCommunityMembers | backend/services/memberships/membership_service.py:86-143 | missing community and a non-member requester fail; otherwise the roster is the member rows with the owner step applied |
| MembershipService.CollectMemberRows | backend/services/memberships/membership_service.py:108-119 | the loop builds exactly the member rows |
| MembershipService.MarkOwner | backend/services/memberships/membership_service.py:121-141 | the in-place owner step yields the owner-step roster |
| MembershipService.MayManageRoles | backend/services/memberships/membership_service.py:151-160 | the creator may always change roles; anyone else exactly when their membership role is 'owner' or 'admin', never without a membership; whoever may change roles may also access the community |
| MembershipService.RoleChangeKeepsValid | backend/services/memberships/membership_service.py:170-173 | changing a role field keeps the invariant |
| MembershipService.UpdateMemberRole | backend/services/memberships/membership_service.py:146-178 | missing community, a requester who is neither creator nor owner/admin, a target without membership, and the creator as target each fail unchanged; otherwise only the target's role changes |
| LikeService.LikeCount | backend/services/likes/like_service.py:36 | the number of likes on a post: at most the table size, zero exactly when the post has no like |
| LikeService.LikeCountIsLikers | backend/services/likes/like_service.py:61-62 | in a valid store the count is the number of distinct users who like the post |
| LikeService.LikeCountConcat | backend/services/likes/like_service.py:52 | the count over two tables is the sum of their counts |
| LikeService.ToggleCount | backend/services/likes/like_service.py:32-58 | a toggle moves the post's count by exactly one (down when liked, up otherwise) and leaves other posts' counts alone |
| LikeService.ToggleFlips | backend/services/likes/like_service.py:27-58 | a toggle keeps one like per pair, flips the liked status of its pair and no other |
| LikeService.ToggleTwice | backend/services/likes/like_service.py:32-58 | two toggles by the same user restore every pair's liked status and every post's count |
| LikeService.ToggleLike | backend/services/likes/like_service.py:10-58 | missing post and non-member fail unchanged; otherwise the like is removed or added, `is_liked` is the new status, `like_count` the post's new count and the message matches |
| LikeService.ToggleKeepsValid | backend/services/likes/like_service.py:32-50 | toggling keeps the invariant |
| LikeService.GetPostLikesCount | backend/services/likes/like_service.py:61-62 | the count equals the number of users who like the post |
| LikeService.IsPostLikedByUser | backend/services/likes/like_service.py:65-74 | false without a user, otherwise true exactly when the user likes the post |
| ChatService.AddRoomKeepsValid | backend/services/chat/chat_service.py:36-46 | adding a room whose title is free in its community keeps the invariant |
| ChatService.CreateChatRoom | backend/services/chat/chat_service.py:12-46 | missing community, non-member and a taken title each fail unchanged; otherwise exactly one room with the title and community is added |
| ChatService.GetCommunityChatRooms | backend/services/chat/chat_service.py:49-67 | missing community and non-member fail; otherwise exactly the community's rooms |
| ChatService.DefaultRoomIdempotent | backend/services/chat/chat_service.py:139-157 | afterwards a "General" room exists, and applying the step twice is applying it once |
| ChatService.CreateDefaultChatRoom | backend/services/chat/chat_service.py:139-157 | returns the existing "General" room unchanged, or adds exactly one |
| ChatService.StoredType | backend/services/chat/chat_service.py:90 | the stored type is never empty: the requested one when that is truthy, 'text' when it is None or empty |
| ChatService.SendMessage | backend/services/chat/chat_service.py:70-97 | missing room, a room whose community row is gone, and non-member fail unchanged; otherwise exactly one message is appended with the requester as sender and the stored type |
| ChatService.AddMessageKeepsValid | backend/services/chat/chat_service.py:86-95 | appending a message keeps the invariant |
| ChatService.ViewOf | backend/services/chat/chat_service.py:126-127 | `is_sender` holds exactly when the requester sent it; the name is the sender's shown name or "Unknown User" |
| ChatService.ViewsOf | backend/services/chat/chat_service.py:124-128 | every message annotated, same order |
| ChatService.RoomMessagesInSendOrder | backend/services/chat/chat_service.py:117-119 | a room's messages are in the order they were sent |
| ChatService.AnnotateOldestFirst | backend/services/chat/chat_service.py:124-128 | walking the newest-first page backwards yields the page annotated in oldest-first order |
| ChatService.GetChatMessages | backend/services/chat/chat_service.py:100-136 | missing room, non-member and a negative offset or limit fail; otherwise `total_count` counts the room's messages, `has_more` is skip + limit < total, and the page is the latest run of the room's messages annotated |
| Listing.AuthoredOf | backend/services/posts/post_service.py:69-72 | `is_author` holds exactly when a requester is given and wrote the row; the name is the author's shown name |
| Listing.AuthoredRows | backend/services/comments/comment_service.py:70-74 | every row annotated, same order |
| Listing.AnnotateAuthors | backend/services/posts/post_service.py:69-72 | the loop yields exactly the annotated rows |
| Listing.NewestFirstDescending | backend/services/posts/post_service.py:63-66 | a page of the newest-first ordering has strictly descending ids |
| PostService.CreatePost | backend/services/posts/post_service.py:12-40 | missing community and non-member fail unchanged; otherwise exactly one post with the given fields and the requester as author is added |
| PostService.AddPostKeepsValid | backend/services/posts/post_service.py:27-37 | appending a post keeps the invariant |
| PostService.CommunityPosts | backend/services/posts/post_service.py:59-62 | exactly the community's posts whose author is registered |
| PostService.NewestPostsPage | backend/services/posts/post_service.py:59-66 | a page holds posts of the community, newest first |
| PostService.GetCommunityPosts | backend/services/posts/post_service.py:43-83 | missing community, a non-member requester (only when one is given) and a negative offset or limit fail; otherwise the total, `has_more`, `page`, and the annotated newest-first window in descending id order |
| PostService.ApplyPostUpdate | backend/services/posts/post_service.py:97-100 | only the fields the request gives change; ids and author never change |
| PostService.PostUpdateIdempotent | backend/services/posts/post_service.py:97-100 | an empty update changes nothing, and applying an update twice is applying it once |
| PostService.UpdatePost | backend/services/posts/post_service.py:90-106 | None for a missing post; a non-author fails; a `null` content fails; otherwise only that post is replaced by the updated one |
| PostService.DeletePost | backend/services/posts/post_service.py:109-122 | None for a missing post; a non-author fails; otherwise exactly that post is removed and no post keeps its id |
| CommentService.AddCommentKeepsValid | backend/services/comments/comment_service.py:29-37 | appending a comment keeps the invariant |
| CommentService.CreateComment | backend/services/comments/comment_service.py:12-40 | missing post and non-member of the post's community fail unchanged; otherwise exactly one comment with the content and the requester as author is added |
| CommentService.PostComments | backend/services/comments/comment_service.py:61-64 | exactly the post's comments whose author is registered |
| CommentService.NewestCommentsPage | backend/services/comments/comment_service.py:61-68 | a page holds comments of the post, newest first |
| CommentService.GetPostComments | backend/services/comments/comment_service.py:43-85 | missing post, a non-member requester (only when one is given) and a negative offset or limit fail; otherwise the total, `has_more`, `page`, and the annotated newest-first window |
| CommentService.FindComment | backend/services/comments/comment_service.py:89 | the comment with that id if one exists, None exactly when none has it |
| CommentService.UpdateComment | backend/services/comments/comment_service.py:88-105 | None for a missing comment; a non-author fails; otherwise only that comment's content changes |
| CommentService.DeleteComment | backend/services/comments/comment_service.py:108-121 | None for a missing comment; a non-author fails; otherwise exactly that comment is removed |
| CommunityService.AddCommunityKeepsValid | backend/services/communities/community_service.py:14-21 | adding a community with a free name keeps the invariant |
| CommunityService.CreateCommunity | backend/services/communities/community_service.py:13-28 | a taken name fails unchanged; otherwise one community with the name, description and requester as creator is added, and a "General" room exists for it |
| CommunityService.GetAllCommunities | backend/services/communities/community_service.py:31-32 | a negative offset or limit fails; otherwise the window of the communities |
| CommunityService.MembershipCount | backend/services/communities/community_service.py:45-47 | the number of memberships of a community, at most the table's size |
| CommunityService.MembershipCountIsMembers | backend/services/communities/community_service.py:45-47 | in a valid store that number is the number of distinct members |
| CommunityService.GetCommunityWithDetails | backend/services/communities/community_service.py:39-75 | None for a missing community; `member_count` adds the creator when the creator has no membership; `is_owner` exactly for the creator; `is_member` exactly for the creator or a member; owners are members |
| CommunityService.MemberCountIsPeople | backend/services/communities/community_service.py:45-55 | in a valid store `member_count` is the number of distinct people: the members and the creator |
| CommunityService.ApplyCommunityUpdate | backend/services/communities/community_service.py:87-89 | only the fields the request gives change; id and creator never change |
| CommunityService.CommunityUpdateIdempotent | backend/services/communities/community_service.py:87-89 | an empty update changes nothing, and applying an update twice is applying it once |
| CommunityService.ReplaceCommunityKeepsValid | backend/services/communities/community_service.py:87-91 | an update whose name is free keeps the invariant |
| CommunityService.UpdateCommunity | backend/services/communities/community_service.py:78-93 | None for a missing community; a non-creator fails; a `null` name or a name another community holds fails; otherwise only that community is replaced |
| CommunityService.RemoveCommunityKeepsValid | backend/services/communities/community_service.py:104-105 | removing a community keeps the invariant |
| CommunityService.DeleteCommunity | backend/services/communities/community_service.py:96-106 | None for a missing community; a non-creator fails; otherwise exactly that community is removed |
| JsString.TrimStart | frontend/src/components/MessageForm.jsx:14 | a suffix of the input starting with a non-space, with only white space dropped |
| JsString.TrimEnd | frontend/src/components/MessageForm.jsx:14 | a prefix of the input ending with a non-space, with only white space dropped |
| JsString.Trim | frontend/src/components/CreatePostModal.jsx:16 | the result is a slice `s[i..j]` of the input with only white space before `i` and after `j`, and it has no white space at either end |
| JsString.TrimEmptyIffBlank | frontend/src/components/CreatePostModal.jsx:16 | `s.trim()` is empty exactly when `s` is all white space |
| JsString.TrimIdempotent | frontend/src/components/MessageForm.jsx:23 | trimming twice is trimming once |
| MembersSection.CanManageRoles | frontend/src/components/MembersSection.jsx:56 | the owner always sees the role controls; a viewer who is not the owner sees them exactly when their role is 'admin', and with no role or any other role ('member', 'moderator', 'owner', …) never does |
| MembersSection.PanelGateImpliesServerGate | frontend/src/components/MembersSection.jsx:56 | told the viewer's true ownership and role, the panel offers role controls only to viewers `update_member_role` accepts |
| MembersSection.RoleOptions | frontend/src/components/MembersSection.jsx:136-138 | 'member' and 'moderator' always, 'admin' exactly for the owner, never 'owner' |
| MembersSection.OfferedRoles | frontend/src/components/MembersSection.jsx:129-138 | roles are offered exactly when the viewer may manage roles and the entry is not the owner's; 'admin' only to the owner |
| MembersSection.CreatorNeverOfferedRoles | frontend/src/components/MembersSection.jsx:129 | on a roster the server builds from a valid store, the creator's entry is never offered a role change |
| MembersSection.RoleBadgeColor | frontend/src/components/MembersSection.jsx:59-66 | the owner colour exactly for the owner, overriding the role; else admin and moderator colours by role, and the neutral colour for every other role |
| MembersSection.DisplayRole | frontend/src/components/MembersSection.jsx:100 | 'Owner' for the owner's entry, else the role |
| MembersSection.WithRole | frontend/src/components/MembersSection.jsx:42-46 | same length; entries of the target get the new role, all others are unchanged |
| MembersSection.WithRoleKeepsRoster | frontend/src/components/MembersSection.jsx:42-46 | ids, owner flags and names are kept, and repeating the update changes nothing |
| MembersSection.MembersSection.constructor | frontend/src/components/MembersSection.jsx:5-9 | the initial state: empty roster, no error, nothing updating |
| MembersSection.MembersSection.BeginRoleChange | frontend/src/components/MembersSection.jsx:36 | the target is marked updating, nothing else changes |
| MembersSection.MembersSection.FinishRoleChange | frontend/src/components/MembersSection.jsx:38-52 | on success the roster takes the new role; on failure it stays and the error is set; the target is no longer updating |
| MembersSection.MembersSection.HandleRoleChange | frontend/src/components/MembersSection.jsx:35-53 | the whole handler: the roster or error as above, only the target's flag changes and ends false |
| MessageForm.BuildPayload | frontend/src/components/MessageForm.jsx:14-28 | nothing when both inputs are blank; a non-blank image URL is sent trimmed as 'image'; else the trimmed text as 'text'; always the form's chat id and non-empty content |
| MessageForm.PayloadTypeIsStored | frontend/src/components/MessageForm.jsx:27 | the server stores the type the form sends, and the content sent is already trimmed |
| MessageForm.MessageForm.constructor | frontend/src/components/MessageForm.jsx:5-9 | the initial state: empty inputs, not loading, no error |
| MessageForm.MessageForm.BeginSubmit | frontend/src/components/MessageForm.jsx:14-20 | blank inputs change nothing; otherwise loading with no error and the payload sent |
| MessageForm.MessageForm.FinishSubmit | frontend/src/components/MessageForm.jsx:30-41 | on success the inputs are cleared and the message delivered; on failure the inputs stay and the error is set; not loading |
| MessageForm.MessageForm.HandleSubmit | frontend/src/components/MessageForm.jsx:11-42 | the whole handler, as the two halves state |
| MessageForm.MessageForm.HandleKeyPress | frontend/src/components/MessageForm.jsx:44-49 | Enter without Shift submits; any other key changes nothing |
| CreatePostModal.BuildPostPayload | frontend/src/components/CreatePostModal.jsx:16-30 | a blank content is refused with 'Post content is required'; otherwise the trimmed content and the dialog's community, the trimmed URL or null, and 'image' exactly when a URL is sent |
| CreatePostModal.CreatePostModal.constructor | frontend/src/components/CreatePostModal.jsx:8-11 | the initial state: empty inputs, not loading, no error |
| CreatePostModal.CreatePostModal.BeginSubmit | frontend/src/components/CreatePostModal.jsx:16-30 | a blank content shows the validation error and sends nothing; otherwise loading with no error and the payload sent |
| CreatePostModal.CreatePostModal.FinishSubmit | frontend/src/components/CreatePostModal.jsx:32-44 | on success the inputs are cleared and the callbacks run in the order `onSuccess`, `onClose`; on failure none runs, the inputs stay and the error is set; not loading |
| CreatePostModal.CreatePostModal.HandleSubmit | frontend/src/components/CreatePostModal.jsx:13-45 | the whole handler, as the two halves state |
| CreatePostModal.CreatePostModal.HandleClose | frontend/src/components/CreatePostModal.jsx:47-52 | content, URL and error are cleared and exactly `onClose` runs |

## Left out

- Timestamps (`created_at`, `sent_at`, `joined_at`, `updated_at`) are not modelled. "Newest first" is reverse insertion order, which is the serial-id order. Two rows with equal timestamps could be ordered differently by the database.
- What happens to dependent rows on a delete is not modelled. The relationships at backend/models.py:39-41, 71-72 and 109 have no delete cascade and no `passive_deletes`. So on `db.delete` SQLAlchemy first sets the children's `community_id` or `post_id` to NULL, and the `ondelete="CASCADE"` clauses on the foreign keys never fire. The model instead removes only the deleted row and keeps the children pointing at the deleted id. Callers see the difference. After `PostService.DeletePost`, `LikeService.GetPostLikesCount` and `LikeService.IsPostLikedByUser` still report the old likes of that id, where the source reports 0 and False. After `CommunityService.DeleteCommunity`, `MembershipService.IsMember` stays true for former members, where the source says false. Ids are never reused, so no new row is confused with these.
- Column widths (`String(100)`, `String(500)`, `String(50)`) are not checked.
- Sessions, commits, rollbacks and the database connection (backend/config/db.py, backend/dependencies.py) are not modelled. The current user is a parameter, and authentication is not part of this model.
- The HTTP routers only map exceptions to status codes, and they are not part of this model. Two of them call service functions that do not exist: backend/routers/likes/like_router.py:41 calls `get_like_status`, and backend/routers/comments/comment_router.py:59 calls `get_comment`. Neither call is modelled.
- The role-update request body differs between client and server. frontend/src/api/memberships.js:56 sends `new_role`, while backend/schemas/memberships/membership_schema.py:55 expects `role`. The model follows the service contract.
- The frontend API wrappers (HTTP), chat polling timers, JWT decoding, date formatting, rendering and logging are not modelled.
- MembersSection's `fetchMembers` (loading the roster) is not modelled. The roster is the server's reply, which `MembershipService.GetCommunityMembers` states.
- MembersSection.MembersSection.HandleRoleChange: React state updates that interleave across the `await` (another handler running in between) are not modelled; each handler runs start to end, or as its two halves.
- MembersSection.OfferedRoles: the 'admin' branch of `canManageRoles` is modelled as written. The page that renders the panel only passes 'owner' or 'member' (frontend/src/pages/communities/CommunityDetail.jsx:28-30), so the branch is unreachable there.
- Listing.AuthoredOf: without a user, `user_id and …` short-circuits and the source sets `is_author` to `None` (backend/services/posts/post_service.py:71, backend/services/comments/comment_service.py:73), which then meets a field declared `bool` with default `False`. The routers always pass a user (backend/routers/posts/post_router.py:51, backend/routers/comments/comment_router.py:46), so this case is not reachable over HTTP. The model gives false.
- MembershipService.JoinCommunity, LikeService.ToggleLike, ChatService.SendMessage, PostService.CreatePost, CommentService.CreateComment, CommunityService.CreateCommunity: the foreign keys from the inserted row to `users.user_id` (backend/models.py:35, 48, 62, 80, 93 and 117) are not enforced. A requester with no users row can therefore join, like, send, post, comment or create a community in the model, where the database refuses the commit with an integrity error. No part of the backend creates users rows (the current user comes from the authentication provider), so the model takes the users map as given. This is also the only way the model reaches the "author has no users row" rows that `PostService.CommunityPosts` and `CommentService.PostComments` leave out of their listings.
- ChatService.CreateDefaultChatRoom: the model adds the "General" room for any community id, including one with no community row. In the source the foreign key on `chat_rooms.community_id` (backend/models.py:104) makes that insert fail on a database that enforces foreign keys. The only caller, `create_community`, passes the id it has just inserted, so that case does not arise there.
- CommunityService.CreateCommunity: the `try`/`except` around the default room is not modelled, because adding a room cannot fail in the model.
- JsString.Trim: a JavaScript string is a sequence of UTF-16 code units, while a Dafny `char` is a Unicode scalar value. The model therefore cannot hold a lone surrogate, and it counts a character outside the Basic Multilingual Plane as one element, not two. The result of `trim` is unaffected, because every ECMAScript white-space code point lies in the Basic Multilingual Plane.
- Several queries have no `ORDER BY`: backend/services/communities/community_service.py:32, backend/services/chat/chat_service.py:65, and backend/services/memberships/membership_service.py:73-75 and 103-106. SQL guarantees no row order for them. The model returns their rows in table (insertion) order, which is one order the database may choose.
