/**
 * The record shapes of the backend's tables (backend/models.py) and the errors the
 * services raise. Creation and join timestamps are not part of the model: rows are kept
 * in the order they were inserted, which is the order their server-assigned timestamps
 * give them.
 */
module Models {
  import opened Common

  /** A user's UUID, compared as a value. */
  type UserId = string

  /** A `users` row; the table is keyed by user id, so the id is the map key. */
  datatype User = User(username: Option<string>, email: Option<string>, displayName: Option<string>)

  /** A `communities` row. `created_by` is nullable. */
  datatype Community = Community(
    communityId: int,
    name: string,
    description: Option<string>,
    createdBy: Option<UserId>)

  /** A `memberships` row: a (user, community) pair with a role. */
  datatype Membership = Membership(membershipId: int, userId: UserId, communityId: int, role: string)

  /** A `posts` row. */
  datatype Post = Post(
    postId: int,
    communityId: int,
    authorId: UserId,
    content: string,
    mediaUrl: Option<string>,
    mediaType: Option<string>)

  /** A `comments` row. */
  datatype Comment = Comment(commentId: int, postId: int, authorId: UserId, content: string)

  /** A `likes` row: user `userId` likes post `postId`. */
  datatype Like = Like(likeId: int, postId: int, userId: UserId)

  /** A `chat_rooms` row. */
  datatype ChatRoom = ChatRoom(chatId: int, communityId: int, title: string)

  /** A `messages` row; `sender_id` becomes null when the sender's user row is deleted. */
  datatype Message = Message(msgId: int, chatId: int, senderId: Option<UserId>, msgType: string, content: string)

  /**
   * The exceptions a service call can end in: one case per `raise Exception(...)` of the
   * services, plus the database errors that the services let through.
   */
  datatype ServiceError =
    | CommunityNotFound
    | AlreadyMember
    | OwnerCannotJoin
    | OwnerCannotLeave
    | NotAMember
    | MustBeMemberToViewMembers
    | MustBeOwnerOrAdmin
    | TargetNotMember
    | CannotChangeOwnerRole
    | PostNotFound
    | MustBeMemberToLike
    | MustBeMemberToCreateChatRoom
    | MustBeMemberToViewChatRooms
    | DuplicateChatRoomTitle
    | ChatRoomNotFound
    | MustBeMemberToSendMessages
    | MustBeMemberToViewMessages
    | MustBeMemberToCreatePosts
    | MustBeMemberToViewPosts
    | NotPostAuthorEdit
    | NotPostAuthorDelete
    | MustBeMemberToComment
    | MustBeMemberToViewComments
    | NotCommentAuthorEdit
    | NotCommentAuthorDelete
    | NotCommunityCreatorEdit
    | NotCommunityCreatorDelete
      /** `chat_room.community.created_by` on a room whose community row is gone. */
    | NoCommunityAttribute
      /** The database rejects a negative OFFSET or LIMIT. */
    | NegativeOffsetOrLimit
      /** The database rejects a second community with the same name (`unique=True`). */
    | DuplicateCommunityName
      /** The database rejects an explicit null in a NOT NULL column. */
    | NullInRequiredColumn

  /** The text each service exception carries (the router passes it on as the error detail). */
  function ErrorText(e: ServiceError): string {
    match e
    case CommunityNotFound => "Community not found"
    case AlreadyMember => "You are already a member of this community"
    case OwnerCannotJoin => "You are the owner of this community"
    case OwnerCannotLeave => "Community owners cannot leave their own community"
    case NotAMember => "You are not a member of this community"
    case MustBeMemberToViewMembers => "You must be a member of this community to view members"
    case MustBeOwnerOrAdmin => "You must be an owner or admin to change member roles"
    case TargetNotMember => "Target user is not a member of this community"
    case CannotChangeOwnerRole => "Cannot change the role of the community owner"
    case PostNotFound => "Post not found"
    case MustBeMemberToLike => "You must be a member of this community to like posts"
    case MustBeMemberToCreateChatRoom => "You must be a member of this community to create chat rooms"
    case MustBeMemberToViewChatRooms => "You must be a member of this community to view chat rooms"
    case DuplicateChatRoomTitle => "A chat room with this title already exists in this community"
    case ChatRoomNotFound => "Chat room not found"
    case MustBeMemberToSendMessages => "You must be a member of this community to send messages"
    case MustBeMemberToViewMessages => "You must be a member of this community to view messages"
    case MustBeMemberToCreatePosts => "You must be a member of this community to create posts"
    case MustBeMemberToViewPosts => "You must be a member of this community to view posts"
    case NotPostAuthorEdit => "You can only edit your own posts"
    case NotPostAuthorDelete => "You can only delete your own posts"
    case MustBeMemberToComment => "You must be a member of this community to comment"
    case MustBeMemberToViewComments => "You must be a member of this community to view comments"
    case NotCommentAuthorEdit => "You can only edit your own comments"
    case NotCommentAuthorDelete => "You can only delete your own comments"
    case NotCommunityCreatorEdit => "You can only edit communities you created"
    case NotCommunityCreatorDelete => "You can only delete communities you created"
    case NoCommunityAttribute => "'NoneType' object has no attribute 'created_by'"
    case NegativeOffsetOrLimit => "OFFSET and LIMIT must not be negative"
    case DuplicateCommunityName => "duplicate key value violates unique constraint"
    case NullInRequiredColumn => "null value violates not-null constraint"
  }

  /** `display_name or username or email`, the name the listings show for a user. */
  function DisplayName(u: User): (n: Option<string>)
    ensures Truthy(u.displayName) ==> n == u.displayName
    ensures !Truthy(u.displayName) && Truthy(u.username) ==> n == u.username
    ensures !Truthy(u.displayName) && !Truthy(u.username) ==> n == u.email
  {
    Or(Or(u.displayName, u.username), u.email)
  }
}
