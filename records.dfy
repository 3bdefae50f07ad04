/** The supporting records of the store: users, the per-user message
    deletions and reactions, archived messages, follows, likes, saved posts,
    notifications, comments and categories. Each is an id plus foreign keys
    and the few fields the application reads. */
module Records {
  import opened Common

  /** The profile fields a user edits, kept together. */
  datatype ProfileDetails = ProfileDetails(
    firstName: Option<string>,
    lastName: Option<string>,
    majorName: Option<string>,
    gender: Option<string>,
    phoneNumber: Option<string>,
    dateOfBirth: Option<int>,
    bio: Option<string>)

  /** An account (`AppUser`). `roles` are the role names it belongs to. */
  datatype User = User(
    id: string,
    userName: string,
    email: string,
    details: ProfileDetails,
    profilePicture: Option<string>,
    lastSeen: Option<int>,
    roles: seq<string>)

  datatype MessageDeletion = MessageDeletion(id: int, userId: string, messageId: int, deletedAt: int)

  datatype MessageReaction = MessageReaction(id: int, userId: string, messageId: int, reaction: string, reactedAt: int)

  /** A row of `ArchivedMessages`: the seven copied fields of a message. */
  datatype ArchivedMessage = ArchivedMessage(
    id: int,
    senderId: string,
    receiverId: string,
    content: string,
    sentAt: int,
    isRead: bool,
    readAt: Option<int>,
    isPinned: bool)

  /** `FollowerId` follows `FollowingId`. */
  datatype Following = Following(id: int, followerId: string, followingId: string)

  datatype PostLike = PostLike(id: int, postId: int, userId: string, likedAt: int)

  datatype SavedPost = SavedPost(id: int, userId: string, postId: int)

  datatype Notification = Notification(
    id: int,
    userId: string,
    postId: Option<int>,
    message: string,
    isRead: bool,
    createdAt: int)

  datatype Comment = Comment(id: int, commentDate: int, content: string, postId: int, userId: string)

  datatype Category = Category(id: int, name: string, description: Option<string>)

  /** The rows the database keeps when the messages with these ids are
      removed: `MessageDeletion.MessageId` and `MessageReaction.MessageId`
      are required foreign keys, so their rows go with the message. */
  function DeletionKept(gone: set<int>): MessageDeletion -> bool {
    (d: MessageDeletion) => d.messageId !in gone
  }

  function ReactionKept(gone: set<int>): MessageReaction -> bool {
    (r: MessageReaction) => r.messageId !in gone
  }

  /** Some category carries this id: the required `Post.CategoryId`
      foreign key accepts it. */
  predicate HasCategory(categories: seq<Category>, id: int) {
    exists c :: c in categories && c.id == id
  }

  /** `new Notification { UserId, Message, IsRead = false, CreatedAt = now }`. */
  function NewNotification(id: int, userId: string, message: string, now: int): (n: Notification)
    ensures n.id == id && n.userId == userId && n.message == message
    ensures !n.isRead && n.createdAt == now && n.postId.None?
  {
    Notification(id, userId, None, message, false, now)
  }

  /** `FindByIdAsync`: the first user with this id. */
  function FindUser(users: seq<User>, id: string): (r: Option<User>)
    ensures r.Some? ==> r.value in users && r.value.id == id
    ensures r.None? <==> forall u :: u in users ==> u.id != id
  {
    if users == [] then None
    else if users[0].id == id then Some(users[0])
    else FindUser(users[1..], id)
  }

  /** The lookup returns the first row carrying the id. */
  lemma {:induction false} FindUserFirst(users: seq<User>, id: string, k: nat)
    requires k < |users| && users[k].id == id
    requires forall j :: 0 <= j < k ==> users[j].id != id
    ensures FindUser(users, id) == Some(users[k])
  {
    if k > 0 {
      FindUserFirst(users[1..], id, k - 1);
    }
  }

  /** `follower` has a following row for `followee`. A missing follower
      (no signed-in user) follows nobody. */
  predicate Follows(followings: seq<Following>, follower: Option<string>, followee: string) {
    follower.Some? && exists f :: f in followings && f.followerId == follower.value && f.followingId == followee
  }

  predicate UnreadFor(n: Notification, user: Option<string>) {
    user.Some? && n.userId == user.value && !n.isRead
  }

  /** The notification badge: the user's notifications not yet read. */
  function UnreadNotificationCount(notes: seq<Notification>, user: Option<string>): (n: nat)
    ensures n <= |notes|
    ensures n == 0 <==> forall x :: x in notes ==> !UnreadFor(x, user)
  {
    CountWhere(notes, (x: Notification) => UnreadFor(x, user))
  }
}
