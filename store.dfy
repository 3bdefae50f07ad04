/** The application's database context and the outside world it talks to.
    `Db` holds one sequence per table; `nextId` is the identity the database
    hands to the next inserted row; `log` records, in order, every commit of
    pending changes (`SaveChanges`), every real-time event sent to a client,
    every file written or removed and every sign-in, so that "saved before
    sent" and "nothing else happens" can be stated. */
module Store {
  import opened Common
  import opened Records
  import opened Messages
  import opened Posts

  /** Who a real-time event goes to: every connection of one user, or every
      connection in a named group. */
  datatype Target = ToUser(userId: string) | ToGroup(group: string)

  /** The arguments of the real-time events the server emits. */
  datatype Payload =
    | MessageEvent(senderId: string, content: string, messageId: int, sentAt: int, isRead: bool)
    | LikeEvent(postId: int, likesCount: int, likerId: Option<string>)
    | CommentEvent(userName: string, content: string, commentDate: int, commentId: int, isOwn: bool)
    | CommentDeletedEvent(commentId: int)

  datatype Effect =
    | Commit
    | Send(target: Target, event: string, payload: Payload)
    | StoreFile(path: string)
    | DeleteFile(name: string)
    | SignedIn(userId: string)

  /** An uploaded file as the server sees it: its client-side name and its
      length in bytes. */
  datatype Upload = Upload(fileName: string, length: int)

  /** A file was sent and it is not empty. */
  predicate HasFile(upload: Option<Upload>) {
    upload.Some? && upload.value.length > 0
  }

  /** The creator profile page of `userId`. */
  function ProfileRoute(userId: string): string {
    "Following/Profile?userId=" + userId
  }

  /** The outcome of a controller action, as far as the caller can tell. */
  datatype Status =
    | Ok
    | NotFound
    | Forbid
    | BadRequest
    | Unauthorized
    | ServerError
    | ShowForm(error: string)
    | Redirect(target: string)

  /** The database context. Each action names in its frame the tables it
      may change; every other table is left as it was. */
  class Db {
    var users: seq<User>
    var messages: seq<Message>
    var archived: seq<ArchivedMessage>
    var deletions: seq<MessageDeletion>
    var reactions: seq<MessageReaction>
    var posts: seq<Post>
    var categories: seq<Category>
    var likes: seq<PostLike>
    var saved: seq<SavedPost>
    var followings: seq<Following>
    var notifications: seq<Notification>
    var comments: seq<Comment>
    var nextId: int
    var log: seq<Effect>
  }
}
