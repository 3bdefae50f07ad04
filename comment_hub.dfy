/** The real-time comment hub: comments posted and deleted on a post's
    page, broadcast to the group named after the post's id. */
module CommentHub {
  import opened Common
  import opened Text
  import opened Records
  import opened Posts
  import opened Store

  const ReceiveComment: string := "ReceiveComment"
  const CommentDeleted: string := "CommentDeleted"
  const UnknownUser: string := "Unknown"

  /** The group a post page's connections join. */
  function PostGroup(postId: int): Target {
    ToGroup(IntToString(postId))
  }

  /** Distinct posts have distinct groups, so an event reaches only the
      page of its own post. */
  lemma PostGroupsDistinct(a: int, b: int)
    requires a != b
    ensures PostGroup(a) != PostGroup(b)
  {
    if PostGroup(a) == PostGroup(b) {
      IntToStringInjective(a, b);
    }
  }

  /** `OnConnectedAsync`: the group a connection joins, from the `postId`
      query value. */
  function GroupToJoin(postIdQuery: Option<string>): (g: Option<Target>)
    ensures g.Some? <==> !IsNullOrEmpty(postIdQuery)
    ensures g.Some? ==> g.value == ToGroup(postIdQuery.value)
  {
    if IsNullOrEmpty(postIdQuery) then None else Some(ToGroup(postIdQuery.value))
  }

  /** A page of post `n` joins the group its comments are sent to. */
  lemma PageJoinsItsPostGroup(n: int)
    ensures GroupToJoin(Some(IntToString(n))) == Some(PostGroup(n))
  {
    assert IntToString(n) != [] by {
      if n < 0 {
        assert IntToString(n)[0] == '-';
      }
    }
  }

  /** The name shown with a comment. */
  function DisplayName(users: seq<User>, userId: string): (name: string)
    ensures FindUser(users, userId).None? ==> name == UnknownUser
    ensures FindUser(users, userId).Some? ==> name == FindUser(users, userId).value.userName
  {
    match FindUser(users, userId)
    case None => UnknownUser
    case Some(u) => u.userName
  }

  /** The rows a new comment refers to exist: `Comment.PostId` and
      `Comment.UserId` are required foreign keys, so the database refuses a
      comment on a missing post or by a missing account. */
  predicate CommentRefsExist(posts: seq<Post>, users: seq<User>, postId: int, userId: string) {
    PostIndex(posts, postId).Some? && FindUser(users, userId).Some?
  }

  /** `BroadcastComment(content, postId)`: with a caller and non-blank
      content, the comment is saved and then sent to the post's group,
      flagged as the caller's own. A save the database refuses throws
      before anything is sent. `stored` tells whether the comment was
      saved. */
  method BroadcastComment(db: Db, caller: Option<string>, content: Option<string>, postId: int, now: int)
    returns (stored: bool)
    modifies db`comments, db`nextId, db`log
    ensures stored <==> !IsNullOrEmpty(caller) && !IsNullOrWhiteSpace(content)
                        && CommentRefsExist(db.posts, db.users, postId, caller.value)
    ensures !stored ==> unchanged(db)
    ensures stored ==>
              var c := Comment(old(db.nextId), now, content.value, postId, caller.value);
              db.comments == old(db.comments) + [c]
              && db.nextId == old(db.nextId) + 1
              && db.log == old(db.log)
                 + [Commit, Send(PostGroup(postId), ReceiveComment,
                                 CommentEvent(DisplayName(db.users, caller.value), content.value, now, c.id, true))]
  {
    if IsNullOrEmpty(caller) || IsNullOrWhiteSpace(content) {
      return false;
    }
    if !CommentRefsExist(db.posts, db.users, postId, caller.value) {
      return false;
    }
    var c := Comment(db.nextId, now, content.value, postId, caller.value);
    db.comments := db.comments + [c];
    db.nextId := db.nextId + 1;
    db.log := db.log + [Commit];
    var isOwn := c.userId == caller.value;
    db.log := db.log + [Send(PostGroup(postId), ReceiveComment,
                             CommentEvent(DisplayName(db.users, caller.value), content.value, now, c.id, isOwn))];
    stored := true;
  }

  function CommentIndex(comments: seq<Comment>, id: int): (r: Option<nat>)
    ensures r.Some? ==> r.value < |comments| && comments[r.value].id == id
    ensures r.Some? ==> forall j :: 0 <= j < r.value ==> comments[j].id != id
    ensures r.None? <==> forall c :: c in comments ==> c.id != id
  {
    FirstIndex(comments, (c: Comment) => c.id == id)
  }

  /** Who may delete: the author of the comment found by id, and only a
      signed-in caller. */
  predicate MayDelete(comments: seq<Comment>, caller: Option<string>, commentId: int) {
    var k := CommentIndex(comments, commentId);
    k.Some? && caller.Some? && comments[k.value].userId == caller.value
  }

  /** `DeleteComment(commentId)`: only the author's call removes the
      comment, which is then announced to its post's group. */
  method DeleteComment(db: Db, caller: Option<string>, commentId: int)
    modifies db`comments, db`log
    ensures !MayDelete(old(db.comments), caller, commentId) ==> unchanged(db)
    ensures MayDelete(old(db.comments), caller, commentId) ==>
              var k := CommentIndex(old(db.comments), commentId).value;
              db.comments == RemoveAt(old(db.comments), k)
              && db.log == old(db.log)
                 + [Commit, Send(PostGroup(old(db.comments)[k].postId), CommentDeleted, CommentDeletedEvent(commentId))]
  {
    var idx := CommentIndex(db.comments, commentId);
    if idx.None? || caller.None? || db.comments[idx.value].userId != caller.value {
      return;
    }
    var postId := db.comments[idx.value].postId;
    db.comments := RemoveAt(db.comments, idx.value);
    db.log := db.log + [Commit, Send(PostGroup(postId), CommentDeleted, CommentDeletedEvent(commentId))];
  }

  /** A comment a user just posted is one that user may delete, and nobody
      else may. */
  lemma OwnCommentDeletable(comments: seq<Comment>, c: Comment, other: Option<string>)
    requires CommentIndex(comments, c.id).None?
    ensures MayDelete(comments + [c], Some(c.userId), c.id)
    ensures other != Some(c.userId) ==> !MayDelete(comments + [c], other, c.id)
  {
    var s := comments + [c];
    assert s[|comments|] == c;
    var k := CommentIndex(s, c.id);
    assert k.Some?;
    assert forall j :: 0 <= j < |comments| ==> s[j] == comments[j];
  }
}
