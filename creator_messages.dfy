/** The content creators' messaging controller: inbox, opening a chat,
    deleting a message for oneself or for everyone, editing a message,
    message details and marking a conversation read. */
module CreatorMessages {
  import opened Common
  import opened Messages
  import opened Records
  import opened Store
  import opened Conversations

  /** `Messages.FindAsync(id)`: the position of the message with this id. */
  function MessageIndex(msgs: seq<Message>, id: int): (r: Option<nat>)
    ensures r.Some? ==> r.value < |msgs| && msgs[r.value].id == id
    ensures r.None? <==> forall m :: m in msgs ==> m.id != id
  {
    FirstIndex(msgs, (m: Message) => m.id == id)
  }

  /** The inbox page. A viewer whose account no longer exists is a null
      user: reading `user.Id` throws before any page is built. */
  method Index(db: Db, viewer: string) returns (status: Status, page: Option<InboxPage>)
    ensures UserIndex(db.users, viewer).None? <==> status == ServerError
    ensures UserIndex(db.users, viewer).None? ==> page.None?
    ensures UserIndex(db.users, viewer).Some? ==>
              status == Ok && page == Some(InboxPageOf(db.users, db.messages, db.deletions, viewer))
    ensures page.Some? ==> forall i :: 0 <= i < |page.value.conversations| ==>
              page.value.conversations[i] in db.messages && InInbox(page.value.conversations[i], db.deletions, viewer)
  {
    if UserIndex(db.users, viewer).None? {
      return ServerError, None;
    }
    status := Ok;
    page := Some(InboxPageOf(db.users, db.messages, db.deletions, viewer));
  }

  /** Opening the chat with `other`: records the viewer's last-seen time
      (saved at once), marks read what `other` sent the viewer, saves only
      if something was marked, and returns the thread read afterwards. A
      viewer whose account no longer exists is a null user: stamping it
      throws before anything is saved. */
  method Chat(db: Db, viewer: string, other: string, now: int)
    returns (status: Status, thread: seq<Message>, chatUser: Option<User>)
    modifies db`users, db`messages, db`log
    ensures UserIndex(old(db.users), viewer).None? ==>
              status == ServerError && thread == [] && chatUser.None? && unchanged(db)
    ensures UserIndex(old(db.users), viewer).Some? ==>
              status == Ok
              && db.users == TouchLastSeen(old(db.users), viewer, now)
              && db.messages == MarkedRead(old(db.messages), viewer, other, now)
              && db.log == old(db.log) + [Commit]
                           + (if AnyUnreadFrom(old(db.messages), viewer, other) then [Commit] else [])
              && thread == Thread(db.messages, viewer, other)
              && chatUser == FindUser(db.users, other)
  {
    if UserIndex(db.users, viewer).None? {
      return ServerError, [], None;
    }
    OpenChat(db, viewer, other, now);
    status := Ok;
    thread := Thread(db.messages, viewer, other);
    chatUser := FindUser(db.users, other);
  }

  /** The answer `DeleteMessage` gives, decided before anything is changed:
      `NotFound` for a missing message or an anonymous caller, `Forbid` when
      someone other than the sender deletes for everyone, `BadRequest` for a
      scope other than "all" and "me", `Ok` otherwise. */
  function DeleteOutcome(msgs: seq<Message>, user: Option<string>, id: int, scope: string): (s: Status)
    ensures s == NotFound <==> MessageIndex(msgs, id).None? || user.None?
    ensures s == Forbid <==> MessageIndex(msgs, id).Some? && user.Some? && scope == "all"
                             && msgs[MessageIndex(msgs, id).value].senderId != user.value
    ensures s == BadRequest <==> MessageIndex(msgs, id).Some? && user.Some? && scope != "all" && scope != "me"
    ensures s in {Ok, NotFound, Forbid, BadRequest}
  {
    match MessageIndex(msgs, id)
    case None => NotFound
    case Some(k) =>
      if user.None? then NotFound
      else if scope == "all" then (if msgs[k].senderId == user.value then Ok else Forbid)
      else if scope == "me" then Ok
      else BadRequest
  }

  /** Delete-for-me: adds a (user, message) deletion unless one exists. */
  function DeleteForMe(deletions: seq<MessageDeletion>, user: string, messageId: int, newId: int, now: int): (r: seq<MessageDeletion>)
    ensures DeletedFor(r, user, messageId)
    ensures DeletedFor(deletions, user, messageId) ==> r == deletions
    ensures !DeletedFor(deletions, user, messageId) ==> r == deletions + [MessageDeletion(newId, user, messageId, now)]
  {
    if DeletedFor(deletions, user, messageId) then deletions
    else
      var r := deletions + [MessageDeletion(newId, user, messageId, now)];
      assert r[|deletions|] in r;
      r
  }

  /** Deleting for oneself twice leaves what deleting once left. */
  lemma DeleteForMeIdempotent(deletions: seq<MessageDeletion>, user: string, messageId: int,
                              id1: int, id2: int, t1: int, t2: int)
    ensures DeleteForMe(DeleteForMe(deletions, user, messageId, id1, t1), user, messageId, id2, t2)
         == DeleteForMe(deletions, user, messageId, id1, t1)
  {
  }

  function IsDeletionOf(user: string, messageId: int): MessageDeletion -> bool {
    (d: MessageDeletion) => d.userId == user && d.messageId == messageId
  }

  /** How many deletion rows the (user, message) pair has; none exactly
      when the message is not deleted for that user. */
  function CountDeletions(deletions: seq<MessageDeletion>, user: string, messageId: int): (n: nat)
    ensures n > 0 <==> DeletedFor(deletions, user, messageId)
  {
    CountWhere(deletions, IsDeletionOf(user, messageId))
  }

  /** Starting from no deletion row for the pair, any number of
      delete-for-me calls leave exactly one. */
  lemma DeleteForMeLeavesOneRow(deletions: seq<MessageDeletion>, user: string, messageId: int, newId: int, now: int)
    requires CountDeletions(deletions, user, messageId) <= 1
    ensures CountDeletions(DeleteForMe(deletions, user, messageId, newId, now), user, messageId) == 1
  {
    if !DeletedFor(deletions, user, messageId) {
      var d := MessageDeletion(newId, user, messageId, now);
      CountWhereAppend(deletions, [d], IsDeletionOf(user, messageId));
      CountWhereSingle(d, IsDeletionOf(user, messageId));
    }
  }

  /** `DeleteMessage(id, scope)`. Deleting for everyone removes the row,
      and the database removes the message's deletion and reaction rows
      with it. */
  method DeleteMessage(db: Db, user: Option<string>, id: int, scope: string, now: int) returns (status: Status)
    modifies db`messages, db`deletions, db`reactions, db`nextId, db`log
    ensures status == DeleteOutcome(old(db.messages), user, id, scope)
    ensures status != Ok ==> unchanged(db)
    ensures status == Ok && scope == "all" ==>
              db.messages == RemoveAt(old(db.messages), MessageIndex(old(db.messages), id).value)
              && db.log == old(db.log) + [Commit]
              && db.deletions == Filter(old(db.deletions), DeletionKept({id}))
              && db.reactions == Filter(old(db.reactions), ReactionKept({id}))
              && db.nextId == old(db.nextId)
    ensures status == Ok && scope == "me" && DeletedFor(old(db.deletions), user.value, id) ==> unchanged(db)
    ensures status == Ok && scope == "me" && !DeletedFor(old(db.deletions), user.value, id) ==>
              db.deletions == DeleteForMe(old(db.deletions), user.value, id, old(db.nextId), now)
              && db.nextId == old(db.nextId) + 1
              && db.log == old(db.log) + [Commit]
              && db.messages == old(db.messages) && db.reactions == old(db.reactions)
  {
    status := DeleteOutcome(db.messages, user, id, scope);
    if status != Ok {
      return;
    }
    var k := MessageIndex(db.messages, id).value;
    if scope == "all" {
      db.messages := RemoveAt(db.messages, k);
      db.deletions := Filter(db.deletions, DeletionKept({id}));
      db.reactions := Filter(db.reactions, ReactionKept({id}));
      db.log := db.log + [Commit];
    } else if !DeletedFor(db.deletions, user.value, db.messages[k].id) {
      db.deletions := DeleteForMe(db.deletions, user.value, id, db.nextId, now);
      db.nextId := db.nextId + 1;
      db.log := db.log + [Commit];
    }
  }

  /** The new table after an edit, or `None` (Forbid) when the message is
      missing or the caller is not its sender. Only `Content` changes. */
  function EditContent(msgs: seq<Message>, user: Option<string>, id: int, content: string): (r: Option<seq<Message>>)
    ensures r.None? <==> MessageIndex(msgs, id).None? || user != Some(msgs[MessageIndex(msgs, id).value].senderId)
    ensures r.Some? ==> |r.value| == |msgs|
    ensures r.Some? ==> var k := MessageIndex(msgs, id).value;
              r.value[k].content == content && r.value[k] == msgs[k].(content := content)
              && forall j :: 0 <= j < |msgs| && j != k ==> r.value[j] == msgs[j]
  {
    match MessageIndex(msgs, id)
    case None => None
    case Some(k) =>
      if user != Some(msgs[k].senderId) then None
      else Some(msgs[k := msgs[k].(content := content)])
  }

  /** Editing is a pure overwrite: the last edit wins. */
  lemma EditLastWins(msgs: seq<Message>, user: Option<string>, id: int, c1: string, c2: string)
    requires EditContent(msgs, user, id, c1).Some?
    ensures EditContent(EditContent(msgs, user, id, c1).value, user, id, c2) == EditContent(msgs, user, id, c2)
  {
    var k := MessageIndex(msgs, id).value;
    var once := EditContent(msgs, user, id, c1).value;
    assert forall j :: 0 <= j < k ==> once[j] == msgs[j];
    assert MessageIndex(once, id) == Some(k) by {
      assert forall j :: 0 <= j < k ==> once[j].id != id;
    }
    assert once[k].senderId == msgs[k].senderId;
    var twice := once[k := once[k].(content := c2)];
    var direct := msgs[k := msgs[k].(content := c2)];
    assert |twice| == |direct|;
    assert forall j :: 0 <= j < |twice| ==> twice[j] == direct[j];
    assert twice == direct;
  }

  /** `EditMessage(id, content)`. */
  method EditMessage(db: Db, user: Option<string>, id: int, content: string) returns (status: Status)
    modifies db`messages, db`log
    ensures status == (if EditContent(old(db.messages), user, id, content).Some? then Ok else Forbid)
    ensures status == Forbid ==> unchanged(db)
    ensures status == Ok ==> db.messages == EditContent(old(db.messages), user, id, content).value
                             && db.log == old(db.log) + [Commit]
  {
    var edited := EditContent(db.messages, user, id, content);
    if edited.None? {
      return Forbid;
    }
    db.messages := edited.value;
    db.log := db.log + [Commit];
    status := Ok;
  }

  /** What `MessageInfo` answers: the sent time, read flag and read time,
      to the sender only. */
  datatype InfoResult = InfoForbidden | Info(sentAt: int, isRead: bool, readAt: Option<int>)

  function MessageInfo(msgs: seq<Message>, user: Option<string>, id: int): (r: InfoResult)
    ensures r.InfoForbidden? <==> MessageIndex(msgs, id).None? || Some(msgs[MessageIndex(msgs, id).value].senderId) != user
    ensures r.Info? ==> (exists m :: m in msgs && m.id == id && Some(m.senderId) == user
                                     && r == Info(m.sentAt, m.isRead, m.readAt))
  {
    match MessageIndex(msgs, id)
    case None => InfoForbidden
    case Some(k) =>
      if Some(msgs[k].senderId) != user then InfoForbidden
      else Info(msgs[k].sentAt, msgs[k].isRead, msgs[k].readAt)
  }

  /** `MarkMessagesAsRead(userId, fromUserId)`: marks read what `fromUserId`
      sent `userId`, then saves unconditionally. */
  method MarkMessagesAsRead(db: Db, userId: string, fromUserId: string, now: int)
    modifies db`messages, db`log
    ensures db.messages == MarkedRead(old(db.messages), userId, fromUserId, now)
    ensures db.log == old(db.log) + [Commit]
  {
    var _ := MarkReadInPlace(db, userId, fromUserId, now);
    db.log := db.log + [Commit];
  }
}
