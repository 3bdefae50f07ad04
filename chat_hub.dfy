/** The real-time chat hub: a client sends a direct message, the hub stores
    it and pushes it to the receiver and back to the sender. */
module ChatHub {
  import opened Common
  import opened Messages
  import opened Records
  import opened Store
  import opened Conversations

  const ReceiveMessage := "ReceiveMessage"

  /** The arguments of the `ReceiveMessage` event for a stored message. */
  function EventFor(m: Message): (p: Payload)
    ensures p.MessageEvent? && p.senderId == m.senderId && p.content == m.content
    ensures p.messageId == m.id && p.sentAt == m.sentAt && p.isRead == m.isRead
  {
    MessageEvent(m.senderId, m.content, m.id, m.sentAt, m.isRead)
  }

  /** What one `SendMessage` call leaves behind: one new row, committed, then
      the same event to the receiver and to the sender, in that order. */
  function SendEffects(m: Message): (effects: seq<Effect>)
    ensures |effects| == 3 && effects[0] == Commit
    ensures effects[1] == Send(ToUser(m.receiverId), ReceiveMessage, EventFor(m))
    ensures effects[2] == Send(ToUser(m.senderId), ReceiveMessage, EventFor(m))
    ensures effects[1].payload == effects[2].payload
  {
    [Commit, Send(ToUser(m.receiverId), ReceiveMessage, EventFor(m)),
             Send(ToUser(m.senderId), ReceiveMessage, EventFor(m))]
  }

  /** `SendMessage(senderId, receiverId, message)`. An unknown sender makes
      the call do nothing; receiver and content are not checked. */
  method SendMessage(db: Db, senderId: string, receiverId: string, content: string, now: int)
    modifies db`messages, db`nextId, db`log
    ensures FindUser(db.users, senderId).None? ==> unchanged(db)
    ensures FindUser(db.users, senderId).Some? ==>
              var m := NewMessage(old(db.nextId), FindUser(db.users, senderId).value.id, receiverId, content, now);
              db.messages == old(db.messages) + [m]
              && db.nextId == old(db.nextId) + 1
              && db.log == old(db.log) + SendEffects(m)
  {
    var sender := FindUser(db.users, senderId);
    if sender.None? {
      return;
    }
    var m := NewMessage(db.nextId, sender.value.id, receiverId, content, now);
    db.messages := db.messages + [m];
    db.nextId := db.nextId + 1;
    db.log := db.log + [Commit];
    db.log := db.log + [Send(ToUser(receiverId), ReceiveMessage, EventFor(m))];
    db.log := db.log + [Send(ToUser(m.senderId), ReceiveMessage, EventFor(m))];
  }

  /** A sent message raises the receiver's unread badge by exactly one. */
  lemma SendRaisesBadge(msgs: seq<Message>, id: int, sender: string, receiver: string, content: string, now: int)
    ensures UnreadMessageCount(msgs + [NewMessage(id, sender, receiver, content, now)], Some(receiver))
         == UnreadMessageCount(msgs, Some(receiver)) + 1
  {
    var m := NewMessage(id, sender, receiver, content, now);
    var p := (x: Message) => UnreadBy(x, Some(receiver));
    FilterAppend(msgs, [m], p);
    assert Filter([m], p) == [m];
  }

  /** The new message is in the thread both parties see, in either
      direction. */
  lemma SentMessageInThread(msgs: seq<Message>, id: int, sender: string, receiver: string, content: string, now: int)
    ensures NewMessage(id, sender, receiver, content, now) in Thread(msgs + [NewMessage(id, sender, receiver, content, now)], sender, receiver)
    ensures NewMessage(id, sender, receiver, content, now) in Thread(msgs + [NewMessage(id, sender, receiver, content, now)], receiver, sender)
  {
  }
}
