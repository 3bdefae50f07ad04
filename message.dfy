/** The direct-message record (`Message`) with its validation annotations and
    the defaults a new message starts from. */
module Messages {
  import opened Common
  import opened Text

  /** One row of the `Messages` table. Instants are seconds (see Calendar). */
  datatype Message = Message(
    id: int,
    senderId: string,
    receiverId: string,
    content: string,
    sentAt: int,
    isRead: bool,
    readAt: Option<int>,
    audioPath: Option<string>,
    isPinned: bool)

  /** `[Required]` on a string: neither null nor empty nor only white space. */
  predicate RequiredText(s: string) {
    !AllWhiteSpace(s)
  }

  /** The data annotations of the record: sender, receiver and content are
      required; every other field is optional or has a default. */
  predicate MeetsAnnotations(m: Message) {
    RequiredText(m.senderId) && RequiredText(m.receiverId) && RequiredText(m.content)
  }

  /** `new Message { SenderId, ReceiverId, Content }` created at instant
      `now`: unread, never read, no audio, not pinned, sent now. The id is
      the one the database assigns. */
  function NewMessage(id: int, sender: string, receiver: string, content: string, now: int): (m: Message)
    ensures m.id == id && m.senderId == sender && m.receiverId == receiver && m.content == content
    ensures m.sentAt == now
    ensures !m.isRead && m.readAt.None?
    ensures m.audioPath.None? && !m.isPinned
  {
    Message(id, sender, receiver, content, now, false, None, None, false)
  }

  /** A new message meets the annotations exactly when its three required
      strings are not blank; nothing else is demanded of it. */
  lemma NewMessageAnnotations(id: int, sender: string, receiver: string, content: string, now: int)
    ensures MeetsAnnotations(NewMessage(id, sender, receiver, content, now))
      <==> RequiredText(sender) && RequiredText(receiver) && RequiredText(content)
  {
  }
}
