/** The archival sweep: every message older than 360 days is copied into
    the archive table and removed from the live table, in one save. */
module Archive {
  import opened Common
  import opened Messages
  import opened Records
  import opened Store
  import Calendar

  const ArchiveAfterDays: int := 360

  /** `DateTime.UtcNow.AddDays(-360)`. */
  function Threshold(now: int): (t: int)
    ensures t == now - ArchiveAfterDays * Calendar.SecondsPerDay
  {
    Calendar.AddDays(now, -ArchiveAfterDays)
  }

  predicate IsOld(m: Message, threshold: int) {
    m.sentAt < threshold
  }

  function OldAt(threshold: int): Message -> bool {
    (m: Message) => IsOld(m, threshold)
  }

  function RecentAt(threshold: int): Message -> bool {
    (m: Message) => !IsOld(m, threshold)
  }

  /** The messages the sweep selects, in table order. */
  function Selected(msgs: seq<Message>, threshold: int): (r: seq<Message>)
    ensures |r| <= |msgs|
    ensures forall m :: m in r <==> m in msgs && IsOld(m, threshold)
  {
    Filter(msgs, OldAt(threshold))
  }

  /** The messages that stay in the live table, in table order. */
  function Kept(msgs: seq<Message>, threshold: int): (r: seq<Message>)
    ensures |r| <= |msgs|
    ensures forall m :: m in r <==> m in msgs && !IsOld(m, threshold)
  {
    Filter(msgs, RecentAt(threshold))
  }

  /** The per-row copy: seven fields carried over, a new id. */
  function ArchiveCopy(m: Message, id: int): (a: ArchivedMessage)
    ensures a.id == id
    ensures a.senderId == m.senderId && a.receiverId == m.receiverId && a.content == m.content
    ensures a.sentAt == m.sentAt && a.isRead == m.isRead && a.readAt == m.readAt && a.isPinned == m.isPinned
  {
    ArchivedMessage(id, m.senderId, m.receiverId, m.content, m.sentAt, m.isRead, m.readAt, m.isPinned)
  }

  /** The archive rows for `msgs`, with consecutive ids from `firstId`. */
  function ArchiveCopies(msgs: seq<Message>, firstId: int): (r: seq<ArchivedMessage>)
    ensures |r| == |msgs|
    ensures forall i :: 0 <= i < |msgs| ==> r[i] == ArchiveCopy(msgs[i], firstId + i)
  {
    seq(|msgs|, i requires 0 <= i < |msgs| => ArchiveCopy(msgs[i], firstId + i))
  }

  /** The archived copy gives the original message back, except for its id
      and its audio attachment, which are not copied. */
  function Restore(a: ArchivedMessage, id: int): Message {
    Message(id, a.senderId, a.receiverId, a.content, a.sentAt, a.isRead, a.readAt, None, a.isPinned)
  }

  lemma RestoreCopy(m: Message, id: int)
    ensures Restore(ArchiveCopy(m, id), m.id) == m.(audioPath := None)
  {
  }

  /** Selected and kept split the table: every message lands on exactly one
      side, as many times as it occurs. */
  lemma {:induction false} SweepPartitions(msgs: seq<Message>, threshold: int)
    ensures multiset(Selected(msgs, threshold)) + multiset(Kept(msgs, threshold)) == multiset(msgs)
    ensures |Selected(msgs, threshold)| + |Kept(msgs, threshold)| == |msgs|
  {
    if msgs != [] {
      SweepPartitions(msgs[1..], threshold);
      assert msgs == [msgs[0]] + msgs[1..];
    }
  }

  /** A second sweep at the same instant selects nothing. */
  lemma SweepAgainSelectsNothing(msgs: seq<Message>, threshold: int)
    ensures Selected(Kept(msgs, threshold), threshold) == []
  {
    var kept := Kept(msgs, threshold);
    var r := Selected(kept, threshold);
    assert forall m :: m in kept ==> !OldAt(threshold)(m);
    assert |r| == CountWhere(kept, OldAt(threshold)) == 0;
  }

  /** A message that is not old is untouched: it stays, and the sweep
      leaves the kept messages in their order. */
  lemma {:induction false} KeptIsUnchangedWhenNothingOld(msgs: seq<Message>, threshold: int)
    requires forall m :: m in msgs ==> !IsOld(m, threshold)
    ensures Kept(msgs, threshold) == msgs
  {
    if msgs != [] {
      assert msgs[0] in msgs;
      assert forall m :: m in msgs[1..] ==> m in msgs;
      KeptIsUnchangedWhenNothingOld(msgs[1..], threshold);
    }
  }

  /** The ids of the given messages. */
  function IdSet(msgs: seq<Message>): (ids: set<int>)
    ensures forall m :: m in msgs ==> m.id in ids
    ensures forall id :: id in ids ==> exists m :: m in msgs && m.id == id
  {
    set m | m in msgs :: m.id
  }

  /** `ArchiveOldMessages()`: the old messages are copied and removed, and
      the database removes their deletion and reaction rows with them. */
  method ArchiveOldMessages(db: Db, now: int)
    modifies db`archived, db`messages, db`deletions, db`reactions, db`nextId, db`log
    ensures Selected(old(db.messages), Threshold(now)) == [] ==> unchanged(db)
    ensures Selected(old(db.messages), Threshold(now)) != [] ==>
              var selected := Selected(old(db.messages), Threshold(now));
              db.archived == old(db.archived) + ArchiveCopies(selected, old(db.nextId))
              && db.messages == Kept(old(db.messages), Threshold(now))
              && db.deletions == Filter(old(db.deletions), DeletionKept(IdSet(selected)))
              && db.reactions == Filter(old(db.reactions), ReactionKept(IdSet(selected)))
              && db.nextId == old(db.nextId) + |selected|
              && db.log == old(db.log) + [Commit]
  {
    var threshold := Threshold(now);
    var oldMessages := Selected(db.messages, threshold);
    if oldMessages == [] {
      return;
    }
    var archived := ArchiveCopies(oldMessages, db.nextId);
    db.archived := db.archived + archived;
    db.nextId := db.nextId + |archived|;
    db.messages := Kept(db.messages, threshold);
    db.deletions := Filter(db.deletions, DeletionKept(IdSet(oldMessages)));
    db.reactions := Filter(db.reactions, ReactionKept(IdSet(oldMessages)));
    db.log := db.log + [Commit];
  }
}
