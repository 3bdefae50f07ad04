/** The message queries shared, line for line, by the content-creator and the
    admin messaging pages: the inbox (latest message per counterpart), the
    thread between two users, marking a conversation read, and the unread
    badge. */
module Conversations {
  import opened Common
  import opened Messages
  import opened Records
  import opened Store

  /** The other party of a message, seen from `viewer`. */
  function Counterpart(m: Message, viewer: string): string {
    if m.senderId == viewer then m.receiverId else m.senderId
  }

  predicate Involves(m: Message, viewer: string) {
    m.senderId == viewer || m.receiverId == viewer
  }

  /** `user` has deleted message `messageId` for themselves. */
  predicate DeletedFor(deletions: seq<MessageDeletion>, user: string, messageId: int) {
    exists d :: d in deletions && d.userId == user && d.messageId == messageId
  }

  /** The inbox filter: a message the viewer sent or received and has not
      deleted for themselves. */
  predicate InInbox(m: Message, deletions: seq<MessageDeletion>, viewer: string) {
    Involves(m, viewer) && !DeletedFor(deletions, viewer, m.id)
  }

  function VisibleTo(msgs: seq<Message>, deletions: seq<MessageDeletion>, viewer: string): (r: seq<Message>)
    ensures forall m :: m in r <==> m in msgs && InInbox(m, deletions, viewer)
  {
    Filter(msgs, m => InInbox(m, deletions, viewer))
  }

  function CounterpartsOf(s: seq<Message>, viewer: string): (r: seq<string>)
    ensures |r| == |s|
    ensures forall i :: 0 <= i < |s| ==> r[i] == Counterpart(s[i], viewer)
  {
    seq(|s|, i requires 0 <= i < |s| => Counterpart(s[i], viewer))
  }

  function WithCounterpart(s: seq<Message>, viewer: string, other: string): (r: seq<Message>)
    ensures forall m :: m in r <==> m in s && Counterpart(m, viewer) == other
  {
    Filter(s, m => Counterpart(m, viewer) == other)
  }

  /** `OrderByDescending(m => m.SentAt).FirstOrDefault()` on a non-empty
      group: the position of a message with the latest `SentAt`, the first
      such in table order when several tie. */
  function LatestIndex(s: seq<Message>): (k: nat)
    requires s != []
    ensures k < |s|
    ensures forall x :: x in s ==> x.sentAt <= s[k].sentAt
    ensures forall j :: 0 <= j < k ==> s[j].sentAt < s[k].sentAt
  {
    if |s| == 1 then 0
    else
      var r := LatestIndex(s[1..]);
      assert forall x :: x in s ==> x == s[0] || x in s[1..];
      if s[0].sentAt >= s[1 + r].sentAt then 0 else 1 + r
  }

  /** The latest visible message exchanged with `other`. */
  function LatestWith(vis: seq<Message>, viewer: string, other: string): (m: Message)
    requires other in CounterpartsOf(vis, viewer)
    ensures m in vis && Counterpart(m, viewer) == other
    ensures forall x :: x in vis && Counterpart(x, viewer) == other ==> x.sentAt <= m.sentAt
  {
    var g := WithCounterpart(vis, viewer, other);
    var i :| 0 <= i < |vis| && CounterpartsOf(vis, viewer)[i] == other;
    assert vis[i] in g;
    g[LatestIndex(g)]
  }

  /** One entry per counterpart occurring in `vis`, holding the latest
      message exchanged with that counterpart. */
  function LatestPerCounterpart(vis: seq<Message>, viewer: string): (r: seq<Message>)
    ensures forall i :: 0 <= i < |r| ==> r[i] in vis
    ensures forall i, j :: 0 <= i < j < |r| ==> Counterpart(r[i], viewer) != Counterpart(r[j], viewer)
    ensures forall i, m :: (0 <= i < |r| && m in vis && Counterpart(m, viewer) == Counterpart(r[i], viewer))
              ==> m.sentAt <= r[i].sentAt
    ensures forall m :: m in vis ==>
              exists i :: 0 <= i < |r| && Counterpart(r[i], viewer) == Counterpart(m, viewer)
  {
    var cps := CounterpartsOf(vis, viewer);
    var keys := Distinct(cps);
    var r := seq(|keys|, i requires 0 <= i < |keys| => LatestWith(vis, viewer, keys[i]));
    forall i | 0 <= i < |r|
      ensures r[i] in vis && Counterpart(r[i], viewer) == keys[i]
    {
      assert r[i] == LatestWith(vis, viewer, keys[i]);
    }
    forall i, j | 0 <= i < j < |r|
      ensures Counterpart(r[i], viewer) != Counterpart(r[j], viewer)
    {
      assert keys[i] != keys[j];
    }
    forall i, m | 0 <= i < |r| && m in vis && Counterpart(m, viewer) == Counterpart(r[i], viewer)
      ensures m.sentAt <= r[i].sentAt
    {
      assert r[i] == LatestWith(vis, viewer, keys[i]);
    }
    forall m | m in vis
      ensures exists i :: 0 <= i < |r| && Counterpart(r[i], viewer) == Counterpart(m, viewer)
    {
      var j :| 0 <= j < |vis| && vis[j] == m;
      assert cps[j] in keys;
      var i :| 0 <= i < |keys| && keys[i] == cps[j];
      assert Counterpart(r[i], viewer) == Counterpart(m, viewer);
    }
    r
  }

  /** The inbox: the visible messages grouped by counterpart, one entry per
      group, holding that group's latest message. Groups appear in the order
      their counterpart first occurs. */
  function Inbox(msgs: seq<Message>, deletions: seq<MessageDeletion>, viewer: string): (r: seq<Message>)
    ensures forall i :: 0 <= i < |r| ==> r[i] in msgs && InInbox(r[i], deletions, viewer)
    ensures forall i, j :: 0 <= i < j < |r| ==> Counterpart(r[i], viewer) != Counterpart(r[j], viewer)
    ensures forall i, m :: (0 <= i < |r| && m in msgs && InInbox(m, deletions, viewer)
              && Counterpart(m, viewer) == Counterpart(r[i], viewer)) ==> m.sentAt <= r[i].sentAt
    ensures forall m :: m in msgs && InInbox(m, deletions, viewer) ==>
              exists i :: 0 <= i < |r| && Counterpart(r[i], viewer) == Counterpart(m, viewer)
  {
    LatestPerCounterpart(VisibleTo(msgs, deletions, viewer), viewer)
  }

  /** A message the viewer deleted for themselves is never an inbox entry. */
  lemma InboxHidesDeleted(msgs: seq<Message>, deletions: seq<MessageDeletion>, viewer: string, d: MessageDeletion)
    requires d in deletions && d.userId == viewer
    ensures forall m :: m in Inbox(msgs, deletions, viewer) ==> m.id != d.messageId
  {
    var r := Inbox(msgs, deletions, viewer);
    forall m | m in r ensures m.id != d.messageId {
      var i :| 0 <= i < |r| && r[i] == m;
    }
  }

  /** Deleting one more message for oneself can only drop inbox entries or
      replace an entry by an older message with the same counterpart; it
      never adds a counterpart. */
  lemma InboxCounterpartsShrink(msgs: seq<Message>, deletions: seq<MessageDeletion>, viewer: string, d: MessageDeletion)
    ensures forall m :: m in Inbox(msgs, deletions + [d], viewer) ==>
              exists i :: 0 <= i < |Inbox(msgs, deletions, viewer)|
                && Counterpart(Inbox(msgs, deletions, viewer)[i], viewer) == Counterpart(m, viewer)
                && m.sentAt <= Inbox(msgs, deletions, viewer)[i].sentAt
  {
    var after := Inbox(msgs, deletions + [d], viewer);
    forall m | m in after
      ensures exists i :: 0 <= i < |Inbox(msgs, deletions, viewer)|
                && Counterpart(Inbox(msgs, deletions, viewer)[i], viewer) == Counterpart(m, viewer)
                && m.sentAt <= Inbox(msgs, deletions, viewer)[i].sentAt
    {
      assert m in msgs && InInbox(m, deletions + [d], viewer) by {
        var k :| 0 <= k < |after| && after[k] == m;
      }
      DeletedForGrows(deletions, d, viewer, m.id);
      InboxCoversVisible(msgs, deletions, viewer, m);
    }
  }

  /** Every message the inbox may show is covered by the entry for its
      counterpart, which is at least as recent. */
  lemma InboxCoversVisible(msgs: seq<Message>, deletions: seq<MessageDeletion>, viewer: string, m: Message)
    requires m in msgs && InInbox(m, deletions, viewer)
    ensures exists i :: 0 <= i < |Inbox(msgs, deletions, viewer)|
              && Counterpart(Inbox(msgs, deletions, viewer)[i], viewer) == Counterpart(m, viewer)
              && m.sentAt <= Inbox(msgs, deletions, viewer)[i].sentAt
  {
    var before := Inbox(msgs, deletions, viewer);
    var i :| 0 <= i < |before| && Counterpart(before[i], viewer) == Counterpart(m, viewer);
    assert m.sentAt <= before[i].sentAt;
  }

  lemma DeletedForGrows(deletions: seq<MessageDeletion>, d: MessageDeletion, user: string, messageId: int)
    ensures DeletedFor(deletions, user, messageId) ==> DeletedFor(deletions + [d], user, messageId)
  {
    if DeletedFor(deletions, user, messageId) {
      var x :| x in deletions && x.userId == user && x.messageId == messageId;
      assert x in deletions + [d];
    }
  }

  /** Both directions of the conversation between `a` and `b`. */
  predicate Between(m: Message, a: string, b: string) {
    (m.senderId == a && m.receiverId == b) || (m.receiverId == a && m.senderId == b)
  }

  function Conversation(msgs: seq<Message>, a: string, b: string): (r: seq<Message>)
    ensures forall m :: m in r <==> m in msgs && Between(m, a, b)
  {
    Filter(msgs, m => Between(m, a, b))
  }

  function SentAt(m: Message): int {
    m.sentAt
  }

  /** The thread: every message between the two users, in either direction,
      ordered by `SentAt` ascending. Deletions are not consulted. */
  function Thread(msgs: seq<Message>, a: string, b: string): (r: seq<Message>)
    ensures SortedBy(r, SentAt)
    ensures multiset(r) == multiset(Conversation(msgs, a, b))
    ensures forall m :: m in r <==> m in msgs && Between(m, a, b)
  {
    var r := SortBy(Conversation(msgs, a, b), SentAt);
    assert forall m :: m in r <==> m in multiset(r);
    r
  }

  /** Each message of the conversation is in the thread exactly as many times
      as it is in the table. */
  lemma ThreadMultiplicity(msgs: seq<Message>, a: string, b: string, m: Message)
    requires Between(m, a, b)
    ensures multiset(Thread(msgs, a, b))[m] == multiset(msgs)[m]
  {
    FilterMultiplicity(msgs, m => Between(m, a, b), m);
  }

  /** The thread is the same seen from either side. */
  lemma ThreadSymmetric(msgs: seq<Message>, a: string, b: string)
    ensures multiset(Thread(msgs, a, b)) == multiset(Thread(msgs, b, a))
  {
    var p := (m: Message) => Between(m, a, b);
    var q := (m: Message) => Between(m, b, a);
    forall m ensures multiset(Filter(msgs, p))[m] == multiset(Filter(msgs, q))[m] {
      FilterMultiplicity(msgs, p, m);
      FilterMultiplicity(msgs, q, m);
    }
    assert Conversation(msgs, a, b) == Filter(msgs, p);
    assert Conversation(msgs, b, a) == Filter(msgs, q);
  }

  /** Opening a conversation marks read the messages `sender` sent to
      `reader` that were still unread. */
  predicate UnreadFrom(m: Message, reader: string, sender: string) {
    m.senderId == sender && m.receiverId == reader && !m.isRead
  }

  function MarkOne(m: Message, reader: string, sender: string, now: int): Message {
    if UnreadFrom(m, reader, sender) then m.(isRead := true, readAt := Some(now)) else m
  }

  /** The fields other than the read state are equal. */
  predicate SameButReadState(m: Message, n: Message) {
    m.id == n.id && m.senderId == n.senderId && m.receiverId == n.receiverId
    && m.content == n.content && m.sentAt == n.sentAt && m.audioPath == n.audioPath
    && m.isPinned == n.isPinned
  }

  function MarkedRead(msgs: seq<Message>, reader: string, sender: string, now: int): (r: seq<Message>)
    ensures |r| == |msgs|
    ensures forall i :: 0 <= i < |r| ==> r[i] == MarkOne(msgs[i], reader, sender, now)
    ensures forall i :: 0 <= i < |r| ==> SameButReadState(r[i], msgs[i])
    ensures forall i :: 0 <= i < |r| && UnreadFrom(msgs[i], reader, sender) ==>
              r[i].isRead && r[i].readAt == Some(now)
    ensures forall i :: 0 <= i < |r| && !UnreadFrom(msgs[i], reader, sender) ==> r[i] == msgs[i]
    ensures forall m :: m in r ==> !UnreadFrom(m, reader, sender)
  {
    if msgs == [] then []
    else [MarkOne(msgs[0], reader, sender, now)] + MarkedRead(msgs[1..], reader, sender, now)
  }

  /** Marking twice is marking once: the second pass finds nothing unread. */
  lemma MarkedReadIdempotent(msgs: seq<Message>, reader: string, sender: string, t1: int, t2: int)
    ensures MarkedRead(MarkedRead(msgs, reader, sender, t1), reader, sender, t2)
         == MarkedRead(msgs, reader, sender, t1)
  {
    var once := MarkedRead(msgs, reader, sender, t1);
    var twice := MarkedRead(once, reader, sender, t2);
    assert forall i :: 0 <= i < |once| ==> !UnreadFrom(once[i], reader, sender);
    assert |twice| == |once|;
    assert forall i :: 0 <= i < |twice| ==> twice[i] == once[i];
  }

  /** There is something to mark exactly when an unread message from
      `sender` to `reader` exists. */
  predicate AnyUnreadFrom(msgs: seq<Message>, reader: string, sender: string) {
    exists i :: 0 <= i < |msgs| && UnreadFrom(msgs[i], reader, sender)
  }

  lemma NothingUnreadLeavesTableAlone(msgs: seq<Message>, reader: string, sender: string, now: int)
    requires !AnyUnreadFrom(msgs, reader, sender)
    ensures MarkedRead(msgs, reader, sender, now) == msgs
  {
    var r := MarkedRead(msgs, reader, sender, now);
    assert forall i :: 0 <= i < |r| ==> r[i] == msgs[i];
  }

  /** A message unread by `user`: the badge counts these. */
  predicate UnreadBy(m: Message, user: Option<string>) {
    user.Some? && m.receiverId == user.value && !m.isRead
  }

  function UnreadMessageCount(msgs: seq<Message>, user: Option<string>): (n: nat)
    ensures n <= |msgs|
    ensures n == 0 <==> forall m :: m in msgs ==> !UnreadBy(m, user)
  {
    CountWhere(msgs, m => UnreadBy(m, user))
  }

  function CountUnreadFrom(msgs: seq<Message>, reader: string, sender: string): nat {
    if msgs == [] then 0
    else (if UnreadFrom(msgs[0], reader, sender) then 1 else 0) + CountUnreadFrom(msgs[1..], reader, sender)
  }

  /** Opening a conversation lowers the reader's unread badge by exactly the
      number of unread messages the other party had sent. */
  lemma {:induction false} MarkedReadLowersBadge(msgs: seq<Message>, reader: string, sender: string, now: int)
    ensures UnreadMessageCount(MarkedRead(msgs, reader, sender, now), Some(reader))
         == UnreadMessageCount(msgs, Some(reader)) - CountUnreadFrom(msgs, reader, sender)
  {
    var p := (m: Message) => UnreadBy(m, Some(reader));
    if msgs != [] {
      var r := MarkedRead(msgs, reader, sender, now);
      MarkedReadLowersBadge(msgs[1..], reader, sender, now);
      assert r[1..] == MarkedRead(msgs[1..], reader, sender, now);
      assert Filter(msgs, p) == (if p(msgs[0]) then [msgs[0]] else []) + Filter(msgs[1..], p);
      assert Filter(r, p) == (if p(r[0]) then [r[0]] else []) + Filter(r[1..], p);
    }
  }

  /** `users.Where(u => ids.Contains(u.Id))`. */
  function UsersAmong(users: seq<User>, ids: seq<string>): (r: seq<User>)
    ensures forall u :: u in r <==> u in users && u.id in ids
  {
    Filter(users, (u: User) => u.id in ids)
  }

  /** `users.Where(u => u.Id != viewer)`: everyone one can start a chat with. */
  function OtherThan(users: seq<User>, viewer: string): (r: seq<User>)
    ensures forall u :: u in r <==> u in users && u.id != viewer
  {
    Filter(users, (u: User) => u.id != viewer)
  }

  /** What the inbox page shows. `noChats` selects the "no chats yet"
      notice. */
  datatype InboxPage = InboxPage(
    conversations: seq<Message>,
    otherUsers: seq<User>,
    availableUsers: seq<User>,
    noChats: bool)

  /** `Select(c => counterpart).Distinct()` over the inbox entries. */
  function CounterpartIds(conversations: seq<Message>, viewer: string): (ids: seq<string>)
    ensures NoDuplicates(ids)
    ensures forall x :: x in ids <==> exists c :: c in conversations && Counterpart(c, viewer) == x
  {
    var cps := CounterpartsOf(conversations, viewer);
    forall c | c in conversations ensures Counterpart(c, viewer) in cps {
      var i :| 0 <= i < |conversations| && conversations[i] == c;
      assert cps[i] == Counterpart(c, viewer);
    }
    Distinct(cps)
  }

  /** The inbox is empty exactly when no message is visible to the viewer. */
  lemma InboxEmptyIffNothingVisible(msgs: seq<Message>, deletions: seq<MessageDeletion>, viewer: string)
    ensures Inbox(msgs, deletions, viewer) == [] <==> forall m :: m in msgs ==> !InInbox(m, deletions, viewer)
  {
    var r := Inbox(msgs, deletions, viewer);
    if r != [] {
      assert r[0] in msgs && InInbox(r[0], deletions, viewer);
    }
  }

  function InboxPageOf(users: seq<User>, msgs: seq<Message>, deletions: seq<MessageDeletion>, viewer: string): (page: InboxPage)
    ensures page.conversations == Inbox(msgs, deletions, viewer)
    ensures forall u :: u in page.otherUsers <==>
              u in users && exists c :: c in page.conversations && Counterpart(c, viewer) == u.id
    ensures forall u :: u in page.availableUsers <==> u in users && u.id != viewer
    ensures page.noChats <==> forall m :: m in msgs ==> !InInbox(m, deletions, viewer)
  {
    var conversations := Inbox(msgs, deletions, viewer);
    InboxEmptyIffNothingVisible(msgs, deletions, viewer);
    InboxPage(conversations, UsersAmong(users, CounterpartIds(conversations, viewer)),
              OtherThan(users, viewer), conversations == [])
  }

  /** The position of the first user with this id. */
  function UserIndex(users: seq<User>, id: string): (r: Option<nat>)
    ensures r.Some? ==> r.value < |users| && users[r.value].id == id
    ensures r.Some? ==> forall j :: 0 <= j < r.value ==> users[j].id != id
    ensures r.None? <==> forall u :: u in users ==> u.id != id
  {
    FirstIndex(users, (u: User) => u.id == id)
  }

  /** Records that `id` was seen at `now`: the first row with that id gets
      `LastSeen = now` and every other row stays as it was; an unknown id
      changes nothing. */
  function TouchLastSeen(users: seq<User>, id: string, now: int): (r: seq<User>)
    ensures |r| == |users|
    ensures UserIndex(users, id).None? ==> r == users
    ensures UserIndex(users, id).Some? ==>
              var k := UserIndex(users, id).value;
              r[k] == users[k].(lastSeen := Some(now))
              && forall j :: 0 <= j < |users| && j != k ==> r[j] == users[j]
  {
    match UserIndex(users, id)
    case None => users
    case Some(k) => users[k := users[k].(lastSeen := Some(now))]
  }

  /** After the stamp, looking the viewer up by id (`FindAsync`, as the
      later reads do) finds the stamped row with `LastSeen == now`. */
  lemma TouchedViewerIsSeen(users: seq<User>, id: string, now: int)
    requires UserIndex(users, id).Some?
    ensures var u := users[UserIndex(users, id).value];
            FindUser(TouchLastSeen(users, id, now), id) == Some(u.(lastSeen := Some(now)))
  {
    var k := UserIndex(users, id).value;
    var r := TouchLastSeen(users, id, now);
    assert forall j :: 0 <= j < k ==> r[j] == users[j];
    FindUserFirst(r, id, k);
  }

  /** The read-marking loop of the chat pages: walks the table and marks
      each unread message from `sender` to `reader` in place. Reports
      whether it marked anything. */
  method MarkReadInPlace(db: Db, reader: string, sender: string, now: int) returns (any: bool)
    modifies db`messages
    ensures db.messages == MarkedRead(old(db.messages), reader, sender, now)
    ensures any == AnyUnreadFrom(old(db.messages), reader, sender)
  {
    ghost var orig := db.messages;
    any := false;
    var i := 0;
    while i < |db.messages|
      invariant |db.messages| == |orig| && 0 <= i <= |orig|
      invariant forall j :: 0 <= j < i ==> db.messages[j] == MarkOne(orig[j], reader, sender, now)
      invariant forall j :: i <= j < |orig| ==> db.messages[j] == orig[j]
      invariant any == exists j :: 0 <= j < i && UnreadFrom(orig[j], reader, sender)
    {
      var m := db.messages[i];
      if UnreadFrom(m, reader, sender) {
        db.messages := db.messages[i := m.(isRead := true, readAt := Some(now))];
        any := true;
      }
      i := i + 1;
    }
    assert db.messages == MarkedRead(orig, reader, sender, now);
  }

  /** The steps both chat pages take before reading: stamp the viewer's
      last-seen time and save, mark read what `other` sent the viewer, and
      save again only if something was marked. */
  method OpenChat(db: Db, viewer: string, other: string, now: int)
    requires UserIndex(db.users, viewer).Some?
    modifies db`users, db`messages, db`log
    ensures db.users == TouchLastSeen(old(db.users), viewer, now)
    ensures db.messages == MarkedRead(old(db.messages), viewer, other, now)
    ensures db.log == old(db.log) + [Commit]
                      + (if AnyUnreadFrom(old(db.messages), viewer, other) then [Commit] else [])
  {
    db.users := TouchLastSeen(db.users, viewer, now);
    db.log := db.log + [Commit];
    var any := MarkReadInPlace(db, viewer, other, now);
    if any {
      db.log := db.log + [Commit];
    }
  }
}
