/** The admin area's messaging controller: the same inbox and read marking
    as the content creators', plus the pinned message of a thread and the
    reactions on its messages grouped by message and by emoji. */
module AdminMessages {
  import opened Common
  import opened Messages
  import opened Records
  import opened Store
  import opened Conversations

  /** The inbox page; the query is the content creators' one, and a viewer
      without an account fails on `user.Id` in the same way. */
  method Index(db: Db, viewer: string) returns (status: Status, page: Option<InboxPage>)
    ensures UserIndex(db.users, viewer).None? <==> status == ServerError
    ensures UserIndex(db.users, viewer).None? ==> page.None?
    ensures UserIndex(db.users, viewer).Some? ==>
              status == Ok && page == Some(InboxPageOf(db.users, db.messages, db.deletions, viewer))
    ensures page.Some? ==>
              (page.value.noChats <==> forall m :: m in db.messages ==> !InInbox(m, db.deletions, viewer))
  {
    if UserIndex(db.users, viewer).None? {
      return ServerError, None;
    }
    status := Ok;
    page := Some(InboxPageOf(db.users, db.messages, db.deletions, viewer));
  }

  predicate PinnedBetween(m: Message, a: string, b: string) {
    Between(m, a, b) && m.isPinned
  }

  /** The first pinned message of the conversation in table order. */
  function PinnedMessage(msgs: seq<Message>, a: string, b: string): (r: Option<Message>)
    ensures r.Some? ==> r.value in msgs && Between(r.value, a, b) && r.value.isPinned
    ensures r.None? <==> forall m :: m in msgs && Between(m, a, b) ==> !m.isPinned
    ensures r.Some? ==> exists k :: 0 <= k < |msgs| && msgs[k] == r.value
                                    && forall j :: 0 <= j < k ==> !PinnedBetween(msgs[j], a, b)
  {
    match FirstIndex(msgs, PinnedIn(a, b))
    case None => None
    case Some(k) => Some(msgs[k])
  }

  function PinnedIn(a: string, b: string): Message -> bool {
    m => PinnedBetween(m, a, b)
  }

  /** Marking messages read touches no pin: the pinned message of a thread
      is the same before and after (up to its read state). */
  lemma PinnedSurvivesMarking(msgs: seq<Message>, reader: string, sender: string, now: int, a: string, b: string)
    ensures PinnedMessage(MarkedRead(msgs, reader, sender, now), a, b).None? <==> PinnedMessage(msgs, a, b).None?
    ensures PinnedMessage(msgs, a, b).Some? ==>
              SameButReadState(PinnedMessage(MarkedRead(msgs, reader, sender, now), a, b).value,
                               PinnedMessage(msgs, a, b).value)
  {
    var marked := MarkedRead(msgs, reader, sender, now);
    var p := PinnedIn(a, b);
    forall j | 0 <= j < |msgs| ensures p(marked[j]) == p(msgs[j]) {
      assert SameButReadState(marked[j], msgs[j]);
    }
    FirstIndexPointwise(marked, msgs, p);
  }

  /** One entry of a message's reaction list: an emoji, how many reacted
      with it, and the first names of those who did (in table order). */
  datatype ReactionGroup = ReactionGroup(emoji: string, count: nat, users: seq<Option<string>>)

  function OnMessage(messageId: int): MessageReaction -> bool {
    (x: MessageReaction) => x.messageId == messageId
  }

  /** The reactions to one message, in table order. */
  function ReactionsTo(reactions: seq<MessageReaction>, messageId: int): (r: seq<MessageReaction>)
    ensures forall x :: x in r <==> x in reactions && x.messageId == messageId
  {
    Filter(reactions, OnMessage(messageId))
  }

  function HasEmoji(emoji: string): MessageReaction -> bool {
    (x: MessageReaction) => x.reaction == emoji
  }

  /** The first name of whoever left a reaction, if that user exists. */
  function ReactorName(users: seq<User>, r: MessageReaction): Option<string> {
    match FindUser(users, r.userId)
    case None => None
    case Some(u) => u.details.firstName
  }

  function ReactorNames(rs: seq<MessageReaction>, users: seq<User>): (names: seq<Option<string>>)
    ensures |names| == |rs|
    ensures forall i :: 0 <= i < |rs| ==> names[i] == ReactorName(users, rs[i])
  {
    seq(|rs|, i requires 0 <= i < |rs| => ReactorName(users, rs[i]))
  }

  function Emojis(rs: seq<MessageReaction>): (es: seq<string>)
    ensures |es| == |rs|
    ensures forall i :: 0 <= i < |rs| ==> es[i] == rs[i].reaction
  {
    seq(|rs|, i requires 0 <= i < |rs| => rs[i].reaction)
  }

  /** `new { Reaction = rg.Key, Count = rg.Count(), Users = ... }` for one
      emoji: the number of rows with that emoji, and the first names of
      the users who left them, one per row, in table order. */
  function GroupOf(rs: seq<MessageReaction>, emoji: string, users: seq<User>): (g: ReactionGroup)
    ensures g.emoji == emoji
    ensures g.count == CountWhere(rs, HasEmoji(emoji))
    ensures g.users == ReactorNames(Filter(rs, HasEmoji(emoji)), users)
    ensures |g.users| == g.count
    ensures forall i :: 0 <= i < |g.users| ==>
              exists x :: x in rs && x.reaction == emoji && g.users[i] == ReactorName(users, x)
  {
    var with := Filter(rs, HasEmoji(emoji));
    assert forall i :: 0 <= i < |with| ==> with[i] in with;
    ReactionGroup(emoji, |with|, ReactorNames(with, users))
  }

  function GroupsOver(rs: seq<MessageReaction>, emojis: seq<string>, users: seq<User>): (gs: seq<ReactionGroup>)
    ensures |gs| == |emojis|
    ensures forall i :: 0 <= i < |gs| ==> gs[i] == GroupOf(rs, emojis[i], users)
  {
    if emojis == [] then [] else [GroupOf(rs, emojis[0], users)] + GroupsOver(rs, emojis[1..], users)
  }

  predicate UsesEmoji(rs: seq<MessageReaction>, e: string) {
    exists x :: x in rs && x.reaction == e
  }

  predicate HasGroup(gs: seq<ReactionGroup>, e: string) {
    exists i :: 0 <= i < |gs| && gs[i].emoji == e
  }

  lemma EmojisUsed(rs: seq<MessageReaction>)
    ensures forall e :: e in Emojis(rs) <==> UsesEmoji(rs, e)
  {
    var es := Emojis(rs);
    forall e | UsesEmoji(rs, e) ensures e in es {
      var x :| x in rs && x.reaction == e;
      var k :| 0 <= k < |rs| && rs[k] == x;
      assert es[k] == e;
    }
  }

  /** `GroupBy(r => r.Reaction)` over one message's reactions: one group per
      distinct emoji, in order of first use. */
  function GroupsFor(rs: seq<MessageReaction>, users: seq<User>): (gs: seq<ReactionGroup>)
    ensures forall i, j :: 0 <= i < j < |gs| ==> gs[i].emoji != gs[j].emoji
    ensures forall e :: HasGroup(gs, e) <==> UsesEmoji(rs, e)
    ensures forall i :: 0 <= i < |gs| ==> gs[i] == GroupOf(rs, gs[i].emoji, users)
    ensures forall i :: 0 <= i < |gs| ==> gs[i].count > 0
  {
    var es := Distinct(Emojis(rs));
    EmojisUsed(rs);
    GroupsOverCounted(rs, es, users);
    GroupsOverEmojis(rs, es, users);
    GroupsOver(rs, es, users)
  }

  /** Groups over emojis that are all in use are non-empty. */
  lemma GroupsOverCounted(rs: seq<MessageReaction>, es: seq<string>, users: seq<User>)
    requires forall e :: e in es ==> UsesEmoji(rs, e)
    ensures forall i :: 0 <= i < |es| ==> GroupsOver(rs, es, users)[i].count > 0
  {
    forall i | 0 <= i < |es| ensures GroupsOver(rs, es, users)[i].count > 0 {
      assert es[i] in es;
      var x :| x in rs && x.reaction == es[i];
      assert HasEmoji(es[i])(x);
    }
  }

  /** The groups over `es` are exactly the groups of the emojis in `es`. */
  lemma GroupsOverEmojis(rs: seq<MessageReaction>, es: seq<string>, users: seq<User>)
    ensures forall e :: HasGroup(GroupsOver(rs, es, users), e) <==> e in es
  {
    var gs := GroupsOver(rs, es, users);
    forall e | e in es ensures HasGroup(gs, e) {
      var i :| 0 <= i < |es| && es[i] == e;
      assert gs[i].emoji == e;
    }
  }

  function TotalCount(gs: seq<ReactionGroup>): nat {
    if gs == [] then 0 else gs[0].count + TotalCount(gs[1..])
  }

  /** How many rows of `rs` carry one of `emojis`. */
  function CountIn(rs: seq<MessageReaction>, emojis: seq<string>): nat {
    if rs == [] then 0 else (if rs[0].reaction in emojis then 1 else 0) + CountIn(rs[1..], emojis)
  }

  lemma {:induction false} CountInSplit(rs: seq<MessageReaction>, e: string, rest: seq<string>)
    requires e !in rest
    ensures CountIn(rs, [e] + rest) == CountWhere(rs, HasEmoji(e)) + CountIn(rs, rest)
  {
    if rs != [] {
      CountInSplit(rs[1..], e, rest);
    }
  }

  lemma {:induction false} GroupsOverTotal(rs: seq<MessageReaction>, emojis: seq<string>, users: seq<User>)
    requires NoDuplicates(emojis)
    ensures TotalCount(GroupsOver(rs, emojis, users)) == CountIn(rs, emojis)
  {
    if emojis == [] {
      CountInNone(rs);
    } else {
      GroupsOverTotal(rs, emojis[1..], users);
      assert emojis == [emojis[0]] + emojis[1..];
      assert emojis[0] !in emojis[1..];
      CountInSplit(rs, emojis[0], emojis[1..]);
    }
  }

  lemma {:induction false} CountInNone(rs: seq<MessageReaction>)
    ensures CountIn(rs, []) == 0
  {
    if rs != [] {
      CountInNone(rs[1..]);
    }
  }

  lemma {:induction false} CountInAll(rs: seq<MessageReaction>, emojis: seq<string>)
    requires forall x :: x in rs ==> x.reaction in emojis
    ensures CountIn(rs, emojis) == |rs|
  {
    if rs != [] {
      CountInAll(rs[1..], emojis);
    }
  }

  /** The groups of a message partition its reactions: their counts add up
      to the number of reactions. */
  lemma ReactionGroupsPartition(rs: seq<MessageReaction>, users: seq<User>)
    ensures TotalCount(GroupsFor(rs, users)) == |rs|
  {
    var es := Distinct(Emojis(rs));
    assert GroupsFor(rs, users) == GroupsOver(rs, es, users);
    GroupsOverTotal(rs, es, users);
    EmojisCoverReactions(rs);
    CountInAll(rs, es);
  }

  /** Every reaction's emoji is among the distinct emojis. */
  lemma EmojisCoverReactions(rs: seq<MessageReaction>)
    ensures forall x :: x in rs ==> x.reaction in Distinct(Emojis(rs))
  {
    forall x | x in rs ensures x.reaction in Distinct(Emojis(rs)) {
      var k :| 0 <= k < |rs| && rs[k] == x;
      assert Emojis(rs)[k] == x.reaction;
    }
  }

  predicate HasReaction(reactions: seq<MessageReaction>, messageId: int) {
    exists x :: x in reactions && x.messageId == messageId
  }

  /** `ViewBag.MessageReactions`: for every message of the thread that has
      reactions, its reactions grouped by emoji. */
  function ReactionTally(reactions: seq<MessageReaction>, users: seq<User>, messageIds: seq<int>): (t: map<int, seq<ReactionGroup>>)
    ensures forall id :: id in t <==> id in messageIds && HasReaction(reactions, id)
    ensures forall id :: id in t ==> t[id] == GroupsFor(ReactionsTo(reactions, id), users)
  {
    map id | id in messageIds && HasReaction(reactions, id) :: GroupsFor(ReactionsTo(reactions, id), users)
  }

  /** Every reaction to a message of the thread is counted once, under its
      own emoji. */
  lemma TallyCountsEveryReaction(reactions: seq<MessageReaction>, users: seq<User>, messageIds: seq<int>, id: int)
    requires id in ReactionTally(reactions, users, messageIds)
    ensures TotalCount(ReactionTally(reactions, users, messageIds)[id]) == |ReactionsTo(reactions, id)|
  {
    ReactionGroupsPartition(ReactionsTo(reactions, id), users);
  }

  function OnMessageWithEmoji(messageId: int, emoji: string): MessageReaction -> bool {
    (x: MessageReaction) => x.messageId == messageId && x.reaction == emoji
  }

  /** Each group of a tallied message counts the reactions of the whole
      table that are to that message and carry that group's emoji. */
  lemma TallyCountsPerEmoji(reactions: seq<MessageReaction>, users: seq<User>, messageIds: seq<int>, id: int, i: nat)
    requires id in ReactionTally(reactions, users, messageIds)
    requires i < |ReactionTally(reactions, users, messageIds)[id]|
    ensures var g := ReactionTally(reactions, users, messageIds)[id][i];
            g.count == CountWhere(reactions, OnMessageWithEmoji(id, g.emoji))
  {
    var g := ReactionTally(reactions, users, messageIds)[id][i];
    FilterComposes(reactions, OnMessage(id), HasEmoji(g.emoji), OnMessageWithEmoji(id, g.emoji));
  }

  function IdsOf(msgs: seq<Message>): (ids: seq<int>)
    ensures |ids| == |msgs|
    ensures forall i :: 0 <= i < |msgs| ==> ids[i] == msgs[i].id
  {
    seq(|msgs|, i requires 0 <= i < |msgs| => msgs[i].id)
  }

  /** What the admin chat page shows besides the thread. */
  datatype ChatExtras = ChatExtras(
    pinned: Option<Message>,
    chatUser: Option<User>,
    reactions: map<int, seq<ReactionGroup>>)

  /** `Chat(userId)`: records the viewer's last-seen time (saved at once),
      marks read what `other` sent the viewer and saves only if something
      was marked, then reads the thread, its pinned message, the other user
      and the reactions to the thread's messages. A viewer whose account
      no longer exists is a null user: stamping it throws before anything
      is saved. */
  method Chat(db: Db, viewer: string, other: string, now: int)
    returns (status: Status, thread: seq<Message>, extras: ChatExtras)
    modifies db`users, db`messages, db`log
    ensures UserIndex(old(db.users), viewer).None? ==>
              status == ServerError && thread == [] && extras == ChatExtras(None, None, map[])
              && unchanged(db)
    ensures UserIndex(old(db.users), viewer).Some? ==>
              status == Ok
              && db.users == TouchLastSeen(old(db.users), viewer, now)
              && db.messages == MarkedRead(old(db.messages), viewer, other, now)
              && db.log == old(db.log) + [Commit]
                           + (if AnyUnreadFrom(old(db.messages), viewer, other) then [Commit] else [])
              && thread == Thread(db.messages, viewer, other)
              && extras.pinned == PinnedMessage(db.messages, viewer, other)
              && extras.chatUser == FindUser(db.users, other)
              && extras.reactions == ReactionTally(db.reactions, db.users, IdsOf(thread))
  {
    if UserIndex(db.users, viewer).None? {
      return ServerError, [], ChatExtras(None, None, map[]);
    }
    OpenChat(db, viewer, other, now);
    var view := ChatView(db.messages, db.users, db.reactions, viewer, other);
    status := Ok;
    thread, extras := view.0, view.1;
  }

  /** The reads of the chat page once the thread is marked: the thread, its
      pinned message, the other user and the reactions to the thread. */
  function ChatView(msgs: seq<Message>, users: seq<User>, reactions: seq<MessageReaction>,
                    viewer: string, other: string): (r: (seq<Message>, ChatExtras))
    ensures r.0 == Thread(msgs, viewer, other)
    ensures r.1.pinned == PinnedMessage(msgs, viewer, other)
    ensures r.1.chatUser == FindUser(users, other)
    ensures r.1.reactions == ReactionTally(reactions, users, IdsOf(r.0))
  {
    var thread := Thread(msgs, viewer, other);
    (thread, ChatExtras(PinnedMessage(msgs, viewer, other), FindUser(users, other),
                        ReactionTally(reactions, users, IdsOf(thread))))
  }
}
