/** The notification page of a content creator and marking a
    notification as read. */
module NotificationPage {
  import opened Common
  import opened Records
  import opened Messages
  import opened Store
  import Conversations

  function OwnedBy(userId: string): Notification -> bool {
    (n: Notification) => n.userId == userId
  }

  function CreatedAt(n: Notification): int {
    n.createdAt
  }

  datatype Page = Page(notifications: seq<Notification>, unreadNotifications: nat, unreadMessages: nat)

  /** `Index()`: the viewer's notifications, newest first, and the two
      badges. */
  function Index(notes: seq<Notification>, msgs: seq<Message>, viewer: string): (page: Page)
    ensures multiset(page.notifications) == multiset(Filter(notes, OwnedBy(viewer)))
    ensures forall n :: n in page.notifications <==> n in notes && n.userId == viewer
    ensures forall i, j :: 0 <= i < j < |page.notifications| ==>
              page.notifications[i].createdAt >= page.notifications[j].createdAt
    ensures page.unreadNotifications == UnreadNotificationCount(notes, Some(viewer))
    ensures page.unreadMessages == Conversations.UnreadMessageCount(msgs, Some(viewer))
  {
    var owned := Filter(notes, OwnedBy(viewer));
    var r := SortByDescending(owned, CreatedAt);
    forall n ensures n in r <==> n in owned {
      assert n in r <==> n in multiset(r);
      assert n in owned <==> n in multiset(owned);
    }
    Page(r, UnreadNotificationCount(notes, Some(viewer)), Conversations.UnreadMessageCount(msgs, Some(viewer)))
  }

  /** The unread badge counts exactly the unread notifications the page
      lists. */
  lemma BadgeCountsListedUnread(notes: seq<Notification>, msgs: seq<Message>, viewer: string)
    ensures Index(notes, msgs, viewer).unreadNotifications == CountWhere(Index(notes, msgs, viewer).notifications, IsUnread)
  {
    var listed := Filter(notes, OwnedBy(viewer));
    var page := Index(notes, msgs, viewer);
    FilterComposes(notes, OwnedBy(viewer), IsUnread, (x: Notification) => UnreadFor(x, Some(viewer)));
    CountWherePermutation(page.notifications, listed, IsUnread);
  }

  function IsUnread(n: Notification): bool {
    !n.isRead
  }

  function NotificationIndex(notes: seq<Notification>, id: int): (r: Option<nat>)
    ensures r.Some? ==> r.value < |notes| && notes[r.value].id == id
    ensures r.None? <==> forall n :: n in notes ==> n.id != id
  {
    FirstIndex(notes, (n: Notification) => n.id == id)
  }

  /** The table after `MarkAsRead(id)`: the notification found by id is
      read; anyone may mark any notification. */
  function MarkedAsRead(notes: seq<Notification>, id: int): (r: seq<Notification>)
    ensures |r| == |notes|
    ensures NotificationIndex(notes, id).None? ==> r == notes
    ensures NotificationIndex(notes, id).Some? ==>
              var k := NotificationIndex(notes, id).value;
              r[k].isRead && r[k].(isRead := notes[k].isRead) == notes[k]
              && forall j :: 0 <= j < |notes| && j != k ==> r[j] == notes[j]
  {
    match NotificationIndex(notes, id)
    case None => notes
    case Some(k) => notes[k := notes[k].(isRead := true)]
  }

  /** Marking twice is marking once. */
  lemma MarkAsReadIdempotent(notes: seq<Notification>, id: int)
    ensures MarkedAsRead(MarkedAsRead(notes, id), id) == MarkedAsRead(notes, id)
  {
    var once := MarkedAsRead(notes, id);
    if NotificationIndex(notes, id).Some? {
      var k := NotificationIndex(notes, id).value;
      assert forall j :: 0 <= j < k ==> once[j] == notes[j];
      assert NotificationIndex(once, id) == Some(k);
    }
  }

  /** Marking lowers the owner's badge by one when the notification was
      unread, and leaves every badge alone otherwise. */
  lemma MarkAsReadLowersBadge(notes: seq<Notification>, id: int, user: string)
    ensures var k := NotificationIndex(notes, id);
            UnreadNotificationCount(MarkedAsRead(notes, id), Some(user))
            == UnreadNotificationCount(notes, Some(user))
               - (if k.Some? && UnreadFor(notes[k.value], Some(user)) then 1 else 0)
  {
    var p := (x: Notification) => UnreadFor(x, Some(user));
    if NotificationIndex(notes, id).Some? {
      var k := NotificationIndex(notes, id).value;
      var r := MarkedAsRead(notes, id);
      assert RemoveAt(r, k) == RemoveAt(notes, k);
      CountWhereRemoveAt(notes, k, p);
      CountWhereRemoveAt(r, k, p);
    }
  }

  /** `MarkAsRead(id)`. */
  method MarkAsRead(db: Db, id: int) returns (status: Status)
    modifies db`notifications, db`log
    ensures status == Redirect("Notification/Index")
    ensures NotificationIndex(old(db.notifications), id).None? ==> unchanged(db)
    ensures NotificationIndex(old(db.notifications), id).Some? ==>
              db.notifications == MarkedAsRead(old(db.notifications), id) && db.log == old(db.log) + [Commit]
  {
    var idx := NotificationIndex(db.notifications, id);
    if idx.Some? {
      db.notifications := db.notifications[idx.value := db.notifications[idx.value].(isRead := true)];
      db.log := db.log + [Commit];
    }
    status := Redirect("Notification/Index");
  }
}
