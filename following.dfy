/** The following controller: the feed of followed authors' posts with its
    search filter, follow and unfollow, the profile counts, and this
    controller's own like toggle. */
module FollowFeed {
  import opened Common
  import opened Text
  import opened Records
  import opened Messages
  import opened Posts
  import opened Store
  import opened Likes
  import Calendar
  import Conversations

  /** The ids `viewer` follows, in table order. Nobody signed in follows
      nobody. */
  function FollowedIds(followings: seq<Following>, viewer: Option<string>): (r: seq<string>)
    ensures forall x :: x in r <==> Follows(followings, viewer, x)
  {
    if followings == [] || viewer.None? then []
    else
      var rest := FollowedIds(followings[1..], viewer);
      assert forall f :: f in followings <==> f == followings[0] || f in followings[1..];
      if followings[0].followerId == viewer.value then [followings[0].followingId] + rest else rest
  }

  /** The category name of a post, if its category exists. */
  function CategoryName(categories: seq<Category>, id: int): Option<string> {
    match FirstIndex(categories, (c: Category) => c.id == id)
    case None => None
    case Some(k) => Some(categories[k].name)
  }

  /** The author's user name, if the author exists. */
  function PublisherName(users: seq<User>, id: string): Option<string> {
    match FindUser(users, id)
    case None => None
    case Some(u) => Some(u.userName)
  }

  /** What the search box asks for. `date` is the day `DateTime.TryParse`
      reads from the term, if it reads one. */
  datatype Search = Search(term: Option<string>, filterBy: Option<string>, date: Option<int>)

  /** The `filterBy` switch: a post passes when the term is empty, when the
      filter is unknown, when "date" was asked but the term is no date, or
      when its field matches. */
  predicate MatchesSearch(p: Post, users: seq<User>, categories: seq<Category>, s: Search) {
    if IsNullOrEmpty(s.term) || s.filterBy.None? then true
    else
      var term := s.term.value;
      match s.filterBy.value
      case "title" => Contains(p.title, term)
      case "category" => CategoryName(categories, p.categoryId).Some? && Contains(CategoryName(categories, p.categoryId).value, term)
      case "publisher" => PublisherName(users, p.userId).Some? && Contains(PublisherName(users, p.userId).value, term)
      case "date" => s.date.None? || Calendar.DayOf(p.publishedDate) == s.date.value
      case "tag" => !IsNullOrEmpty(p.tags) && Contains(p.tags.value, ToLower(term))
      case _ => true
  }

  /** An unknown `filterBy` filters nothing. */
  lemma UnknownFilterKeepsAll(p: Post, users: seq<User>, categories: seq<Category>, s: Search)
    requires s.filterBy.Some? && s.filterBy.value !in {"title", "category", "publisher", "date", "tag"}
    ensures MatchesSearch(p, users, categories, s)
  {
  }

  /** A tag search never matches a post without tags, and matches on the
      lower-cased term. */
  lemma TagSearchNeedsTags(p: Post, users: seq<User>, categories: seq<Category>, term: string, date: Option<int>)
    requires term != []
    ensures MatchesSearch(p, users, categories, Search(Some(term), Some("tag"), date))
            <==> p.tags.Some? && p.tags.value != [] && Contains(p.tags.value, ToLower(term))
  {
  }

  predicate InFeed(p: Post, followed: seq<string>, categoryId: Option<int>,
                   users: seq<User>, categories: seq<Category>, s: Search) {
    p.userId in followed && p.isPublished
    && (categoryId.None? || p.categoryId == categoryId.value)
    && MatchesSearch(p, users, categories, s)
  }

  /** One feed card. */
  datatype FeedItem = FeedItem(post: Post, isFollowing: bool, isSaved: bool)

  predicate SavedBy(saved: seq<SavedPost>, viewer: Option<string>, postId: int) {
    viewer.Some? && exists sp :: sp in saved && sp.userId == viewer.value && sp.postId == postId
  }

  function PublishedDate(p: Post): int {
    p.publishedDate
  }

  function FeedPosts(posts: seq<Post>, followed: seq<string>, categoryId: Option<int>,
                     users: seq<User>, categories: seq<Category>, s: Search): (r: seq<Post>)
    ensures forall i, j :: 0 <= i < j < |r| ==> r[i].publishedDate >= r[j].publishedDate
    ensures multiset(r) == multiset(Filter(posts, (p: Post) => InFeed(p, followed, categoryId, users, categories, s)))
    ensures forall p :: p in r <==> p in posts && InFeed(p, followed, categoryId, users, categories, s)
  {
    var r := SortByDescending(Filter(posts, (p: Post) => InFeed(p, followed, categoryId, users, categories, s)), PublishedDate);
    assert forall p :: p in r <==> p in multiset(r);
    r
  }

  function FeedItems(ps: seq<Post>, followings: seq<Following>, saved: seq<SavedPost>, viewer: Option<string>): (r: seq<FeedItem>)
    ensures |r| == |ps|
    ensures forall i :: 0 <= i < |ps| ==>
              (r[i].post == ps[i]
               && (r[i].isFollowing <==> Follows(followings, viewer, ps[i].userId))
               && (r[i].isSaved <==> SavedBy(saved, viewer, ps[i].id)))
  {
    seq(|ps|, i requires 0 <= i < |ps| =>
      FeedItem(ps[i], Follows(followings, viewer, ps[i].userId), SavedBy(saved, viewer, ps[i].id)))
  }

  /** The posts of the cards, in card order. */
  function CardPosts(items: seq<FeedItem>): (r: seq<Post>)
    ensures |r| == |items| && forall i :: 0 <= i < |items| ==> r[i] == items[i].post
  {
    seq(|items|, i requires 0 <= i < |items| => items[i].post)
  }

  /** The feed page: its cards and the two badges. */
  datatype FeedPage = FeedPage(items: seq<FeedItem>, unreadNotifications: nat, unreadMessages: nat)

  /** `FollowingPosts(searchTerm, filterBy, categoryId)`. */
  function FollowingPosts(posts: seq<Post>, users: seq<User>, categories: seq<Category>,
                          followings: seq<Following>, saved: seq<SavedPost>,
                          notes: seq<Notification>, msgs: seq<Message>,
                          viewer: Option<string>, s: Search, categoryId: Option<int>): (page: FeedPage)
    ensures forall i :: 0 <= i < |page.items| ==>
              page.items[i].post in posts && page.items[i].post.isPublished
              && Follows(followings, viewer, page.items[i].post.userId)
              && MatchesSearch(page.items[i].post, users, categories, s)
              && (categoryId.None? || page.items[i].post.categoryId == categoryId.value)
    ensures forall p :: (p in posts && p.isPublished && Follows(followings, viewer, p.userId)
                         && (categoryId.None? || p.categoryId == categoryId.value)
                         && MatchesSearch(p, users, categories, s))
              ==> exists i :: 0 <= i < |page.items| && page.items[i].post == p
    ensures forall i, j :: 0 <= i < j < |page.items| ==> page.items[i].post.publishedDate >= page.items[j].post.publishedDate
    ensures multiset(CardPosts(page.items))
            == multiset(Filter(posts, (p: Post) => InFeed(p, FollowedIds(followings, viewer), categoryId, users, categories, s)))
    ensures forall i :: 0 <= i < |page.items| ==> (page.items[i].isSaved <==> SavedBy(saved, viewer, page.items[i].post.id))
    ensures page.unreadNotifications == UnreadNotificationCount(notes, viewer)
    ensures page.unreadMessages == Conversations.UnreadMessageCount(msgs, viewer)
  {
    var followed := FollowedIds(followings, viewer);
    var ps := FeedPosts(posts, followed, categoryId, users, categories, s);
    var items := FeedItems(ps, followings, saved, viewer);
    assert CardPosts(items) == ps;
    forall p | (p in posts && p.isPublished && Follows(followings, viewer, p.userId)
                && (categoryId.None? || p.categoryId == categoryId.value)
                && MatchesSearch(p, users, categories, s))
      ensures exists i :: 0 <= i < |items| && items[i].post == p
    {
      assert p in ps;
      var i :| 0 <= i < |ps| && ps[i] == p;
      assert items[i].post == p;
    }
    FeedPage(items, UnreadNotificationCount(notes, viewer), Conversations.UnreadMessageCount(msgs, viewer))
  }

  /** Each post of the feed appears on as many cards as it has rows in the
      table, and a post outside the feed on none. */
  lemma FeedCountsEachPost(posts: seq<Post>, users: seq<User>, categories: seq<Category>,
                           followings: seq<Following>, saved: seq<SavedPost>,
                           notes: seq<Notification>, msgs: seq<Message>,
                           viewer: Option<string>, s: Search, categoryId: Option<int>, p: Post)
    ensures var page := FollowingPosts(posts, users, categories, followings, saved, notes, msgs, viewer, s, categoryId);
            multiset(CardPosts(page.items))[p]
            == if InFeed(p, FollowedIds(followings, viewer), categoryId, users, categories, s) then multiset(posts)[p] else 0
  {
    FilterMultiplicity(posts, (q: Post) => InFeed(q, FollowedIds(followings, viewer), categoryId, users, categories, s), p);
  }

  /** Every card of the feed is marked as followed: the feed only holds
      posts of followed authors. */
  lemma FeedIsAllFollowed(posts: seq<Post>, users: seq<User>, categories: seq<Category>,
                          followings: seq<Following>, saved: seq<SavedPost>,
                          notes: seq<Notification>, msgs: seq<Message>,
                          viewer: Option<string>, s: Search, categoryId: Option<int>)
    ensures var page := FollowingPosts(posts, users, categories, followings, saved, notes, msgs, viewer, s, categoryId);
            forall i :: 0 <= i < |page.items| ==> page.items[i].isFollowing
  {
    var page := FollowingPosts(posts, users, categories, followings, saved, notes, msgs, viewer, s, categoryId);
    var ps := FeedPosts(posts, FollowedIds(followings, viewer), categoryId, users, categories, s);
    assert page.items == FeedItems(ps, followings, saved, viewer);
    forall i | 0 <= i < |page.items| ensures page.items[i].isFollowing {
      assert page.items[i].post == ps[i];
    }
  }

  /** How many follow this user (`FollowingId == user`). */
  function FollowersCount(followings: seq<Following>, userId: string): nat {
    CountWhere(followings, IsFollowerRowOf(userId))
  }

  /** How many this user follows (`FollowerId == user`). */
  function FollowingCount(followings: seq<Following>, userId: string): nat {
    CountWhere(followings, IsFollowingRowOf(userId))
  }

  function IsFollowerRowOf(userId: string): Following -> bool {
    (f: Following) => f.followingId == userId
  }

  function IsFollowingRowOf(userId: string): Following -> bool {
    (f: Following) => f.followerId == userId
  }

  function PostsBy(posts: seq<Post>, userId: string): (r: seq<Post>)
    ensures forall i, j :: 0 <= i < j < |r| ==> r[i].publishedDate >= r[j].publishedDate
    ensures multiset(r) == multiset(Filter(posts, IsPostBy(userId)))
  {
    SortByDescending(Filter(posts, IsPostBy(userId)), PublishedDate)
  }

  function IsPostBy(userId: string): Post -> bool {
    (p: Post) => p.userId == userId
  }

  /** The profile page of `userId` as `viewer` sees it. */
  datatype ProfilePage = ProfilePage(
    user: User,
    followersCount: nat,
    followingCount: nat,
    postsCount: nat,
    posts: seq<Post>,
    isFollowing: bool,
    unreadNotifications: nat,
    unreadMessages: nat)

  /** `Profile(userId)`: `None` is the "User not found" answer. */
  function Profile(users: seq<User>, posts: seq<Post>, followings: seq<Following>,
                   notes: seq<Notification>, msgs: seq<Message>,
                   userId: string, viewer: Option<string>): (r: Option<ProfilePage>)
    ensures r.None? <==> FindUser(users, userId).None?
    ensures r.Some? ==>
              (r.value.user == FindUser(users, userId).value
               && r.value.followersCount == FollowersCount(followings, userId)
               && r.value.followingCount == FollowingCount(followings, userId)
               && r.value.postsCount == |r.value.posts|
               && multiset(r.value.posts) == multiset(Filter(posts, IsPostBy(userId)))
               && (r.value.isFollowing <==> Follows(followings, viewer, userId))
               && r.value.unreadNotifications == UnreadNotificationCount(notes, viewer)
               && r.value.unreadMessages == Conversations.UnreadMessageCount(msgs, viewer))
  {
    match FindUser(users, userId)
    case None => None
    case Some(u) =>
      var ps := PostsBy(posts, userId);
      assert |ps| == |multiset(ps)|;
      Some(ProfilePage(u, FollowersCount(followings, userId), FollowingCount(followings, userId),
                       |ps|, ps, Follows(followings, viewer, userId),
                       UnreadNotificationCount(notes, viewer), Conversations.UnreadMessageCount(msgs, viewer)))
  }

  /** A follow raises the followed user's follower count and the follower's
      following count by one. */
  lemma FollowRaisesCounts(followings: seq<Following>, id: int, follower: string, followee: string)
    ensures FollowersCount(followings + [Following(id, follower, followee)], followee) == FollowersCount(followings, followee) + 1
    ensures FollowingCount(followings + [Following(id, follower, followee)], follower) == FollowingCount(followings, follower) + 1
  {
    var f := Following(id, follower, followee);
    CountWhereAppend(followings, [f], IsFollowerRowOf(followee));
    CountWhereSingle(f, IsFollowerRowOf(followee));
    CountWhereAppend(followings, [f], IsFollowingRowOf(follower));
    CountWhereSingle(f, IsFollowingRowOf(follower));
  }

  function FollowIndex(followings: seq<Following>, follower: string, followee: string): (r: Option<nat>)
    ensures r.Some? ==> r.value < |followings| && followings[r.value].followerId == follower
                        && followings[r.value].followingId == followee
    ensures r.None? <==> !Follows(followings, Some(follower), followee)
  {
    FirstIndex(followings, (f: Following) => f.followerId == follower && f.followingId == followee)
  }

  /** An unfollow lowers both counts by one. */
  lemma UnfollowLowersCounts(followings: seq<Following>, follower: string, followee: string)
    requires FollowIndex(followings, follower, followee).Some?
    ensures var rest := RemoveAt(followings, FollowIndex(followings, follower, followee).value);
            FollowersCount(rest, followee) == FollowersCount(followings, followee) - 1
            && FollowingCount(rest, follower) == FollowingCount(followings, follower) - 1
  {
    var k := FollowIndex(followings, follower, followee).value;
    CountWhereRemoveAt(followings, k, IsFollowerRowOf(followee));
    CountWhereRemoveAt(followings, k, IsFollowingRowOf(follower));
  }

  function StartedFollowingNotice(userName: string): string {
    userName + " started following you."
  }

  /** A redirect with the one-off message shown after it. */
  datatype Answer = Answer(status: Status, flash: string)

  const ExploreTarget := "Post/Explore"
  const FollowMissingMessage := "The user you're trying to follow was not found."
  const FollowSelfMessage := "You cannot follow yourself."

  function NowFollowingMessage(userName: string): string {
    "You are now following " + userName + "."
  }

  /** `Follow(userId)`: an unknown target or oneself adds nothing; otherwise
      a following row is saved, then a notification to the followed user is
      saved. An existing follow is not looked for. A caller whose account no
      longer exists breaks the `FollowerId` foreign key: the first save
      throws and nothing is stored. */
  method Follow(db: Db, currentUserId: string, currentUserName: string, userId: string, now: int) returns (answer: Answer)
    modifies db`followings, db`notifications, db`nextId, db`log
    ensures FindUser(db.users, userId).None? ==>
              answer == Answer(Redirect(ExploreTarget), FollowMissingMessage) && unchanged(db)
    ensures FindUser(db.users, userId).Some? && currentUserId == userId ==>
              answer == Answer(Redirect(ProfileRoute(userId)), FollowSelfMessage) && unchanged(db)
    ensures FindUser(db.users, userId).Some? && currentUserId != userId && FindUser(db.users, currentUserId).None? ==>
              answer == Answer(ServerError, "") && unchanged(db)
    ensures FindUser(db.users, userId).Some? && currentUserId != userId && FindUser(db.users, currentUserId).Some? ==>
              answer == Answer(Redirect(ProfileRoute(userId)),
                               NowFollowingMessage(FindUser(db.users, userId).value.userName))
              && db.followings == old(db.followings) + [Following(old(db.nextId), currentUserId, userId)]
              && db.notifications == old(db.notifications)
                   + [NewNotification(old(db.nextId) + 1, userId, StartedFollowingNotice(currentUserName), now)]
              && db.nextId == old(db.nextId) + 2
              && db.log == old(db.log) + [Commit, Commit]
  {
    var target := FindUser(db.users, userId);
    if target.None? {
      return Answer(Redirect(ExploreTarget), FollowMissingMessage);
    }
    if currentUserId == userId {
      return Answer(Redirect(ProfileRoute(userId)), FollowSelfMessage);
    }
    if FindUser(db.users, currentUserId).None? {
      return Answer(ServerError, "");
    }
    db.followings := db.followings + [Following(db.nextId, currentUserId, userId)];
    db.nextId := db.nextId + 1;
    db.log := db.log + [Commit];
    db.notifications := db.notifications + [NewNotification(db.nextId, userId, StartedFollowingNotice(currentUserName), now)];
    db.nextId := db.nextId + 1;
    db.log := db.log + [Commit];
    answer := Answer(Redirect(ProfileRoute(userId)), NowFollowingMessage(target.value.userName));
  }

  /** `Unfollow(userId)`: removes the first (viewer, target) row if there is
      one. */
  method Unfollow(db: Db, currentUserId: string, userId: string) returns (answer: Answer)
    modifies db`followings, db`log
    ensures FollowIndex(old(db.followings), currentUserId, userId).None? ==>
              answer == Answer(Redirect(ProfileRoute(userId)), "You're not following this user.")
              && unchanged(db)
    ensures FollowIndex(old(db.followings), currentUserId, userId).Some? ==>
              answer == Answer(Redirect(ProfileRoute(userId)), "You have unfollowed the user.")
              && db.followings == RemoveAt(old(db.followings), FollowIndex(old(db.followings), currentUserId, userId).value)
              && db.log == old(db.log) + [Commit]
  {
    var idx := FollowIndex(db.followings, currentUserId, userId);
    if idx.None? {
      return Answer(Redirect(ProfileRoute(userId)), "You're not following this user.");
    }
    db.followings := RemoveAt(db.followings, idx.value);
    db.log := db.log + [Commit];
    answer := Answer(Redirect(ProfileRoute(userId)), "You have unfollowed the user.");
  }

  /** The count after this controller's toggle: plus or minus one, with no
      floor. */
  function SteppedCount(count: int, liked: bool): int {
    if liked then count + 1 else count - 1
  }

  /** A count that matched the post's like rows still matches after the
      toggle. */
  lemma StepKeepsCountInStep(likes: seq<PostLike>, postId: int, userId: string, newId: int, now: int, count: int)
    requires count == RowsFor(likes, postId)
    ensures var t := ToggleRows(likes, postId, userId, newId, now);
            SteppedCount(count, t.liked) == RowsFor(t.likes, postId)
  {
    ToggleMovesRowCount(likes, postId, userId, newId, now);
  }

  /** Without a floor, the count goes negative exactly when it had drifted
      below the post's like rows: a count of zero while the user's row
      remains becomes -1 on the unlike, and a count in step with the rows
      never drops below zero. */
  lemma UnflooredCountCanGoNegative(likes: seq<PostLike>, postId: int, userId: string, newId: int, now: int, count: int)
    ensures var t := ToggleRows(likes, postId, userId, newId, now);
            LikedBy(likes, postId, userId) && count == 0 ==> !t.liked && SteppedCount(count, t.liked) == -1
    ensures var t := ToggleRows(likes, postId, userId, newId, now);
            count == RowsFor(likes, postId) ==> SteppedCount(count, t.liked) >= 0
  {
    ToggleMovesRowCount(likes, postId, userId, newId, now);
  }

  /** `Like(postId)` of this controller. A new like row by an account that
      no longer exists breaks the `PostLike.UserId` foreign key: the save
      throws, the action catches it and answers `success = false`, here
      `ServerError`, with nothing stored or sent. */
  method Like(db: Db, userId: string, postId: int, now: int) returns (status: Status, likesCount: int, userLiked: bool)
    modifies db`likes, db`posts, db`nextId, db`log
    ensures PostIndex(old(db.posts), postId).None? ==> status == NotFound && unchanged(db)
    ensures PostIndex(old(db.posts), postId).Some? && !LikedBy(old(db.likes), postId, userId)
            && FindUser(old(db.users), userId).None? ==>
              status == ServerError && unchanged(db)
    ensures PostIndex(old(db.posts), postId).Some?
            && (LikedBy(old(db.likes), postId, userId) || FindUser(old(db.users), userId).Some?) ==>
              var k := PostIndex(old(db.posts), postId).value;
              var t := ToggleRows(old(db.likes), postId, userId, old(db.nextId), now);
              status == Ok && userLiked == t.liked
              && likesCount == SteppedCount(old(db.posts)[k].likesCount, t.liked)
              && db.likes == t.likes
              && db.posts == old(db.posts)[k := old(db.posts)[k].(likesCount := likesCount)]
              && db.nextId == (if t.liked then old(db.nextId) + 1 else old(db.nextId))
              && db.log == old(db.log) + [Commit, Send(ToGroup(IntToString(postId)), "ReceiveLike", LikeEvent(postId, likesCount, None))]
  {
    likesCount, userLiked := 0, false;
    var idx := PostIndex(db.posts, postId);
    if idx.None? {
      return NotFound, likesCount, userLiked;
    }
    var k := idx.value;
    var t := ToggleRows(db.likes, postId, userId, db.nextId, now);
    if t.liked && FindUser(db.users, userId).None? {
      return ServerError, likesCount, userLiked;
    }
    userLiked := t.liked;
    likesCount := SteppedCount(db.posts[k].likesCount, t.liked);
    db.likes := t.likes;
    if t.liked {
      db.nextId := db.nextId + 1;
    }
    db.posts := db.posts[k := db.posts[k].(likesCount := likesCount)];
    db.log := db.log + [Commit, Send(ToGroup(IntToString(postId)), "ReceiveLike", LikeEvent(postId, likesCount, None))];
    status := Ok;
  }
}
