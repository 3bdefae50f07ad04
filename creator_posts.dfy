/** The content creators' post controller: publishing with notifications
    to followers, saving a post with its feature image, the explore feed and
    the like toggle. */
module CreatorPosts {
  import opened Common
  import opened Text
  import opened Records
  import opened Posts
  import opened Store
  import opened Likes

  function FollowerRowOf(userId: string): Following -> bool {
    (f: Following) => f.followingId == userId
  }

  /** `Where(f => f.FollowingId == userId).Select(f => f.FollowerId)`: one
      id per following row of the author, in table order, duplicates kept. */
  function FollowerIdsOf(followings: seq<Following>, userId: string): (r: seq<string>)
    ensures |r| == CountWhere(followings, FollowerRowOf(userId))
    ensures forall i :: 0 <= i < |r| ==> r[i] == Filter(followings, FollowerRowOf(userId))[i].followerId
    ensures forall x :: x in r <==> exists f :: f in followings && f.followingId == userId && f.followerId == x
  {
    if followings == [] then []
    else
      var rest := FollowerIdsOf(followings[1..], userId);
      assert forall f :: f in followings <==> f == followings[0] || f in followings[1..];
      if followings[0].followingId == userId then [followings[0].followerId] + rest else rest
  }

  function Resolves(users: seq<User>): string -> bool {
    (id: string) => FindUser(users, id).Some?
  }

  /** The text of the notification a follower receives. */
  function PublishedNotice(userName: string, title: string): string {
    userName + " published a new post: '" + title + "'"
  }

  /** The notifications the fan-out adds for `ids`, in order: one per id
      that resolves to a user, with consecutive ids from `firstId`. */
  function FanOut(ids: seq<string>, users: seq<User>, message: string, firstId: int, now: int): seq<Notification>
    decreases |ids|
  {
    if ids == [] then []
    else
      var init := ids[..|ids| - 1];
      var prev := FanOut(init, users, message, firstId, now);
      if FindUser(users, ids[|ids| - 1]).Some? then prev + [NewNotification(firstId + |prev|, ids[|ids| - 1], message, now)]
      else prev
  }

  /** Each notification of the fan-out goes to one of the ids, which resolves
      to a user; it is unread, carries the message and the time, and the ids
      run on from `firstId`. */
  lemma {:induction false} FanOutShape(ids: seq<string>, users: seq<User>, message: string, firstId: int, now: int)
    ensures var r := FanOut(ids, users, message, firstId, now);
            |r| <= |ids|
            && forall i :: 0 <= i < |r| ==>
                 r[i].id == firstId + i && r[i].userId in ids && FindUser(users, r[i].userId).Some?
                 && r[i].message == message && !r[i].isRead && r[i].createdAt == now && r[i].postId.None?
    decreases |ids|
  {
    if ids != [] {
      var init := ids[..|ids| - 1];
      FanOutShape(init, users, message, firstId, now);
      assert forall x :: x in init ==> x in ids;
    }
  }

  /** The fan-out creates one notification per follower that resolves to a
      user, and reaches every such follower. */
  lemma FanOutCoversResolvable(ids: seq<string>, users: seq<User>, message: string, firstId: int, now: int)
    ensures |FanOut(ids, users, message, firstId, now)| == CountWhere(ids, Resolves(users))
    ensures forall x :: x in ids && FindUser(users, x).Some? ==>
              exists i :: 0 <= i < |FanOut(ids, users, message, firstId, now)| && FanOut(ids, users, message, firstId, now)[i].userId == x
  {
    FanOutCount(ids, users, message, firstId, now);
    forall x | x in ids && FindUser(users, x).Some?
      ensures exists i :: 0 <= i < |FanOut(ids, users, message, firstId, now)| && FanOut(ids, users, message, firstId, now)[i].userId == x
    {
      FanOutReaches(ids, users, message, firstId, now, x);
    }
  }

  lemma {:induction false} FanOutCount(ids: seq<string>, users: seq<User>, message: string, firstId: int, now: int)
    ensures |FanOut(ids, users, message, firstId, now)| == CountWhere(ids, Resolves(users))
    decreases |ids|
  {
    if ids != [] {
      var init := ids[..|ids| - 1];
      var last := ids[|ids| - 1];
      FanOutCount(init, users, message, firstId, now);
      assert ids == init + [last];
      CountWhereAppend(init, [last], Resolves(users));
      CountWhereSingle(last, Resolves(users));
    }
  }

  lemma {:induction false} FanOutReaches(ids: seq<string>, users: seq<User>, message: string, firstId: int, now: int, x: string)
    requires x in ids && FindUser(users, x).Some?
    ensures exists i :: 0 <= i < |FanOut(ids, users, message, firstId, now)| && FanOut(ids, users, message, firstId, now)[i].userId == x
    decreases |ids|
  {
    var init := ids[..|ids| - 1];
    var last := ids[|ids| - 1];
    var r := FanOut(ids, users, message, firstId, now);
    var prev := FanOut(init, users, message, firstId, now);
    assert r[..|prev|] == prev;
    if x in init {
      FanOutReaches(init, users, message, firstId, now, x);
      var i :| 0 <= i < |prev| && prev[i].userId == x;
      assert r[i] == r[..|prev|][i];
    } else {
      assert x == last by {
        assert ids == init + [last];
      }
      assert r[|prev|].userId == x;
    }
  }

  /** The notifications publishing `post` adds: none when it is being
      unpublished or its author is gone, else the fan-out to the author's
      followers. */
  function PublishNotes(users: seq<User>, followings: seq<Following>, post: Post, firstId: int, now: int): (notes: seq<Notification>)
    ensures post.isPublished || FindUser(users, post.userId).None? ==> notes == []
    ensures !post.isPublished && FindUser(users, post.userId).Some? ==>
              var author := FindUser(users, post.userId).value;
              notes == FanOut(FollowerIdsOf(followings, author.id), users, PublishedNotice(author.userName, post.title), firstId, now)
  {
    match FindUser(users, post.userId)
    case None => []
    case Some(author) =>
      if post.isPublished then []
      else FanOut(FollowerIdsOf(followings, author.id), users, PublishedNotice(author.userName, post.title), firstId, now)
  }

  /** One more follower that resolves to a user adds its notification,
      numbered after the others. */
  lemma FanOutStepAdds(ids: seq<string>, i: nat, users: seq<User>, message: string, firstId: int, now: int)
    requires i < |ids| && FindUser(users, ids[i]).Some?
    ensures var prev := FanOut(ids[..i], users, message, firstId, now);
            FanOut(ids[..i + 1], users, message, firstId, now) == prev + [NewNotification(firstId + |prev|, ids[i], message, now)]
  {
    assert ids[..i + 1][..i] == ids[..i];
  }

  /** A follower that does not resolve to a user adds nothing. */
  lemma FanOutStepSkips(ids: seq<string>, i: nat, users: seq<User>, message: string, firstId: int, now: int)
    requires i < |ids| && FindUser(users, ids[i]).None?
    ensures FanOut(ids[..i + 1], users, message, firstId, now) == FanOut(ids[..i], users, message, firstId, now)
  {
    assert ids[..i + 1][..i] == ids[..i];
  }

  /** The follower loop: one notification per follower that resolves to a
      user, added one at a time. */
  method NotifyFollowers(db: Db, followers: seq<string>, message: string, now: int)
    modifies db`notifications, db`nextId
    ensures var notes := FanOut(followers, db.users, message, old(db.nextId), now);
            db.notifications == old(db.notifications) + notes && db.nextId == old(db.nextId) + |notes|
  {
    var users := db.users;
    ghost var firstId := db.nextId;
    var i := 0;
    while i < |followers|
      invariant 0 <= i <= |followers|
      invariant db.notifications == old(db.notifications) + FanOut(followers[..i], users, message, firstId, now)
      invariant db.nextId == firstId + |FanOut(followers[..i], users, message, firstId, now)|
    {
      var followerId := followers[i];
      if FindUser(users, followerId).Some? {
        var note := NewNotification(db.nextId, followerId, message, now);
        FanOutStepAdds(followers, i, users, message, firstId, now);
        AppendAssociative(old(db.notifications), FanOut(followers[..i], users, message, firstId, now), [note]);
        db.notifications := db.notifications + [note];
        db.nextId := db.nextId + 1;
      } else {
        FanOutStepSkips(followers, i, users, message, firstId, now);
      }
      i := i + 1;
    }
    assert followers[..|followers|] == followers;
  }

  /** `TogglePublishStatus(postId)`: flips the flag and saves; a post that
      becomes published notifies, in one further save, every follower of its
      author who resolves to a user. */
  method TogglePublishStatus(db: Db, postId: int, currentUser: Option<string>, now: int)
    returns (status: Status, isPublished: bool)
    modifies db`posts, db`notifications, db`nextId, db`log
    ensures PostIndex(old(db.posts), postId).None? ==> status == NotFound && unchanged(db)
    ensures PostIndex(old(db.posts), postId).Some? && currentUser.None? ==> status == Unauthorized && unchanged(db)
    ensures PostIndex(old(db.posts), postId).Some? && currentUser.Some? ==>
              var k := PostIndex(old(db.posts), postId).value;
              var post := old(db.posts)[k];
              var notes := PublishNotes(db.users, db.followings, post, old(db.nextId), now);
              var announced := isPublished && FindUser(db.users, post.userId).Some?;
              status == Ok && isPublished == !post.isPublished
              && db.posts == old(db.posts)[k := post.(isPublished := isPublished)]
              && db.notifications == old(db.notifications) + notes
              && db.nextId == old(db.nextId) + |notes|
              && db.log == old(db.log) + [Commit] + (if announced then [Commit] else [])
  {
    isPublished := false;
    var idx := PostIndex(db.posts, postId);
    if idx.None? {
      return NotFound, isPublished;
    }
    if currentUser.None? {
      return Unauthorized, isPublished;
    }
    var k := idx.value;
    var post := db.posts[k];
    isPublished := !post.isPublished;
    db.posts := db.posts[k := post.(isPublished := isPublished)];
    db.log := db.log + [Commit];
    status := Ok;
    var author := FindUser(db.users, post.userId);
    if isPublished && author.Some? {
      NotifyFollowers(db, FollowerIdsOf(db.followings, author.value.id), PublishedNotice(author.value.userName, post.title), now);
      db.log := db.log + [Commit];
    }
  }

  const UploadFolder := "/images/uploadImgs/"
  const DefaultProfileImage := "/images/uploadImgs/default-profile.jpg"
  const DefaultFeatureImage := "/images/uploadImgs/default-image.jpg"

  /** The author fields `Save` copies from the signed-in user. */
  function WithAuthor(form: Post, currentUser: Option<User>): (p: Post)
    ensures currentUser.None? ==> p == form
    ensures currentUser.Some? ==> p == form.(userName := currentUser.value.userName,
                                            userImageUrl := Some(currentUser.value.profilePicture.GetOr(DefaultProfileImage)),
                                            userId := currentUser.value.id)
  {
    match currentUser
    case None => form
    case Some(u) => form.(userName := u.userName, userImageUrl := Some(u.profilePicture.GetOr(DefaultProfileImage)), userId := u.id)
  }

  /** The feature image `Save` stores: the upload's path; else, for an
      existing post sent without a path, the stored path when it has one;
      else, for a new post without a path, the default image; else the path
      the form carried. */
  function FeatureImage(form: Post, upload: Option<Upload>, posts: seq<Post>): (path: Option<string>)
    ensures HasFile(upload) ==> path == Some(UploadFolder + upload.value.fileName)
    ensures !HasFile(upload) && !IsNullOrEmpty(form.featureImagePath) ==> path == form.featureImagePath
    ensures !HasFile(upload) && form.id == 0 && IsNullOrEmpty(form.featureImagePath) ==> path == Some(DefaultFeatureImage)
    ensures !HasFile(upload) && form.id != 0 && IsNullOrEmpty(form.featureImagePath) ==>
              var k := PostIndex(posts, form.id);
              if k.Some? && !IsNullOrEmpty(posts[k.value].featureImagePath)
              then path == posts[k.value].featureImagePath
              else path == form.featureImagePath
  {
    if HasFile(upload) then Some(UploadFolder + upload.value.fileName)
    else if form.id != 0 && IsNullOrEmpty(form.featureImagePath) then
      match PostIndex(posts, form.id)
      case Some(k) => if !IsNullOrEmpty(posts[k].featureImagePath) then posts[k].featureImagePath else form.featureImagePath
      case None => form.featureImagePath
    else if form.id == 0 && IsNullOrEmpty(form.featureImagePath) then Some(DefaultFeatureImage)
    else form.featureImagePath
  }

  /** A new post always gets an image, and re-saving an existing post without
      a new file never loses the image it had. */
  lemma SaveKeepsAnImage(form: Post, upload: Option<Upload>, posts: seq<Post>)
    ensures form.id == 0 ==> !IsNullOrEmpty(FeatureImage(form, upload, posts))
    ensures (form.id != 0 && PostIndex(posts, form.id).Some?
             && !IsNullOrEmpty(posts[PostIndex(posts, form.id).value].featureImagePath))
            ==> !IsNullOrEmpty(FeatureImage(form, upload, posts))
  {
  }

  /** `Save(post, ImageUrl)`. The upload is written to disk before the row is
      stored. The save fails, and the action answers 500, for an update of
      an id the table does not hold and for a category id no category
      carries (the required `CategoryId` foreign key). */
  method Save(db: Db, form: Post, upload: Option<Upload>, currentUser: Option<User>, now: int) returns (status: Status)
    modifies db`posts, db`nextId, db`log
    ensures IsNullOrEmpty(Some(form.title)) || IsNullOrEmpty(Some(form.content)) ==>
              status == ShowForm("Title and Content are required.") && unchanged(db)
    ensures !IsNullOrEmpty(Some(form.title)) && !IsNullOrEmpty(Some(form.content)) ==>
              var p := WithAuthor(form, currentUser).(featureImagePath := FeatureImage(form, upload, old(db.posts)));
              var written := if HasFile(upload) then [StoreFile(UploadFolder + upload.value.fileName)] else [];
              if !HasCategory(db.categories, form.categoryId) then
                status == ServerError && db.posts == old(db.posts) && db.nextId == old(db.nextId)
                && db.log == old(db.log) + written
              else if form.id == 0 then
                status == Redirect(ProfileRoute(p.userId))
                && db.posts == old(db.posts) + [p.(id := old(db.nextId), createdAt := now, updatedAt := None, views := 0)]
                && db.nextId == old(db.nextId) + 1
                && db.log == old(db.log) + written + [Commit]
              else if PostIndex(old(db.posts), form.id).Some? then
                status == Redirect(ProfileRoute(p.userId))
                && db.posts == old(db.posts)[PostIndex(old(db.posts), form.id).value := p.(updatedAt := Some(now))]
                && db.nextId == old(db.nextId)
                && db.log == old(db.log) + written + [Commit]
              else
                status == ServerError && db.posts == old(db.posts) && db.nextId == old(db.nextId)
                && db.log == old(db.log) + written
  {
    var post := WithAuthor(form, currentUser);
    if IsNullOrEmpty(Some(post.title)) || IsNullOrEmpty(Some(post.content)) {
      return ShowForm("Title and Content are required.");
    }
    if HasFile(upload) {
      db.log := db.log + [StoreFile(UploadFolder + upload.value.fileName)];
    }
    post := post.(featureImagePath := FeatureImage(form, upload, db.posts));
    if !HasCategory(db.categories, post.categoryId) {
      return ServerError;
    }
    if post.id == 0 {
      db.posts := db.posts + [post.(id := db.nextId, createdAt := now, updatedAt := None, views := 0)];
      db.nextId := db.nextId + 1;
    } else {
      var idx := PostIndex(db.posts, post.id);
      if idx.None? {
        return ServerError;
      }
      db.posts := db.posts[idx.value := post.(updatedAt := Some(now))];
    }
    db.log := db.log + [Commit];
    status := Redirect(ProfileRoute(post.userId));
  }

  /** One explore card: a post and whether the viewer follows its author. */
  datatype ExploreItem = ExploreItem(post: Post, isFollowing: bool)

  predicate InExplore(p: Post, categoryId: Option<int>) {
    p.isPublished && (categoryId.None? || p.categoryId == categoryId.value)
  }

  function PublishedDate(p: Post): int {
    p.publishedDate
  }

  function ExplorePosts(posts: seq<Post>, categoryId: Option<int>): (r: seq<Post>)
    ensures forall i, j :: 0 <= i < j < |r| ==> r[i].publishedDate >= r[j].publishedDate
    ensures multiset(r) == multiset(Filter(posts, (p: Post) => InExplore(p, categoryId)))
    ensures forall p :: p in r <==> p in posts && InExplore(p, categoryId)
  {
    var r := SortByDescending(Filter(posts, (p: Post) => InExplore(p, categoryId)), PublishedDate);
    assert forall p :: p in r <==> p in multiset(r);
    r
  }

  function ExploreItems(posts: seq<Post>, followings: seq<Following>, viewer: Option<string>): (r: seq<ExploreItem>)
    ensures |r| == |posts|
    ensures forall i :: 0 <= i < |posts| ==>
              r[i].post == posts[i] && (r[i].isFollowing <==> Follows(followings, viewer, posts[i].userId))
  {
    seq(|posts|, i requires 0 <= i < |posts| => ExploreItem(posts[i], Follows(followings, viewer, posts[i].userId)))
  }

  /** `Explore(categoryId)`: published posts, optionally of one category,
      newest `PublishedDate` first, each flagged with whether the viewer
      follows its author; and the viewer's unread-notification count. */
  function Explore(posts: seq<Post>, followings: seq<Following>, notes: seq<Notification>,
                   viewer: Option<string>, categoryId: Option<int>): (r: (seq<ExploreItem>, nat))
    ensures forall i :: 0 <= i < |r.0| ==> r.0[i].post in posts && InExplore(r.0[i].post, categoryId)
    ensures forall p :: p in posts && InExplore(p, categoryId) ==> exists i :: 0 <= i < |r.0| && r.0[i].post == p
    ensures forall i, j :: 0 <= i < j < |r.0| ==> r.0[i].post.publishedDate >= r.0[j].post.publishedDate
    ensures forall i :: 0 <= i < |r.0| ==> (r.0[i].isFollowing <==> Follows(followings, viewer, r.0[i].post.userId))
    ensures r.1 == UnreadNotificationCount(notes, viewer)
  {
    var ps := ExplorePosts(posts, categoryId);
    var items := ExploreItems(ps, followings, viewer);
    forall p | p in posts && InExplore(p, categoryId) ensures exists i :: 0 <= i < |items| && items[i].post == p {
      var i :| 0 <= i < |ps| && ps[i] == p;
      assert items[i].post == p;
    }
    (items, UnreadNotificationCount(notes, viewer))
  }

  /** The answer of a like action. `LikeServerError` is the status 500 of
      a save the database refused. */
  datatype LikeResult = LikeFailed(message: string) | LikeDone(likesCount: int, userLiked: bool) | LikeServerError

  /** The like count after a toggle on this controller: a removal never
      takes it below zero. */
  function FlooredCount(count: int, liked: bool): (c: int)
    ensures liked ==> c == count + 1
    ensures !liked ==> c == if count >= 1 then count - 1 else 0
  {
    if liked then count + 1 else (if count - 1 > 0 then count - 1 else 0)
  }

  /** When the stored count matched the post's like rows, it still does after
      the toggle: the floor never applies then. */
  lemma LikeKeepsCountInStep(likes: seq<PostLike>, postId: int, userId: string, newId: int, now: int, count: int)
    requires count == RowsFor(likes, postId)
    ensures var t := ToggleRows(likes, postId, userId, newId, now);
            FlooredCount(count, t.liked) == RowsFor(t.likes, postId)
  {
    var t := ToggleRows(likes, postId, userId, newId, now);
    ToggleMovesRowCount(likes, postId, userId, newId, now);
  }

  /** The like event this controller sends to the post's group. */
  function LikeBroadcast(postId: int, count: int, userId: Option<string>): Effect {
    Send(ToGroup(IntToString(postId)), "ReceiveLike", LikeEvent(postId, count, userId))
  }

  /** `Like(postId)`: toggles the caller's like, adjusts the count with a
      floor at zero, saves, then tells the post's group. A new like row by
      an account that no longer exists breaks the `PostLike.UserId` foreign
      key: the save throws, nothing is stored and nothing is sent. */
  method Like(db: Db, userId: Option<string>, postId: int, now: int) returns (result: LikeResult)
    modifies db`likes, db`posts, db`nextId, db`log
    ensures IsNullOrEmpty(userId) ==> result == LikeFailed("You must be logged in.") && unchanged(db)
    ensures !IsNullOrEmpty(userId) && PostIndex(old(db.posts), postId).None? ==>
              result == LikeFailed("Post not found.") && unchanged(db)
    ensures !IsNullOrEmpty(userId) && PostIndex(old(db.posts), postId).Some?
            && !LikedBy(old(db.likes), postId, userId.value) && FindUser(old(db.users), userId.value).None? ==>
              result == LikeServerError && unchanged(db)
    ensures !IsNullOrEmpty(userId) && PostIndex(old(db.posts), postId).Some?
            && (LikedBy(old(db.likes), postId, userId.value) || FindUser(old(db.users), userId.value).Some?) ==>
              var k := PostIndex(old(db.posts), postId).value;
              var t := ToggleRows(old(db.likes), postId, userId.value, old(db.nextId), now);
              var count := FlooredCount(old(db.posts)[k].likesCount, t.liked);
              result == LikeDone(count, t.liked)
              && db.likes == t.likes
              && db.posts == old(db.posts)[k := old(db.posts)[k].(likesCount := count)]
              && db.nextId == (if t.liked then old(db.nextId) + 1 else old(db.nextId))
              && db.log == old(db.log) + [Commit, LikeBroadcast(postId, count, userId)]
  {
    if IsNullOrEmpty(userId) {
      return LikeFailed("You must be logged in.");
    }
    var idx := PostIndex(db.posts, postId);
    if idx.None? {
      return LikeFailed("Post not found.");
    }
    var k := idx.value;
    var t := ToggleRows(db.likes, postId, userId.value, db.nextId, now);
    if t.liked && FindUser(db.users, userId.value).None? {
      return LikeServerError;
    }
    var count := FlooredCount(db.posts[k].likesCount, t.liked);
    db.likes, db.posts, db.nextId, db.log :=
      t.likes, db.posts[k := db.posts[k].(likesCount := count)],
      (if t.liked then db.nextId + 1 else db.nextId),
      db.log + [Commit, LikeBroadcast(postId, count, userId)];
    result := LikeDone(count, t.liked);
  }
}
