/** The post-likes table and the toggle both like actions share: find the
    (post, user) like row, remove it if present, add one otherwise. */
module Likes {
  import opened Common
  import opened Records
  import opened Posts

  function IsLikeBy(postId: int, userId: string): PostLike -> bool {
    (l: PostLike) => l.postId == postId && l.userId == userId
  }

  function IsLikeOfPost(postId: int): PostLike -> bool {
    (l: PostLike) => l.postId == postId
  }

  /** The first like row of this user on this post. */
  function LikeIndex(likes: seq<PostLike>, postId: int, userId: string): (r: Option<nat>)
    ensures r.Some? ==> r.value < |likes| && likes[r.value].postId == postId && likes[r.value].userId == userId
    ensures r.None? <==> forall l :: l in likes ==> !(l.postId == postId && l.userId == userId)
  {
    FirstIndex(likes, IsLikeBy(postId, userId))
  }

  predicate LikedBy(likes: seq<PostLike>, postId: int, userId: string) {
    LikeIndex(likes, postId, userId).Some?
  }

  /** How many like rows a post has. */
  function RowsFor(likes: seq<PostLike>, postId: int): nat {
    CountWhere(likes, IsLikeOfPost(postId))
  }

  /** How many like rows this user has on this post. */
  function RowsBy(likes: seq<PostLike>, postId: int, userId: string): (n: nat)
    ensures n == 0 <==> !LikedBy(likes, postId, userId)
  {
    CountWhere(likes, IsLikeBy(postId, userId))
  }

  /** The new table after a toggle, and whether the user now likes the post. */
  datatype Toggled = Toggled(likes: seq<PostLike>, liked: bool)

  function ToggleRows(likes: seq<PostLike>, postId: int, userId: string, newId: int, now: int): (t: Toggled)
    ensures t.liked <==> !LikedBy(likes, postId, userId)
    ensures t.liked ==> t.likes == likes + [PostLike(newId, postId, userId, now)]
    ensures !t.liked ==> t.likes == RemoveAt(likes, LikeIndex(likes, postId, userId).value)
  {
    match LikeIndex(likes, postId, userId)
    case None => Toggled(likes + [PostLike(newId, postId, userId, now)], true)
    case Some(k) => Toggled(RemoveAt(likes, k), false)
  }

  /** A toggle adds or removes exactly one of the post's like rows. */
  lemma ToggleMovesRowCount(likes: seq<PostLike>, postId: int, userId: string, newId: int, now: int)
    ensures var t := ToggleRows(likes, postId, userId, newId, now);
            RowsFor(t.likes, postId) == RowsFor(likes, postId) + (if t.liked then 1 else -1)
  {
    var t := ToggleRows(likes, postId, userId, newId, now);
    if t.liked {
      CountWhereAppend(likes, [PostLike(newId, postId, userId, now)], IsLikeOfPost(postId));
      CountWhereSingle(PostLike(newId, postId, userId, now), IsLikeOfPost(postId));
    } else {
      CountWhereRemoveAt(likes, LikeIndex(likes, postId, userId).value, IsLikeOfPost(postId));
    }
  }

  /** With at most one row per (post, user), a toggle flips whether the user
      likes the post and keeps that bound. */
  lemma ToggleFlips(likes: seq<PostLike>, postId: int, userId: string, newId: int, now: int)
    requires RowsBy(likes, postId, userId) <= 1
    ensures var t := ToggleRows(likes, postId, userId, newId, now);
            LikedBy(t.likes, postId, userId) == t.liked && RowsBy(t.likes, postId, userId) <= 1
  {
    var t := ToggleRows(likes, postId, userId, newId, now);
    var p := IsLikeBy(postId, userId);
    if t.liked {
      CountWhereAppend(likes, [PostLike(newId, postId, userId, now)], p);
      CountWhereSingle(PostLike(newId, postId, userId, now), p);
    } else {
      CountWhereRemoveAt(likes, LikeIndex(likes, postId, userId).value, p);
    }
  }

  /** Toggling twice brings back whether the user likes the post. */
  lemma ToggleTwiceRestoresLiked(likes: seq<PostLike>, postId: int, userId: string, id1: int, id2: int, t1: int, t2: int)
    requires RowsBy(likes, postId, userId) <= 1
    ensures var once := ToggleRows(likes, postId, userId, id1, t1);
            var twice := ToggleRows(once.likes, postId, userId, id2, t2);
            LikedBy(twice.likes, postId, userId) == LikedBy(likes, postId, userId)
  {
    var once := ToggleRows(likes, postId, userId, id1, t1);
    ToggleFlips(likes, postId, userId, id1, t1);
    ToggleFlips(once.likes, postId, userId, id2, t2);
  }
}
