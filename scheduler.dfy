/** The background job that publishes scheduled posts: every minute it
    marks as published each post whose publication instant has come. */
module Scheduler {
  import opened Posts
  import opened Store

  const TickDelay: int := 60

  /** The job's selection: a scheduled, unpublished post whose instant is
      not after `now`. */
  predicate Due(p: Post, now: int) {
    p.publishDate.Some? && p.publishDate.value <= now && !p.isPublished
  }

  function PublishIfDue(p: Post, now: int): Post {
    if Due(p, now) then p.(isPublished := true) else p
  }

  /** The posts table after one tick at `now`: a due post becomes
      published, nothing else about any post changes. */
  function PublishDue(posts: seq<Post>, now: int): (r: seq<Post>)
    ensures |r| == |posts|
    ensures forall i :: 0 <= i < |posts| ==>
              (r[i].isPublished <==> posts[i].isPublished || Due(posts[i], now))
              && r[i].(isPublished := posts[i].isPublished) == posts[i]
  {
    seq(|posts|, i requires 0 <= i < |posts| => PublishIfDue(posts[i], now))
  }

  /** A second tick at the same instant changes nothing. */
  lemma TickIdempotent(posts: seq<Post>, now: int)
    ensures PublishDue(PublishDue(posts, now), now) == PublishDue(posts, now)
  {
    var once := PublishDue(posts, now);
    var twice := PublishDue(once, now);
    forall i | 0 <= i < |posts| ensures twice[i] == once[i] {
      assert !Due(once[i], now);
    }
  }

  /** A later tick subsumes an earlier one: ticking at `t1` and then at `t2`
      publishes what one tick at `t2` would. */
  lemma TicksCompose(posts: seq<Post>, t1: int, t2: int)
    requires t1 <= t2
    ensures PublishDue(PublishDue(posts, t1), t2) == PublishDue(posts, t2)
  {
    var a := PublishDue(PublishDue(posts, t1), t2);
    var b := PublishDue(posts, t2);
    forall i | 0 <= i < |posts| ensures a[i] == b[i] {
      if Due(posts[i], t1) {
        assert Due(posts[i], t2);
      }
    }
  }

  /** One tick at `now`: the selected posts are updated one by one and the
      changes are saved once, even when there were none. */
  method Tick(db: Db, now: int)
    modifies db`posts, db`log
    ensures db.posts == PublishDue(old(db.posts), now)
    ensures db.log == old(db.log) + [Commit]
  {
    var i := 0;
    while i < |db.posts|
      invariant 0 <= i <= |db.posts| == |old(db.posts)|
      invariant forall j :: 0 <= j < i ==> db.posts[j] == PublishIfDue(old(db.posts)[j], now)
      invariant forall j :: i <= j < |db.posts| ==> db.posts[j] == old(db.posts)[j]
      invariant db.log == old(db.log)
    {
      if Due(db.posts[i], now) {
        db.posts := db.posts[i := db.posts[i].(isPublished := true)];
      }
      i := i + 1;
    }
    db.log := db.log + [Commit];
  }

  function Commits(n: nat): (r: seq<Effect>)
    ensures |r| == n && forall e :: e in r ==> e == Commit
  {
    seq(n, _ => Commit)
  }

  /** `ExecuteAsync` started at `start` and cancelled after `ticks` ticks:
      each tick runs one delay after the previous one, so the table ends as
      after a single tick at the last tick's instant. */
  method Run(db: Db, start: int, ticks: nat)
    modifies db`posts, db`log
    ensures ticks == 0 ==> db.posts == old(db.posts)
    ensures ticks > 0 ==> db.posts == PublishDue(old(db.posts), start + TickDelay * ticks)
    ensures db.log == old(db.log) + Commits(ticks)
  {
    var k := 0;
    while k < ticks
      invariant 0 <= k <= ticks
      invariant k == 0 ==> db.posts == old(db.posts)
      invariant k > 0 ==> db.posts == PublishDue(old(db.posts), start + TickDelay * k)
      invariant db.log == old(db.log) + Commits(k)
    {
      ghost var before := db.posts;
      Tick(db, start + TickDelay * (k + 1));
      if k > 0 {
        TicksCompose(old(db.posts), start + TickDelay * k, start + TickDelay * (k + 1));
      }
      assert Commits(k) + [Commit] == Commits(k + 1);
      k := k + 1;
    }
  }
}
