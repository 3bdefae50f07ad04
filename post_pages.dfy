/** The public post pages: creating and editing a post with its feature
    image checked against the configured extensions and size, the listing,
    deletion and the detail page. */
module PostPages {
  import opened Common
  import opened Text
  import opened Records
  import opened Posts
  import opened Store

  const TwoTo31: int := 0x8000_0000
  const TwoTo32: int := 0x1_0000_0000

  predicate IsInt32(x: int) {
    -TwoTo31 <= x < TwoTo31
  }

  /** Two's-complement 32-bit wrap-around of unchecked C# `int` arithmetic. */
  function Wrap32(x: int): (r: int)
    ensures IsInt32(r)
    ensures IsInt32(x) ==> r == x
    ensures (r - x) % TwoTo32 == 0
  {
    (x + TwoTo31) % TwoTo32 - TwoTo31
  }

  /** `maxSizeMb * 1024 * 1024` on `int`. */
  function MaxSizeBytes(maxSizeMb: int): int {
    Wrap32(Wrap32(maxSizeMb * 1024) * 1024)
  }

  /** Up to 2047 MB the byte limit is exact. */
  lemma MaxSizeBytesExact(maxSizeMb: int)
    requires 0 <= maxSizeMb < 2048
    ensures MaxSizeBytes(maxSizeMb) == maxSizeMb * 1048576
  {
  }

  /** From 2048 MB the product wraps to a negative number, so every image is
      refused as too large. */
  lemma MaxSizeBytesWrapsAt2048(length: int)
    requires length >= 0
    ensures MaxSizeBytes(2048) < 0 && length > MaxSizeBytes(2048)
  {
    assert Wrap32(2048 * 1024) == 2097152;
    assert Wrap32(2097152 * 1024) == -TwoTo31;
  }

  function FormatError(allowed: seq<string>): string {
    "Invalid image format. Allowed formats: " + Join(", ", allowed)
  }

  function SizeError(maxSizeMb: int): string {
    "Image size cannot exceed " + IntToString(maxSizeMb) + "MB."
  }

  /** The lower-cased extension the upload is judged by. */
  function ImageExtension(image: Upload): string {
    ToLower(GetExtension(image.fileName))
  }

  /** The image checks of `Create` and `Edit`: the extension first, then the
      size; `None` when the image is accepted. */
  function ImageError(image: Upload, allowed: seq<string>, maxSizeMb: int): (err: Option<string>)
    ensures err.None? <==> ImageExtension(image) in allowed && image.length <= MaxSizeBytes(maxSizeMb)
    ensures ImageExtension(image) !in allowed ==> err == Some(FormatError(allowed))
    ensures ImageExtension(image) in allowed && image.length > MaxSizeBytes(maxSizeMb) ==> err == Some(SizeError(maxSizeMb))
  {
    if ImageExtension(image) !in allowed then Some(FormatError(allowed))
    else if image.length > MaxSizeBytes(maxSizeMb) then Some(SizeError(maxSizeMb))
    else None
  }

  /** An image of exactly the limit is accepted, one byte more is not. */
  lemma LimitIsInclusive(fileName: string, allowed: seq<string>, maxSizeMb: int)
    requires 0 <= maxSizeMb < 2048
    requires ToLower(GetExtension(fileName)) in allowed
    ensures ImageError(Upload(fileName, maxSizeMb * 1048576), allowed, maxSizeMb).None?
    ensures ImageError(Upload(fileName, maxSizeMb * 1048576 + 1), allowed, maxSizeMb) == Some(SizeError(maxSizeMb))
  {
    MaxSizeBytesExact(maxSizeMb);
  }

  /** `Path.GetFileName` with '/' as the separator: what follows the last
      '/'. */
  function FileName(path: string): (r: string)
    ensures |r| <= |path| && r == path[|path| - |r|..]
    ensures '/' !in r
    ensures '/' !in path ==> r == path
  {
    if path == [] then []
    else if path[|path| - 1] == '/' then []
    else
      var r := FileName(path[..|path| - 1]) + [path[|path| - 1]];
      assert path[..|path| - 1][|path| - 1 - (|r| - 1)..] + [path[|path| - 1]] == path[|path| - |r|..];
      r
  }

  /** The old image file `Edit` and `DeleteConfirm` remove, if the post has
      a path. */
  function OldImageRemoval(p: Post): (e: seq<Effect>)
    ensures |e| <= 1
    ensures e != [] <==> !IsNullOrEmpty(p.featureImagePath)
  {
    if IsNullOrEmpty(p.featureImagePath) then [] else [DeleteFile(FileName(p.featureImagePath.value))]
  }

  const IndexPage: string := "Post/Index"

  /** `Create(postViewModel)`. `formValid` is the model-binding verdict on
      the form; `storedPath` is the path the upload service answers with.
      The upload is stored before the save, and the save throws when the
      form's category id names no category. */
  method Create(db: Db, form: Post, formValid: bool, image: Upload, storedPath: string,
                allowed: seq<string>, maxSizeMb: int) returns (status: Status)
    modifies db`posts, db`nextId, db`log
    ensures !formValid ==> status == ShowForm("") && unchanged(db)
    ensures formValid && ImageError(image, allowed, maxSizeMb).Some? ==>
              status == ShowForm(ImageError(image, allowed, maxSizeMb).value) && unchanged(db)
    ensures formValid && ImageError(image, allowed, maxSizeMb).None? && !HasCategory(db.categories, form.categoryId) ==>
              status == ServerError && db.posts == old(db.posts) && db.nextId == old(db.nextId)
              && db.log == old(db.log) + [StoreFile(storedPath)]
    ensures formValid && ImageError(image, allowed, maxSizeMb).None? && HasCategory(db.categories, form.categoryId) ==>
              status == Redirect(IndexPage)
              && db.posts == old(db.posts) + [form.(id := old(db.nextId), featureImagePath := Some(storedPath))]
              && db.nextId == old(db.nextId) + 1
              && db.log == old(db.log) + [StoreFile(storedPath), Commit]
  {
    if !formValid {
      return ShowForm("");
    }
    var err := ImageError(image, allowed, maxSizeMb);
    if err.Some? {
      return ShowForm(err.value);
    }
    db.log := db.log + [StoreFile(storedPath)];
    if !HasCategory(db.categories, form.categoryId) {
      return ServerError;
    }
    db.posts := db.posts + [form.(id := db.nextId, featureImagePath := Some(storedPath))];
    db.nextId := db.nextId + 1;
    db.log := db.log + [Commit];
    status := Redirect(IndexPage);
  }

  /** `Edit(postViewModel)`: the form replaces the stored row with its id;
      a new image is checked, the old file removed and the new one stored;
      without a new image the stored path is kept. The save throws, after
      the file steps, when the form's category id names no category. */
  method Edit(db: Db, form: Post, formValid: bool, image: Option<Upload>, storedPath: string,
              allowed: seq<string>, maxSizeMb: int) returns (status: Status)
    modifies db`posts, db`log
    ensures !formValid ==> status == ShowForm("") && unchanged(db)
    ensures formValid && PostIndex(old(db.posts), form.id).None? ==> status == NotFound && unchanged(db)
    ensures formValid && PostIndex(old(db.posts), form.id).Some? && image.Some?
            && ImageError(image.value, allowed, maxSizeMb).Some? ==>
              status == ShowForm(ImageError(image.value, allowed, maxSizeMb).value) && unchanged(db)
    ensures formValid && PostIndex(old(db.posts), form.id).Some? && image.Some?
            && ImageError(image.value, allowed, maxSizeMb).None? && !HasCategory(db.categories, form.categoryId) ==>
              var k := PostIndex(old(db.posts), form.id).value;
              status == ServerError && db.posts == old(db.posts)
              && db.log == old(db.log) + OldImageRemoval(old(db.posts)[k]) + [StoreFile(storedPath)]
    ensures formValid && PostIndex(old(db.posts), form.id).Some? && image.None? && !HasCategory(db.categories, form.categoryId) ==>
              status == ServerError && unchanged(db)
    ensures formValid && PostIndex(old(db.posts), form.id).Some? && image.Some?
            && ImageError(image.value, allowed, maxSizeMb).None? && HasCategory(db.categories, form.categoryId) ==>
              var k := PostIndex(old(db.posts), form.id).value;
              status == Redirect(IndexPage)
              && db.posts == old(db.posts)[k := form.(featureImagePath := Some(storedPath))]
              && db.log == old(db.log) + OldImageRemoval(old(db.posts)[k]) + [StoreFile(storedPath), Commit]
    ensures formValid && PostIndex(old(db.posts), form.id).Some? && image.None? && HasCategory(db.categories, form.categoryId) ==>
              var k := PostIndex(old(db.posts), form.id).value;
              status == Redirect(IndexPage)
              && db.posts == old(db.posts)[k := form.(featureImagePath := old(db.posts)[k].featureImagePath)]
              && db.log == old(db.log) + [Commit]
  {
    if !formValid {
      return ShowForm("");
    }
    var idx := PostIndex(db.posts, form.id);
    if idx.None? {
      return NotFound;
    }
    var k := idx.value;
    var stored := db.posts[k];
    var path;
    if image.Some? {
      var err := ImageError(image.value, allowed, maxSizeMb);
      if err.Some? {
        return ShowForm(err.value);
      }
      db.log := db.log + OldImageRemoval(stored) + [StoreFile(storedPath)];
      path := Some(storedPath);
    } else {
      path := stored.featureImagePath;
    }
    if !HasCategory(db.categories, form.categoryId) {
      return ServerError;
    }
    db.posts := db.posts[k := form.(featureImagePath := path)];
    db.log := db.log + [Commit];
    status := Redirect(IndexPage);
  }

  /** An edit leaves every other post as it was and the number of posts
      unchanged. */
  lemma EditTouchesOnlyItsRow(posts: seq<Post>, k: nat, edited: Post, id: int)
    requires k < |posts| && edited.id == posts[k].id
    requires id != posts[k].id
    ensures PostIndex(posts[k := edited], id) == PostIndex(posts, id)
  {
    var r := PostIndex(posts[k := edited], id);
    var s := PostIndex(posts, id);
    if s.Some? {
      assert posts[k := edited][s.value] == posts[s.value];
    }
    if r.Some? {
      assert posts[k := edited][r.value] == posts[r.value];
    }
  }

  function InCategory(categoryId: int): Post -> bool {
    (p: Post) => p.categoryId == categoryId
  }

  /** `Index(categoryId)`: all posts, or only those of the category. */
  function Index(posts: seq<Post>, categoryId: Option<int>): (r: seq<Post>)
    ensures |r| <= |posts|
    ensures categoryId.None? ==> r == posts
    ensures categoryId.Some? ==> forall p :: p in r <==> p in posts && p.categoryId == categoryId.value
  {
    if categoryId.None? then posts else Filter(posts, InCategory(categoryId.value))
  }

  /** Listing by each category and gathering the lists keeps every post of
      those categories exactly as often as it is stored. */
  lemma IndexByCategoryKeepsMultiplicity(posts: seq<Post>, categoryId: int, p: Post)
    requires p.categoryId == categoryId
    ensures multiset(Index(posts, Some(categoryId)))[p] == multiset(posts)[p]
  {
    FilterMultiplicity(posts, InCategory(categoryId), p);
  }

  /** Some like row refers to post `id`. `PostLike.PostId` is a foreign
      key whose delete action is "no action", so the database refuses to
      delete a post that still has likes. */
  predicate HasLikes(likes: seq<PostLike>, id: int) {
    exists l :: l in likes && l.postId == id
  }

  /** The comments that survive deleting post `postId`: `Comment.PostId`
      is a required foreign key, which cascades the delete to the post's
      comments. */
  function NotOnPost(postId: int): Comment -> bool {
    (c: Comment) => c.postId != postId
  }

  /** `DeleteConfirm(id)`: the feature image is removed before the save,
      so a save the database refuses leaves the post without its image. */
  method DeleteConfirm(db: Db, id: int) returns (status: Status)
    modifies db`posts, db`comments, db`log
    ensures id < 0 ==> status == BadRequest && unchanged(db)
    ensures id >= 0 && PostIndex(old(db.posts), id).None? ==> status == NotFound && unchanged(db)
    ensures id >= 0 && PostIndex(old(db.posts), id).Some? && HasLikes(db.likes, id) ==>
              var k := PostIndex(old(db.posts), id).value;
              status == ServerError
              && db.posts == old(db.posts) && db.comments == old(db.comments)
              && db.log == old(db.log) + OldImageRemoval(old(db.posts)[k])
    ensures id >= 0 && PostIndex(old(db.posts), id).Some? && !HasLikes(db.likes, id) ==>
              var k := PostIndex(old(db.posts), id).value;
              status == Redirect(IndexPage)
              && db.posts == RemoveAt(old(db.posts), k)
              && db.comments == Filter(old(db.comments), NotOnPost(id))
              && db.log == old(db.log) + OldImageRemoval(old(db.posts)[k]) + [Commit]
  {
    if id < 0 {
      return BadRequest;
    }
    var idx := PostIndex(db.posts, id);
    if idx.None? {
      return NotFound;
    }
    var k := idx.value;
    db.log := db.log + OldImageRemoval(db.posts[k]);
    if HasLikes(db.likes, id) {
      return ServerError;
    }
    db.posts := RemoveAt(db.posts, k);
    db.comments := Filter(db.comments, NotOnPost(id));
    db.log := db.log + [Commit];
    status := Redirect(IndexPage);
  }

  /** The cascade removes exactly the deleted post's comments and keeps
      every other comment as often as it was stored. */
  lemma CascadeDropsOnlyItsComments(comments: seq<Comment>, id: int, c: Comment)
    ensures c.postId == id ==> c !in Filter(comments, NotOnPost(id))
    ensures c.postId != id ==> multiset(Filter(comments, NotOnPost(id)))[c] == multiset(comments)[c]
  {
    FilterMultiplicity(comments, NotOnPost(id), c);
  }

  predicate UniqueIds(posts: seq<Post>) {
    forall i, j :: 0 <= i < j < |posts| ==> posts[i].id != posts[j].id
  }

  /** When ids are unique, the deleted post can no longer be found and
      every other post still can. */
  lemma DeleteRemovesExactlyThatPost(posts: seq<Post>, id: int, other: int)
    requires UniqueIds(posts) && PostIndex(posts, id).Some?
    ensures PostIndex(RemoveAt(posts, PostIndex(posts, id).value), id).None?
    ensures other != id ==>
              (PostIndex(RemoveAt(posts, PostIndex(posts, id).value), other).Some? <==> PostIndex(posts, other).Some?)
  {
    var k := PostIndex(posts, id).value;
    var r := RemoveAt(posts, k);
    forall j | 0 <= j < |r| ensures r[j].id != id {
      if j < k {
        assert r[j] == posts[j];
      } else {
        assert r[j] == posts[j + 1];
      }
    }
    if other != id {
      var a := PostIndex(posts, other);
      if a.Some? {
        assert a.value != k;
        var j := if a.value < k then a.value else a.value - 1;
        assert r[j].id == other;
      }
      var b := PostIndex(r, other);
      if b.Some? {
        var j := b.value;
        if j < k {
          assert posts[j].id == other;
        } else {
          assert posts[j + 1].id == other;
        }
      }
    }
  }

  /** The detail page: the post and its comments. */
  datatype Detail = DetailNotFound | DetailPage(post: Post, comments: seq<Comment>)

  function OnPost(postId: int): Comment -> bool {
    (c: Comment) => c.postId == postId
  }

  /** `Detail(id)`: id 0 and an unknown id are not found. */
  function DetailOf(posts: seq<Post>, comments: seq<Comment>, id: int): (d: Detail)
    ensures d.DetailNotFound? <==> id == 0 || PostIndex(posts, id).None?
    ensures d.DetailPage? ==>
              d.post.id == id && d.post in posts
              && forall c :: c in d.comments <==> c in comments && c.postId == id
  {
    if id == 0 then DetailNotFound
    else match PostIndex(posts, id)
      case None => DetailNotFound
      case Some(k) => DetailPage(posts[k], Filter(comments, OnPost(id)))
  }
}
