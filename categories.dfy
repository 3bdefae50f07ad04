/** The admin's category maintenance: the list with post counts, add or
    edit, and delete. */
module Categories {
  import opened Common
  import opened Records
  import opened Posts
  import opened Store

  /** One line of `List()`. */
  datatype CategoryLine = CategoryLine(id: int, name: string, description: Option<string>, postsCount: nat)

  function IsInCategory(id: int): Post -> bool {
    (p: Post) => p.categoryId == id
  }

  /** `List()`: every category, in table order, with the number of posts
      filed under it. */
  function List(categories: seq<Category>, posts: seq<Post>): (lines: seq<CategoryLine>)
    ensures |lines| == |categories|
    ensures forall i :: 0 <= i < |categories| ==>
              lines[i].id == categories[i].id && lines[i].name == categories[i].name
              && lines[i].description == categories[i].description
              && lines[i].postsCount == CountWhere(posts, IsInCategory(categories[i].id))
  {
    seq(|categories|, i requires 0 <= i < |categories| =>
      CategoryLine(categories[i].id, categories[i].name, categories[i].description,
                   CountWhere(posts, IsInCategory(categories[i].id))))
  }

  /** Filing one more post under a category raises its count by one and
      no other category's. */
  lemma ListCountsNewPost(categories: seq<Category>, posts: seq<Post>, p: Post)
    ensures forall i :: 0 <= i < |categories| ==>
              List(categories, posts + [p])[i].postsCount
              == List(categories, posts)[i].postsCount + (if p.categoryId == categories[i].id then 1 else 0)
  {
    forall i | 0 <= i < |categories|
      ensures List(categories, posts + [p])[i].postsCount
              == List(categories, posts)[i].postsCount + (if p.categoryId == categories[i].id then 1 else 0)
    {
      CountWhereAppend(posts, [p], IsInCategory(categories[i].id));
      CountWhereSingle(p, IsInCategory(categories[i].id));
    }
  }

  function CategoryIndex(categories: seq<Category>, id: int): (r: Option<nat>)
    ensures r.Some? ==> r.value < |categories| && categories[r.value].id == id
    ensures r.None? <==> forall c :: c in categories ==> c.id != id
  {
    FirstIndex(categories, (c: Category) => c.id == id)
  }

  /** `Save(category)` as an upsert on the table: id 0 inserts with the
      next identity; an existing id takes the new name and description;
      an unknown id changes nothing. */
  function Saved(categories: seq<Category>, c: Category, newId: int): (r: seq<Category>)
    ensures c.id == 0 ==> r == categories + [c.(id := newId)]
    ensures c.id != 0 && CategoryIndex(categories, c.id).None? ==> r == categories
    ensures c.id != 0 && CategoryIndex(categories, c.id).Some? ==>
              var k := CategoryIndex(categories, c.id).value;
              |r| == |categories| && r[k] == c
              && forall j :: 0 <= j < |categories| && j != k ==> r[j] == categories[j]
  {
    if c.id == 0 then categories + [c.(id := newId)]
    else match CategoryIndex(categories, c.id)
      case None => categories
      case Some(k) => categories[k := categories[k].(name := c.name, description := c.description)]
  }

  /** Saving the same edit twice is saving it once. */
  lemma EditIdempotent(categories: seq<Category>, c: Category, newId: int)
    requires c.id != 0
    ensures Saved(Saved(categories, c, newId), c, newId) == Saved(categories, c, newId)
  {
    var once := Saved(categories, c, newId);
    var k := CategoryIndex(categories, c.id);
    if k.Some? {
      assert forall j :: 0 <= j < k.value ==> once[j] == categories[j];
      assert CategoryIndex(once, c.id) == k;
    }
  }

  /** `Save(category)`: changes are saved whatever the outcome and the
      answer is always success. */
  method Save(db: Db, c: Category) returns (success: bool)
    modifies db`categories, db`nextId, db`log
    ensures success
    ensures db.categories == Saved(old(db.categories), c, old(db.nextId))
    ensures db.nextId == if c.id == 0 then old(db.nextId) + 1 else old(db.nextId)
    ensures db.log == old(db.log) + [Commit]
  {
    if c.id == 0 {
      db.categories := db.categories + [c.(id := db.nextId)];
      db.nextId := db.nextId + 1;
    } else {
      var idx := CategoryIndex(db.categories, c.id);
      if idx.Some? {
        var k := idx.value;
        db.categories := db.categories[k := db.categories[k].(name := c.name, description := c.description)];
      }
    }
    db.log := db.log + [Commit];
    success := true;
  }

  /** The ids of the posts filed under category `id`. */
  function PostIdsIn(posts: seq<Post>, id: int): set<int> {
    set p | p in posts && p.categoryId == id :: p.id
  }

  /** Deleting a category cascades to its posts (`Post.CategoryId` is a
      required foreign key) and from them to their comments. A like on any
      of those posts blocks the cascade, because `PostLike.PostId` has no
      delete action, and the database refuses the whole delete. */
  predicate CascadeBlocked(posts: seq<Post>, likes: seq<PostLike>, id: int) {
    exists l :: l in likes && l.postId in PostIdsIn(posts, id)
  }

  function OutsideCategory(id: int): Post -> bool {
    (p: Post) => p.categoryId != id
  }

  function NotOnPosts(ids: set<int>): Comment -> bool {
    (c: Comment) => c.postId !in ids
  }

  /** `Delete(id)`: removes the category found by id and saves; the answer
      is `{ success = true }` (here `Ok`) unless the save throws, which the
      caller sees as a server error. */
  method Delete(db: Db, id: int) returns (status: Status)
    modifies db`categories, db`posts, db`comments, db`log
    ensures CategoryIndex(old(db.categories), id).None? ==> status == Ok && unchanged(db)
    ensures CategoryIndex(old(db.categories), id).Some? && CascadeBlocked(old(db.posts), db.likes, id) ==>
              status == ServerError && unchanged(db)
    ensures CategoryIndex(old(db.categories), id).Some? && !CascadeBlocked(old(db.posts), db.likes, id) ==>
              status == Ok
              && db.categories == RemoveAt(old(db.categories), CategoryIndex(old(db.categories), id).value)
              && db.posts == Filter(old(db.posts), OutsideCategory(id))
              && db.comments == Filter(old(db.comments), NotOnPosts(PostIdsIn(old(db.posts), id)))
              && db.log == old(db.log) + [Commit]
  {
    var idx := CategoryIndex(db.categories, id);
    if idx.Some? {
      if CascadeBlocked(db.posts, db.likes, id) {
        return ServerError;
      }
      var gone := PostIdsIn(db.posts, id);
      db.categories := RemoveAt(db.categories, idx.value);
      db.posts := Filter(db.posts, OutsideCategory(id));
      db.comments := Filter(db.comments, NotOnPosts(gone));
      db.log := db.log + [Commit];
    }
    status := Ok;
  }

  /** After a delete that succeeds, no post of the category and no comment
      on one of its posts is left, and every post and comment of other
      categories' posts is kept as often as it was stored. */
  lemma DeleteCascades(posts: seq<Post>, comments: seq<Comment>, id: int, p: Post, c: Comment)
    ensures p.categoryId == id ==> p !in Filter(posts, OutsideCategory(id))
    ensures p.categoryId != id ==> multiset(Filter(posts, OutsideCategory(id)))[p] == multiset(posts)[p]
    ensures c.postId in PostIdsIn(posts, id) ==> c !in Filter(comments, NotOnPosts(PostIdsIn(posts, id)))
    ensures c.postId !in PostIdsIn(posts, id) ==>
              multiset(Filter(comments, NotOnPosts(PostIdsIn(posts, id))))[c] == multiset(comments)[c]
  {
    FilterMultiplicity(posts, OutsideCategory(id), p);
    FilterMultiplicity(comments, NotOnPosts(PostIdsIn(posts, id)), c);
  }

  /** Deleting a category lowers the table by one and leaves one fewer row
      with that id. */
  lemma DeleteRemovesOneRow(categories: seq<Category>, id: int)
    requires CategoryIndex(categories, id).Some?
    ensures var r := RemoveAt(categories, CategoryIndex(categories, id).value);
            |r| == |categories| - 1
            && CountWhere(r, HasId(id)) == CountWhere(categories, HasId(id)) - 1
  {
    CountWhereRemoveAt(categories, CategoryIndex(categories, id).value, HasId(id));
  }

  function HasId(id: int): Category -> bool {
    (c: Category) => c.id == id
  }
}
