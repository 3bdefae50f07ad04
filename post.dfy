/** The blog-post record (`Post`): its fields, length limits and defaults. */
module Posts {
  import opened Common
  import opened Text

  /** One row of the `Posts` table. `publishDate` is the optional scheduled
      publication instant read by the publishing job. */
  datatype Post = Post(
    id: int,
    title: string,
    content: string,
    description: Option<string>,
    createdAt: int,
    updatedAt: Option<int>,
    views: int,
    userId: string,
    userName: string,
    userImageUrl: Option<string>,
    tags: Option<string>,
    isPublished: bool,
    likesCount: int,
    featureImagePath: Option<string>,
    publishedDate: int,
    categoryId: int,
    publishDate: Option<int>)

  const MaxTitleLength: int := 200
  const MaxContentLength: int := 2500
  const MaxDescriptionLength: int := 5000

  /** `[Required]` on a nullable string. */
  predicate Required(s: Option<string>) {
    !IsNullOrWhiteSpace(s)
  }

  /** The validation annotations of the record, field by field. */
  predicate TitleValid(p: Post) {
    Required(Some(p.title)) && |p.title| <= MaxTitleLength
  }

  predicate ContentValid(p: Post) {
    Required(Some(p.content)) && |p.content| <= MaxContentLength
  }

  predicate DescriptionValid(p: Post) {
    Required(p.description) && |p.description.value| <= MaxDescriptionLength
  }

  predicate MeetsAnnotations(p: Post) {
    TitleValid(p) && ContentValid(p) && DescriptionValid(p)
  }

  /** The messages the annotations report, in declaration order. */
  function ValidationErrors(p: Post): (errors: seq<string>)
    ensures errors == [] <==> MeetsAnnotations(p)
    ensures |errors| <= 3
  {
    (if !Required(Some(p.title)) then ["The title is required."]
     else if |p.title| > MaxTitleLength then ["The title cannot exceed 200 characters."]
     else [])
    + (if !Required(Some(p.content)) then ["Please enter the content"]
       else if |p.content| > MaxContentLength then ["Content must not exceed 2500 characters."]
       else [])
    + (if !Required(p.description) then ["Please enter the description"]
       else if |p.description.value| > MaxDescriptionLength then ["Description must not exceed 5000 characters."]
       else [])
  }

  /** `new Post()` at instant `now`, with the given editable fields: never
      updated, no views, not published, no likes, dated now. */
  function NewPost(id: int, title: string, content: string, description: Option<string>,
                   userId: string, userName: string, categoryId: int, now: int): (p: Post)
    ensures p.id == id && p.title == title && p.content == content && p.description == description
    ensures p.userId == userId && p.userName == userName && p.categoryId == categoryId
    ensures p.createdAt == now && p.publishedDate == now && p.updatedAt.None?
    ensures p.views == 0 && !p.isPublished && p.likesCount == 0
    ensures p.featureImagePath.None? && p.tags.None? && p.publishDate.None?
  {
    Post(id, title, content, description, now, None, 0, userId, userName, None, None,
         false, 0, None, now, categoryId, None)
  }

  /** `FirstOrDefault(p => p.Id == id)`: the position of the post. */
  function PostIndex(posts: seq<Post>, id: int): (r: Option<nat>)
    ensures r.Some? ==> r.value < |posts| && posts[r.value].id == id
    ensures r.Some? ==> forall j :: 0 <= j < r.value ==> posts[j].id != id
    ensures r.None? <==> forall p :: p in posts ==> p.id != id
  {
    FirstIndex(posts, (p: Post) => p.id == id)
  }
}
