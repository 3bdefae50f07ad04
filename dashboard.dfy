/** The admin dashboard: totals over the tables, the number of distinct
    tags, and the chart of new users over the last seven days. */
module Dashboard {
  import opened Common
  import opened Text
  import opened Records
  import opened Posts
  import Calendar

  /** The trimmed pieces of one post's tags, split on ',' with empty
      pieces dropped before trimming. */
  function TagPiecesOf(p: Post): seq<string> {
    if IsNullOrEmpty(p.tags) then [] else TrimAll(SplitRemoveEmpty(p.tags.value, ','))
  }

  function TrimAll(pieces: seq<string>): (r: seq<string>)
    ensures |r| == |pieces| && forall i :: 0 <= i < |pieces| ==> r[i] == Trim(pieces[i])
  {
    seq(|pieces|, i requires 0 <= i < |pieces| => Trim(pieces[i]))
  }

  /** Every trimmed tag piece of every post, in table order. */
  function TagPieces(posts: seq<Post>): seq<string> {
    if posts == [] then [] else TagPiecesOf(posts[0]) + TagPieces(posts[1..])
  }

  /** `TotalTags`: the number of different trimmed pieces, compared
      case-sensitively. */
  function TotalTags(posts: seq<Post>): (n: nat)
    ensures n == |set t | t in TagPieces(posts)|
  {
    DistinctCount(TagPieces(posts));
    |Distinct(TagPieces(posts))|
  }

  /** The pieces of two tables laid end to end are the pieces of each. */
  lemma {:induction false} TagPiecesAppend(a: seq<Post>, b: seq<Post>)
    ensures TagPieces(a + b) == TagPieces(a) + TagPieces(b)
  {
    if a == [] {
      assert a + b == b;
    } else {
      assert (a + b)[1..] == a[1..] + b;
      TagPiecesAppend(a[1..], b);
    }
  }

  /** A tag already in use counts once: adding a post whose tags are all
      in use leaves the count as it was. */
  lemma RepeatedTagsCountOnce(posts: seq<Post>, p: Post)
    requires forall t :: t in TagPiecesOf(p) ==> t in TagPieces(posts)
    ensures TotalTags(posts + [p]) == TotalTags(posts)
  {
    TagPiecesAppend(posts, [p]);
    assert TagPieces([p]) == TagPiecesOf(p) by {
      assert [p][1..] == [];
    }
    assert (set t | t in TagPieces(posts + [p])) == (set t | t in TagPieces(posts));
  }

  /** Every piece of a post's tags is among the pieces of a table holding
      that post. */
  lemma {:induction false} TagPiecesOfMember(posts: seq<Post>, p: Post)
    requires p in posts
    ensures forall t :: t in TagPiecesOf(p) ==> t in TagPieces(posts)
  {
    if posts[0] != p {
      assert p in posts[1..];
      TagPiecesOfMember(posts[1..], p);
    }
  }

  /** A piece made of white space only trims to "" and "" is then counted
      as a tag of any table holding the post. */
  lemma BlankPieceCounts(posts: seq<Post>, p: Post, i: nat)
    requires p in posts && !IsNullOrEmpty(p.tags)
    requires i < |SplitRemoveEmpty(p.tags.value, ',')|
    requires AllWhiteSpace(SplitRemoveEmpty(p.tags.value, ',')[i])
    ensures TagPiecesOf(p)[i] == ""
    ensures "" in TagPieces(posts)
  {
    TrimEmptyIffWhiteSpace(SplitRemoveEmpty(p.tags.value, ',')[i]);
    TagPiecesOfMember(posts, p);
  }

  /** Tags made of white space only are one piece, which trims to "": such
      a post alone counts exactly one tag. */
  lemma BlankPieces(p: Post)
    requires !IsNullOrEmpty(p.tags) && AllWhiteSpace(p.tags.value)
    ensures TagPiecesOf(p) == [""]
    ensures TotalTags([p]) == 1
  {
    var x := p.tags.value;
    assert ',' !in x by {
      assert !IsWhiteSpace(',');
    }
    SplitWithoutSeparator(x, ',');
    TrimEmptyIffWhiteSpace(x);
    assert TagPieces([p]) == [""] by {
      assert [p][1..] == [];
    }
    assert (set t | t in [""]) == {""};
  }

  /** Non-empty, no comma, no white space at either end. */
  predicate PlainWord(x: string) {
    x != [] && ',' !in x && !IsWhiteSpace(x[0]) && !IsWhiteSpace(x[|x| - 1])
  }

  /** A tag without commas and without surrounding white space is one
      piece, itself. */
  lemma SingleTag(p: Post)
    requires p.tags.Some? && PlainWord(p.tags.value)
    ensures TagPiecesOf(p) == [p.tags.value]
  {
    var x := p.tags.value;
    SplitWithoutSeparator(x, ',');
    TrimOfTrimmed(x);
    assert TrimAll([x]) == [x];
  }

  /** Tags are compared exactly: two posts tagged with different words
      count two tags, even when the words differ only in letter case. */
  lemma DifferentTagsCountTwice(p: Post, q: Post)
    requires p.tags.Some? && PlainWord(p.tags.value)
    requires q.tags.Some? && PlainWord(q.tags.value)
    requires p.tags.value != q.tags.value
    ensures TotalTags([p, q]) == 2
  {
    SingleTag(p);
    SingleTag(q);
    PiecesOfPair(p, q);
    assert TagPieces([p, q]) == [p.tags.value, q.tags.value];
    TwoDifferentStrings(p.tags.value, q.tags.value);
  }

  lemma PiecesOfPair(p: Post, q: Post)
    ensures TagPieces([p, q]) == TagPiecesOf(p) + TagPiecesOf(q)
  {
    assert [p, q][1..] == [q];
    assert [q][1..] == [];
    assert TagPieces([q]) == TagPiecesOf(q) + TagPieces([]);
  }

  lemma TwoDifferentStrings(x: string, y: string)
    requires x != y
    ensures |set t | t in [x, y]| == 2
  {
    assert (set t | t in [x, y]) == {x, y};
  }

  function Likes(p: Post): int {
    p.likesCount
  }

  function Views(p: Post): int {
    p.views
  }

  function OnPost(postId: int): Comment -> bool {
    (c: Comment) => c.postId == postId
  }

  /** The comments `p.Comments` navigates to. */
  function CommentCount(comments: seq<Comment>, p: Post): int {
    CountWhere(comments, OnPost(p.id))
  }

  function CommentTotal(posts: seq<Post>, comments: seq<Comment>): int {
    if posts == [] then 0 else CommentCount(comments, posts[0]) + CommentTotal(posts[1..], comments)
  }

  datatype Totals = Totals(
    totalUsers: nat, totalPosts: nat, totalCategories: nat, totalTags: nat,
    totalLikes: int, totalComments: int, totalViews: int)

  function DashboardTotals(users: seq<User>, posts: seq<Post>, categories: seq<Category>,
                           comments: seq<Comment>): (t: Totals)
    ensures t.totalUsers == |users| && t.totalPosts == |posts| && t.totalCategories == |categories|
    ensures t.totalTags == |set s | s in TagPieces(posts)|
    ensures t.totalLikes == Sum(posts, Likes) && t.totalViews == Sum(posts, Views)
    ensures t.totalComments == CommentTotal(posts, comments)
  {
    Totals(|users|, |posts|, |categories|, TotalTags(posts),
           Sum(posts, Likes), CommentTotal(posts, comments), Sum(posts, Views))
  }

  lemma {:induction false} SumAppend(a: seq<Post>, b: seq<Post>, f: Post -> int)
    ensures Sum(a + b, f) == Sum(a, f) + Sum(b, f)
  {
    if a == [] {
      assert a + b == b;
    } else {
      assert (a + b)[1..] == a[1..] + b;
      SumAppend(a[1..], b, f);
    }
  }

  /** A new post adds its likes and views to the totals. */
  lemma NewPostAddsToTotals(posts: seq<Post>, p: Post)
    ensures Sum(posts + [p], Likes) == Sum(posts, Likes) + p.likesCount
    ensures Sum(posts + [p], Views) == Sum(posts, Views) + p.views
  {
    SumAppend(posts, [p], Likes);
    SumAppend(posts, [p], Views);
    assert [p][1..] == [];
  }

  /** With distinct post ids, each comment is counted once at most: the
      comment total never exceeds the number of comments. */
  lemma {:induction false} CommentTotalBounded(posts: seq<Post>, comments: seq<Comment>)
    requires forall i, j :: 0 <= i < j < |posts| ==> posts[i].id != posts[j].id
    ensures CommentTotal(posts, comments) == CountWhere(comments, OnSomePost(posts))
    ensures CommentTotal(posts, comments) <= |comments|
  {
    if posts == [] {
      assert forall c :: c in comments ==> !OnSomePost(posts)(c);
    } else {
      var rest := posts[1..];
      CommentTotalBounded(rest, comments);
      assert forall c :: OnSomePost(posts)(c) == (OnPost(posts[0].id)(c) || OnSomePost(rest)(c));
      assert forall c :: !(OnPost(posts[0].id)(c) && OnSomePost(rest)(c));
      CountWhereDisjointUnion(comments, OnPost(posts[0].id), OnSomePost(rest), OnSomePost(posts));
    }
  }

  function OnSomePost(posts: seq<Post>): Comment -> bool {
    (c: Comment) => exists i :: 0 <= i < |posts| && posts[i].id == c.postId
  }

  lemma {:induction false} CountWhereDisjointUnion(s: seq<Comment>, p: Comment -> bool, q: Comment -> bool, pq: Comment -> bool)
    requires forall c :: pq(c) == (p(c) || q(c))
    requires forall c :: !(p(c) && q(c))
    ensures CountWhere(s, pq) == CountWhere(s, p) + CountWhere(s, q)
  {
    if s != [] {
      CountWhereDisjointUnion(s[1..], p, q, pq);
      assert s == [s[0]] + s[1..];
      CountWhereAppend([s[0]], s[1..], pq);
      CountWhereAppend([s[0]], s[1..], p);
      CountWhereAppend([s[0]], s[1..], q);
      CountWhereSingle(s[0], pq);
      CountWhereSingle(s[0], p);
      CountWhereSingle(s[0], q);
    }
  }

  /** The seven chart labels: the abbreviated weekdays of the six days
      before `today` and of `today`. */
  function ChartLabels(today: int): (labels: seq<string>)
    ensures |labels| == 7
    ensures forall i :: 0 <= i < 7 ==> labels[i] == Calendar.WeekdayLabel(today - 6 + i)
  {
    seq(7, i requires 0 <= i < 7 => Calendar.WeekdayLabel(today - 6 + i))
  }

  /** Seven consecutive days have seven different labels, so each weekday
      has one place in the chart. */
  lemma ChartLabelsDistinct(today: int)
    ensures NoDuplicates(ChartLabels(today))
  {
    var labels := ChartLabels(today);
    forall i, j | 0 <= i < j < 7 ensures labels[i] != labels[j] {
      Calendar.SameLabelIffWeeksApart(today - 6 + i, today - 6 + j);
    }
  }

  /** `IndexOf`: the position of the first equal element, or -1. */
  function IndexOf(labels: seq<string>, s: string): (r: int)
    ensures -1 <= r < |labels|
    ensures r >= 0 ==> labels[r] == s
    ensures r == -1 <==> s !in labels
  {
    match FirstIndex(labels, (x: string) => x == s)
    case None => -1
    case Some(k) => k
  }

  /** One row of the new-users procedure: a day and how many joined. */
  datatype NewUsersRow = NewUsersRow(userDate: int, totalUsers: int)

  /** The slot a row writes to, or -1. */
  function Slot(labels: seq<string>, row: NewUsersRow): int {
    IndexOf(labels, Calendar.WeekdayLabel(row.userDate))
  }

  /** The chart data after reading `rows` in order: seven zeros, each row
      writing its count at its label's position. */
  function Filled(labels: seq<string>, rows: seq<NewUsersRow>): (data: seq<int>)
    ensures |data| == 7
    decreases |rows|
  {
    if rows == [] then seq(7, _ => 0)
    else
      var data := Filled(labels, rows[..|rows| - 1]);
      var row := rows[|rows| - 1];
      var k := Slot(labels, row);
      if 0 <= k < 7 then data[k := row.totalUsers] else data
  }

  /** A slot no row writes to stays zero. */
  lemma {:induction false} UnwrittenSlotIsZero(labels: seq<string>, rows: seq<NewUsersRow>, i: int)
    requires 0 <= i < 7
    requires forall j :: 0 <= j < |rows| ==> Slot(labels, rows[j]) != i
    ensures Filled(labels, rows)[i] == 0
    decreases |rows|
  {
    if rows != [] {
      UnwrittenSlotIsZero(labels, rows[..|rows| - 1], i);
    }
  }

  /** The last row written to a slot decides it: later rows overwrite
      earlier ones. */
  lemma {:induction false} LastWriteWins(labels: seq<string>, rows: seq<NewUsersRow>, i: int, j: int)
    requires 0 <= i < 7 && 0 <= j < |rows|
    requires Slot(labels, rows[j]) == i
    requires forall m :: j < m < |rows| ==> Slot(labels, rows[m]) != i
    ensures Filled(labels, rows)[i] == rows[j].totalUsers
    decreases |rows|
  {
    if j < |rows| - 1 {
      LastWriteWins(labels, rows[..|rows| - 1], i, j);
    }
  }

  /** The chart of `Index()` for `today`: the labels and the data array
      filled row by row. */
  method Chart(today: int, rows: seq<NewUsersRow>) returns (labels: seq<string>, data: array<int>)
    ensures labels == ChartLabels(today)
    ensures fresh(data) && data.Length == 7
    ensures data[..] == Filled(labels, rows)
  {
    labels := ChartLabels(today);
    data := new int[7](_ => 0);
    assert data[..] == Filled(labels, rows[..0]);
    var i := 0;
    while i < |rows|
      invariant 0 <= i <= |rows|
      invariant data.Length == 7
      invariant data[..] == Filled(labels, rows[..i])
      modifies data
    {
      var index := Slot(labels, rows[i]);
      if index >= 0 {
        data[index] := rows[i].totalUsers;
      }
      assert rows[..i + 1][..i] == rows[..i];
      i := i + 1;
    }
    assert rows[..|rows|] == rows;
  }
}
