/** The server action behind the writing page: a user submits a new post. */
module EditorAction {
  import opened Wrappers
  import opened Lists
  import opened Schema
  import opened AllPostsRoute

  /** The argument of `createBlogAction`. */
  datatype BlogData = BlogData(title: string, categories: seq<string>, content: string, username: string)

  /** How the action ends: a redirect to the new post's page, or an `{ error }` result. */
  datatype CreateResult = Redirect(path: string) | Failure(error: string)

  /** The row `createBlogAction` inserts: the fields as given, no validation, under review. */
  function NewPost(id: string, data: BlogData, authorId: string, now: int): (p: Post)
    ensures p.id == id && p.authorId == authorId && p.createdAt == now
    ensures p.title == data.title && p.categories == data.categories && p.content == data.content
    ensures p.published == UnderReview
  {
    Post(id, data.title, data.categories, data.content, authorId, now, UnderReview)
  }

  /** `createBlogAction`: the author is the user whose name is `username`; an unknown name (or an
      empty id) is turned into `{ error: "NO User Id" }` and nothing is inserted; otherwise exactly
      one post, under review, is appended and the caller is redirected to it. The fresh id and
      the creation instant are chosen by the database. */
  method CreateBlogAction(db: Database, data: BlogData, newId: string, now: int) returns (r: CreateResult)
    requires db.Valid()
    requires PostById(db.posts, newId).None?
    modifies db
    ensures db.Valid()
    ensures unchanged(db`users, db`likes, db`categories, db`resetTokens)
    ensures var author := UserByName(old(db.users), data.username);
      if author.None? || author.value.id == "" then
        r == Failure("NO User Id") && db.posts == old(db.posts)
      else
        r == Redirect("/blog/" + newId)
        && db.posts == old(db.posts) + [NewPost(newId, data, author.value.id, now)]
  {
    var user := UserByName(db.users, data.username);
    if user.None? || user.value.id == "" {
      return Failure("NO User Id");
    }
    var post := NewPost(newId, data, user.value.id, now);
    AppendUnique(db.posts, post, PostId);
    db.posts := db.posts + [post];
    r := Redirect("/blog/" + newId);
  }

  /** The inserted post is the one found under the new id, it is under review and belongs to the
      author; every other id finds what it found before. */
  lemma CreatedPostLookup(posts: seq<Post>, id: string, data: BlogData, authorId: string, now: int, k: string)
    requires PostById(posts, id).None?
    ensures var r := PostById(posts + [NewPost(id, data, authorId, now)], k);
      if k == id then r.Some? && r.value.published == UnderReview && r.value.authorId == authorId
      else r == PostById(posts, k)
  {
    FindAppend(posts, NewPost(id, data, authorId, now), (q: Post) => q.id == k);
  }

  /** A submitted post waits for review: the public feed is the same before and after it. */
  lemma {:induction false} NewPostLeavesFeed(posts: seq<Post>, id: string, data: BlogData, authorId: string, now: int)
    ensures Feed(posts + [NewPost(id, data, authorId, now)]) == Feed(posts)
  {
    var p := NewPost(id, data, authorId, now);
    assert !IsPublished(p);
    FilterAppend(posts, p, IsPublished);
    assert Filter(posts + [p], IsPublished) == Filter(posts, IsPublished) + [];
    assert Filter(posts, IsPublished) + [] == Filter(posts, IsPublished);
  }
}
