/** The public blog page: category sidebar, search, six-post pages and per-card counters. */
module BlogPage {
  import opened Wrappers
  import opened Text
  import opened Lists
  import opened Schema
  import opened Listing

  /** A post as the page receives it, with its author's name, its category's name and its likes
      when the query included them. */
  datatype Card = Card(id: string, title: string, summary: Option<string>, content: string,
                       tags: seq<string>, authorName: Option<string>, categoryName: Option<string>,
                       likes: Option<seq<Like>>)

  /** `post.category?.name`, with an absent category as the empty (falsy) name. */
  function CategoryNameOf(c: Card): string {
    if c.categoryName.Some? then c.categoryName.value else ""
  }

  /** The sidebar: 'All', then the distinct category names of the posts, sorted. A post without a
      category, or with an empty name, adds nothing. */
  function Categories(posts: seq<Card>): (r: seq<string>)
    ensures |r| >= 1 && r[0] == "All"
    ensures StrictlySorted(r[1..])
    ensures forall y :: y in r[1..] <==> exists p :: p in posts && p.categoryName == Some(y) && y != ""
  {
    var names := seq(|posts|, i requires 0 <= i < |posts| => CategoryNameOf(posts[i]));
    assert forall y :: y in names && y != "" <==> exists p :: p in posts && p.categoryName == Some(y) && y != "" by {
      forall y ensures y in names && y != "" <==> exists p :: p in posts && p.categoryName == Some(y) && y != "" {
        if y in names && y != "" {
          var i :| 0 <= i < |names| && names[i] == y;
          assert posts[i] in posts;
        }
        if exists p :: p in posts && p.categoryName == Some(y) && y != "" {
          var p :| p in posts && p.categoryName == Some(y) && y != "";
          var i :| 0 <= i < |posts| && posts[i] == p;
          assert names[i] == y;
        }
      }
    }
    Sidebar(names)
  }

  /** The search of this page: an empty term, or the term found case-insensitively in the title,
      content, summary, category name, any tag or the author's name. */
  predicate MatchesSearch(p: Card, term: string) {
    || term == ""
    || FieldMatches(Some(p.title), term)
    || FieldMatches(Some(p.content), term)
    || FieldMatches(p.summary, term)
    || FieldMatches(p.categoryName, term)
    || AnyMatches(p.tags, term)
    || FieldMatches(p.authorName, term)
  }

  /** The category test: 'All', or the post's category has that name. */
  predicate InCategory(p: Card, category: string) {
    category == "All" || p.categoryName == Some(category)
  }

  /** `filteredPosts`: the posts in the selected category matching the search, in their order. */
  function FilteredPosts(posts: seq<Card>, category: string, term: string): (r: seq<Card>)
    ensures IsSubsequence(r, posts)
    ensures forall p :: p in r <==> p in posts && InCategory(p, category) && MatchesSearch(p, term)
  {
    Filter(posts, (p: Card) => InCategory(p, category) && MatchesSearch(p, term))
  }

  /** With 'All' and an empty search every post is listed. */
  lemma FilterNothingOut(posts: seq<Card>)
    ensures FilteredPosts(posts, "All", "") == posts
  {
    FilterKeepsAll(posts, (p: Card) => InCategory(p, "All") && MatchesSearch(p, ""));
  }

  /** `paginatedPosts`: the posts of the current page. */
  function PaginatedPosts(posts: seq<Card>, category: string, term: string, page: nat): (r: seq<Card>)
    requires page >= 1
    ensures |r| <= PostsPerPage
    ensures forall p :: p in r ==> p in FilteredPosts(posts, category, term)
  {
    var f := FilteredPosts(posts, category, term);
    var r := Page(f, page);
    assert forall i :: 0 <= i < |r| ==> r[i] in f;
    r
  }

  /** `getCategoryCount`: every post for 'All', otherwise the posts whose category has that name,
      whatever the search. */
  function CategoryCount(posts: seq<Card>, category: string): (n: nat)
    ensures n <= |posts|
    ensures category == "All" ==> n == |posts|
  {
    if category == "All" then |posts| else Count(posts, (p: Card) => p.categoryName == Some(category))
  }

  /** The count beside a sidebar entry is the number of posts listed under it with an empty search. */
  lemma CategoryCountIsListed(posts: seq<Card>, category: string)
    ensures CategoryCount(posts, category) == |FilteredPosts(posts, category, "")|
  {
    if category == "All" {
      FilterNothingOut(posts);
    } else {
      FilterSame(posts, (p: Card) => p.categoryName == Some(category),
                        (p: Card) => InCategory(p, category) && MatchesSearch(p, ""));
    }
  }

  /** `getLikeCount` of this page: the likes flagged `liked === true`. */
  function CardLikes(p: Card): (n: nat)
    ensures p.likes.None? ==> n == 0
    ensures p.likes.Some? ==> n + LikeCount(p.likes, false) == |p.likes.value|
  {
    if p.likes.Some? then LikeCountsSplit(p.likes.value); LikeCount(p.likes, true)
    else LikeCount(p.likes, true)
  }
}
