/** One author's blog list: category sidebar, search, counters and the status badge. */
module UserBlogList {
  import opened Wrappers
  import opened Text
  import opened Lists
  import opened Schema
  import opened Listing

  /** A post as the list shows it; `categories` is its `Category` column. */
  datatype Card = Card(id: string, title: string, content: string, published: Status,
                       categories: seq<string>, authorName: Option<string>, authorBio: Option<string>,
                       likes: Option<seq<Like>>)

  /** The sidebar: 'All', then the distinct non-empty category names of all posts, sorted. */
  function Categories(posts: seq<Card>): (r: seq<string>)
    ensures |r| >= 1 && r[0] == "All"
    ensures StrictlySorted(r[1..])
    ensures forall y :: y in r[1..] <==> y != "" && exists p :: p in posts && y in p.categories
  {
    var lists := seq(|posts|, i requires 0 <= i < |posts| => posts[i].categories);
    var all := Flatten(lists);
    assert forall y :: y in all <==> exists p :: p in posts && y in p.categories by {
      forall y ensures y in all <==> exists p :: p in posts && y in p.categories {
        if exists p :: p in posts && y in p.categories {
          var p :| p in posts && y in p.categories;
          var k :| 0 <= k < |posts| && posts[k] == p;
          assert y in lists[k];
        }
      }
    }
    Sidebar(all)
  }

  /** The search of this list: the title, content, any category or the author's name. */
  predicate MatchesSearch(p: Card, term: string) {
    || term == ""
    || FieldMatches(Some(p.title), term)
    || FieldMatches(Some(p.content), term)
    || AnyMatches(p.categories, term)
    || FieldMatches(p.authorName, term)
  }

  predicate InCategory(p: Card, category: string) {
    category == "All" || category in p.categories
  }

  /** `filteredPosts`: the posts in the selected category matching the search, in order. */
  function FilteredPosts(posts: seq<Card>, category: string, term: string): (r: seq<Card>)
    ensures IsSubsequence(r, posts)
    ensures forall p :: p in r <==> p in posts && InCategory(p, category) && MatchesSearch(p, term)
  {
    Filter(posts, (p: Card) => InCategory(p, category) && MatchesSearch(p, term))
  }

  /** `getCategoryCount`: every post for 'All', otherwise the posts whose categories include it. */
  function CategoryCount(posts: seq<Card>, category: string): (n: nat)
    ensures n <= |posts|
    ensures category == "All" ==> n == |posts|
  {
    if category == "All" then |posts| else Count(posts, (p: Card) => category in p.categories)
  }

  /** The count beside a category is the number of posts listed under it with an empty search. */
  lemma CategoryCountIsListed(posts: seq<Card>, category: string)
    ensures CategoryCount(posts, category) == |FilteredPosts(posts, category, "")|
  {
    if category == "All" {
      FilterKeepsAll(posts, (p: Card) => InCategory(p, category) && MatchesSearch(p, ""));
    } else {
      FilterSame(posts, (p: Card) => category in p.categories,
                        (p: Card) => InCategory(p, category) && MatchesSearch(p, ""));
    }
  }

  /** `getLikeCount` of this list counts the likes flagged `liked === false`. */
  function CardLikes(p: Card): (n: nat)
    ensures p.likes.None? ==> n == 0
    ensures p.likes.Some? ==> n + LikeCount(p.likes, true) == |p.likes.value|
  {
    if p.likes.Some? then LikeCountsSplit(p.likes.value); LikeCount(p.likes, false)
    else LikeCount(p.likes, false)
  }

  /** The header: the first post's author name and bio. The list is read at index 0, so the
      component needs at least one post. */
  function Header(posts: seq<Card>): (r: (Option<string>, Option<string>))
    requires |posts| > 0
    ensures r.0 == posts[0].authorName && r.1 == posts[0].authorBio
  {
    (posts[0].authorName, posts[0].authorBio)
  }

  /** The badge text as written: the status string is tested for truthiness, and every status
      string is non-empty. */
  function StatusLabelAsWritten(s: Status): (badge: string)
    ensures badge == "Published" || badge == "Draft"
    ensures badge == "Draft" <==> StatusText(s) == ""
  {
    if StatusText(s) != "" then "Published" else "Draft"
  }

  /** Every post is badged "Published", rejected and under-review ones included. */
  lemma EveryPostLooksPublished(s: Status)
    ensures StatusLabelAsWritten(s) == "Published"
  {
  }

  /** The badge as evidently intended, agreeing with its colour test `=== 'true'`. */
  function StatusLabel(s: Status): (badge: string)
    ensures badge == "Published" <==> s == Published
    ensures badge == "Published" || badge == "Draft"
  {
    if s == Published then "Published" else "Draft"
  }

  /** The written badge and the intended one disagree on every post not published. */
  lemma LabelsDisagreeUnlessPublished(s: Status)
    ensures StatusLabelAsWritten(s) == StatusLabel(s) <==> s == Published
  {
  }
}
