/** The feed route: `GET /api/posts/all`. */
module AllPostsRoute {
  import opened Lists
  import opened Schema
  import opened NewestFirst

  /** The feed holds at most this many posts. */
  const FeedSize := 10

  /** The `where: { published: "true" }` filter. */
  predicate IsPublished(p: Post) {
    p.published == Published
  }

  /** `GET /api/posts/all`: the published posts, newest first, at most ten. It reads the post table
      and changes nothing. Every post returned is a published post of the table, the list is ordered
      newest first, and it is ten long or, with fewer published posts, as long as there are. */
  function Feed(posts: seq<Post>): (r: seq<Post>)
    ensures forall p :: p in r ==> p in posts && p.published == Published
    ensures IsNewestFirst(r)
    ensures |r| == if Count(posts, IsPublished) < FeedSize then Count(posts, IsPublished) else FeedSize
    ensures multiset(r) <= multiset(Filter(posts, IsPublished))
  {
    var sorted := Sort(Filter(posts, IsPublished));
    SortSameMembers(Filter(posts, IsPublished));
    var n := if |sorted| < FeedSize then |sorted| else FeedSize;
    assert forall p :: p in sorted[..n] ==> p in sorted;
    assert sorted == sorted[..n] + sorted[n..];
    sorted[..n]
  }

  /** The feed is the newest of the published posts: a published post left out is no newer than any
      post shown. */
  lemma FeedIsNewest(posts: seq<Post>, p: Post, q: Post)
    requires p in posts && p.published == Published && p !in Feed(posts)
    requires q in Feed(posts)
    ensures q.createdAt >= p.createdAt
  {
    var sorted := Sort(Filter(posts, IsPublished));
    SortSameMembers(Filter(posts, IsPublished));
    var n := if |sorted| < FeedSize then |sorted| else FeedSize;
    assert Feed(posts) == sorted[..n];
    var j :| 0 <= j < |sorted| && sorted[j] == p;
    var i :| 0 <= i < n && sorted[i] == q;
    assert forall k :: 0 <= k < n ==> sorted[k] in sorted[..n];
  }

  /** With ten published posts or fewer the feed holds every one of them, each once. */
  lemma FeedHoldsAllWhenFew(posts: seq<Post>)
    requires Count(posts, IsPublished) <= FeedSize
    ensures multiset(Feed(posts)) == multiset(Filter(posts, IsPublished))
  {
    var sorted := Sort(Filter(posts, IsPublished));
    SortSameMembers(Filter(posts, IsPublished));
    assert Feed(posts) == sorted[..|sorted|] == sorted;
  }
}
