/** The home page's live list of posts: prepend, replace, remove and re-count operations other
    parts of the page call, and a refresh from the server. */
module HomeBlogList {
  import opened Lists

  /** A post as the list holds it, with its like count (`_count.likes`). */
  datatype Card = Card(id: string, createdAt: int, content: string, authorId: string, title: string,
                       published: bool, categories: seq<string>, likeCount: int)

  function CardId(c: Card): string {
    c.id
  }

  /** The list after `addPost`: unchanged when a post with the new post's id is present, otherwise
      the new post first and the others after it. */
  function WithNewPost(posts: seq<Card>, p: Card): (r: seq<Card>)
    ensures (exists q :: q in posts && q.id == p.id) ==> r == posts
    ensures (forall q :: q in posts ==> q.id != p.id) ==> r == [p] + posts
  {
    if exists q :: q in posts && q.id == p.id then posts else [p] + posts
  }

  /** `addPost` keeps the ids of the list distinct. */
  lemma NewPostKeepsIdsDistinct(posts: seq<Card>, p: Card)
    requires UniqueBy(posts, CardId)
    ensures UniqueBy(WithNewPost(posts, p), CardId)
  {
    var r := WithNewPost(posts, p);
    if forall q :: q in posts ==> q.id != p.id {
      forall i, j | 0 <= i < j < |r| ensures CardId(r[i]) != CardId(r[j]) {
        assert r[j] == posts[j - 1];
        if i == 0 {
          assert posts[j - 1] in posts;
        } else {
          assert r[i] == posts[i - 1];
        }
      }
    }
  }

  /** Adding the same post twice is adding it once. */
  lemma NewPostIdempotent(posts: seq<Card>, p: Card)
    ensures WithNewPost(WithNewPost(posts, p), p) == WithNewPost(posts, p)
  {
    assert p in [p] + posts;
  }

  /** The list after `updatePost`: every post with the updated post's id is replaced by it; the
      others stay where they are. */
  function WithUpdatedPost(posts: seq<Card>, p: Card): (r: seq<Card>)
    ensures |r| == |posts|
    ensures forall i :: 0 <= i < |posts| ==> r[i] == if posts[i].id == p.id then p else posts[i]
  {
    seq(|posts|, i requires 0 <= i < |posts| => if posts[i].id == p.id then p else posts[i])
  }

  /** `updatePost` leaves every id in place, so distinct ids stay distinct, and the updated post is
      in the list exactly when its id was. */
  lemma UpdateKeepsIds(posts: seq<Card>, p: Card)
    ensures forall i :: 0 <= i < |posts| ==> WithUpdatedPost(posts, p)[i].id == posts[i].id
    ensures UniqueBy(posts, CardId) ==> UniqueBy(WithUpdatedPost(posts, p), CardId)
    ensures (exists q :: q in posts && q.id == p.id) <==> p in WithUpdatedPost(posts, p)
  {
    var r := WithUpdatedPost(posts, p);
    if exists q :: q in posts && q.id == p.id {
      var q :| q in posts && q.id == p.id;
      var i :| 0 <= i < |posts| && posts[i] == q;
      assert r[i] == p;
    }
    if p in r {
      var i :| 0 <= i < |r| && r[i] == p;
      assert posts[i] in posts;
    }
  }

  /** The list after `removePost`: the posts with another id, in their order. */
  function WithoutPost(posts: seq<Card>, id: string): (r: seq<Card>)
    ensures IsSubsequence(r, posts)
    ensures forall q :: q in r <==> q in posts && q.id != id
  {
    Filter(posts, (q: Card) => q.id != id)
  }

  /** Removing a post and adding it back puts it first, ahead of the rest in their order. */
  lemma RemoveThenAdd(posts: seq<Card>, p: Card)
    ensures WithNewPost(WithoutPost(posts, p.id), p) == [p] + WithoutPost(posts, p.id)
  {
  }

  /** The list after `updateLikeCount`: the posts with that id get the new count. */
  function WithLikeCount(posts: seq<Card>, id: string, count: int): (r: seq<Card>)
    ensures |r| == |posts|
    ensures forall i :: 0 <= i < |posts| ==> r[i] == if posts[i].id == id then posts[i].(likeCount := count) else posts[i]
  {
    seq(|posts|, i requires 0 <= i < |posts| => if posts[i].id == id then posts[i].(likeCount := count) else posts[i])
  }

  /** `updateLikeCount` changes nothing but the count, and only on the posts with that id. */
  lemma LikeCountOnlyChangesCount(posts: seq<Card>, id: string, count: int)
    ensures forall i :: 0 <= i < |posts| ==>
      WithLikeCount(posts, id, count)[i].(likeCount := posts[i].likeCount) == posts[i]
    ensures forall i :: 0 <= i < |posts| && posts[i].id != id ==> WithLikeCount(posts, id, count)[i] == posts[i]
  {
  }

  /** The category filter: the page never changes its selection from 'All'. */
  const SelectedCategory := "All"

  /** `filteredPosts`, which keeps every post. */
  function FilteredPosts(posts: seq<Card>): (r: seq<Card>)
    ensures r == posts
  {
    FilterKeepsAll(posts, (q: Card) => SelectedCategory == "All");
    Filter(posts, (q: Card) => SelectedCategory == "All")
  }

  /** How a refresh ends: no fetch function was given, the fetch returned posts, or it failed. */
  datatype Fetch = NoFetcher | Fetched(latest: seq<Card>) | FetchFailed

  /** The list's state. */
  class PostList {
    var posts: seq<Card>
    var isRefreshing: bool

    constructor (initial: seq<Card>)
      ensures posts == initial && !isRefreshing
    {
      posts := initial;
      isRefreshing := false;
    }

    method AddPost(p: Card)
      modifies this
      ensures posts == WithNewPost(old(posts), p)
      ensures isRefreshing == old(isRefreshing)
      ensures UniqueBy(old(posts), CardId) ==> UniqueBy(posts, CardId)
    {
      if UniqueBy(posts, CardId) {
        NewPostKeepsIdsDistinct(posts, p);
      }
      posts := WithNewPost(posts, p);
    }

    method UpdatePost(p: Card)
      modifies this
      ensures posts == WithUpdatedPost(old(posts), p)
      ensures isRefreshing == old(isRefreshing)
    {
      posts := WithUpdatedPost(posts, p);
    }

    method RemovePost(id: string)
      modifies this
      ensures posts == WithoutPost(old(posts), id)
      ensures isRefreshing == old(isRefreshing)
    {
      posts := WithoutPost(posts, id);
    }

    method UpdateLikeCount(id: string, count: int)
      modifies this
      ensures posts == WithLikeCount(old(posts), id, count)
      ensures isRefreshing == old(isRefreshing)
    {
      posts := WithLikeCount(posts, id, count);
    }

    /** `refreshPosts`: with no fetch function nothing happens; a fetch that returns replaces the
        list with what it returned; a failed one keeps the list. A refresh that ran ends with
        `isRefreshing` false. */
    method RefreshPosts(fetch: Fetch)
      modifies this
      ensures fetch.NoFetcher? ==> posts == old(posts) && isRefreshing == old(isRefreshing)
      ensures fetch.Fetched? ==> posts == fetch.latest && !isRefreshing
      ensures fetch.FetchFailed? ==> posts == old(posts) && !isRefreshing
    {
      if fetch.NoFetcher? {
        return;
      }
      isRefreshing := true;
      if fetch.Fetched? {
        posts := fetch.latest;
      }
      isRefreshing := false;
    }
  }
}
