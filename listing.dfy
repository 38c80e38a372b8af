/** What the blog-list components share: the case-insensitive search test, six-post pages, the
    read-time estimate and the like counter. */
module Listing {
  import opened Wrappers
  import opened Text
  import opened Lists
  import opened Schema

  /** `field?.toLowerCase().includes(term.toLowerCase())`: an absent field never matches. */
  predicate FieldMatches(field: Option<string>, term: string) {
    field.Some? && Includes(Lower(field.value), Lower(term))
  }

  /** `list.some(x => x.toLowerCase().includes(term.toLowerCase()))`. */
  predicate AnyMatches(list: seq<string>, term: string) {
    exists x :: x in list && Includes(Lower(x), Lower(term))
  }

  /** The empty search term occurs in every field. */
  lemma EmptyTermMatches(field: string)
    ensures FieldMatches(Some(field), "")
  {
    assert OccursAt(Lower(field), Lower(""), 0);
  }

  /** Posts shown per page. */
  const PostsPerPage := 6

  /** `Math.ceil(n / d)` for a whole `n` and a positive `d`: the least multiple count covering `n`. */
  function CeilDiv(n: nat, d: nat): (q: nat)
    requires d > 0
    ensures q * d >= n
    ensures q == 0 || (q - 1) * d < n
  {
    (n + d - 1) / d
  }

  /** `Math.ceil(n / 6)`. */
  function TotalPages(n: nat): nat {
    CeilDiv(n, PostsPerPage)
  }

  /** `filtered.slice((page - 1) * 6, page * 6)`; a slice past the end is cut short or empty. The
      page buttons only ever set `page` from 1 upward. */
  function Page<T>(filtered: seq<T>, page: nat): (r: seq<T>)
    requires page >= 1
    ensures |r| <= PostsPerPage
    ensures page <= TotalPages(|filtered|) <==> r != []
    ensures r != [] ==> (page - 1) * PostsPerPage + |r| <= |filtered|
    ensures forall i :: 0 <= i < |r| ==> r[i] == filtered[(page - 1) * PostsPerPage + i]
  {
    var start := (page - 1) * PostsPerPage;
    var end := page * PostsPerPage;
    if start >= |filtered| then []
    else if end >= |filtered| then filtered[start..]
    else filtered[start..end]
  }

  /** The first `k` pages one after another. */
  function PagesUpTo<T>(filtered: seq<T>, k: nat): seq<T> {
    if k == 0 then [] else PagesUpTo(filtered, k - 1) + Page(filtered, k)
  }

  /** The pages, read in order, give back the filtered list: every post is on exactly one page. */
  lemma {:induction false} PagesPartition<T>(filtered: seq<T>)
    ensures PagesUpTo(filtered, TotalPages(|filtered|)) == filtered
  {
    var n := TotalPages(|filtered|);
    PagesPrefix(filtered, n);
    assert n * PostsPerPage >= |filtered|;
  }

  /** The first `k` pages are the first `6k` posts. */
  lemma {:induction false} PagesPrefix<T>(filtered: seq<T>, k: nat)
    ensures PagesUpTo(filtered, k) == filtered[..if k * PostsPerPage < |filtered| then k * PostsPerPage else |filtered|]
  {
    if k > 0 {
      PagesPrefix(filtered, k - 1);
    }
  }

  /** Words read per minute. */
  const WordsPerMinute := 200

  /** The minutes of `getReadTime`: 1 for empty content, otherwise `ceil(words / 200)` over
      `content.split(/\s+/)`. It is at least 1, and for non-empty content the words fill the last
      minute partly: more than 200 per minute before it, at most 200 per minute up to it. */
  function ReadMinutes(content: string): (m: nat)
    ensures m >= 1
    ensures content != "" ==>
      var words := |SplitOnSpace(content)|;
      (m - 1) * WordsPerMinute < words <= m * WordsPerMinute
  {
    if content == "" then 1 else CeilDiv(|SplitOnSpace(content)|, WordsPerMinute)
  }

  /** `likes.filter(like => like.liked === flag).length`, 0 when `likes` is absent. */
  function LikeCount(likes: Option<seq<Like>>, flag: bool): (n: nat)
    ensures likes.None? ==> n == 0
    ensures likes.Some? ==> n <= |likes.value|
  {
    if likes.None? then 0 else Count(likes.value, (l: Like) => l.liked == flag)
  }

  /** The count of `liked === true` rows and that of `liked === false` rows make up every row. */
  lemma {:induction false} LikeCountsSplit(likes: seq<Like>)
    ensures LikeCount(Some(likes), true) + LikeCount(Some(likes), false) == |likes|
    decreases |likes|
  {
    if likes != [] {
      LikeCountsSplit(likes[1..]);
    }
  }

  /** The count starts at 0 for no rows and goes up by one exactly for each row whose `liked`
      is the flag counted. */
  lemma LikeCountStep(likes: seq<Like>, l: Like, flag: bool)
    ensures LikeCount(Some([]), flag) == 0
    ensures LikeCount(Some(likes + [l]), flag) ==
      LikeCount(Some(likes), flag) + (if l.liked == flag then 1 else 0)
  {
    FilterAppend(likes, l, (x: Like) => x.liked == flag);
  }

  /** The status badge of the review and profile lists. */
  function StatusBadge(s: Status): (badge: string)
    ensures badge == "Published" <==> s == Published
    ensures badge == "Under Review" <==> s == UnderReview
    ensures badge == "Rejected" <==> s == Rejected
  {
    if StatusText(s) == "true" then "Published"
    else if StatusText(s) == "false" then "Under Review"
    else "Rejected"
  }

  /** Different statuses get different badges. */
  lemma StatusBadgeDistinguishes(s: Status, t: Status)
    ensures StatusBadge(s) == StatusBadge(t) <==> s == t
  {
  }
}
