/** The like-count route: `GET /api/posts/likecount?postid=…`. */
module LikeCountRoute {
  import opened Lists
  import opened Schema

  /** `GET /api/posts/likecount`: the number of like rows of the post `postId`, whatever their
      `liked` flag. It reads the like table and changes nothing; it is zero exactly when no row
      belongs to the post, and never more than the table holds. */
  function LikeCount(likes: seq<Like>, postId: string): (n: nat)
    ensures n <= |likes|
    ensures n == 0 <==> forall l :: l in likes ==> l.postId != postId
  {
    var rows := Filter(likes, (l: Like) => l.postId == postId);
    assert rows != [] ==> rows[0] in rows;
    |rows|
  }

  /** The count is the rows flagged `liked` plus the rows not flagged: the flag is not consulted. */
  lemma {:induction false} LikeCountIgnoresFlag(likes: seq<Like>, postId: string)
    ensures LikeCount(likes, postId) ==
      Count(likes, (l: Like) => l.postId == postId && l.liked) + Count(likes, (l: Like) => l.postId == postId && !l.liked)
    decreases |likes|
  {
    if likes != [] {
      LikeCountIgnoresFlag(likes[1..], postId);
    }
  }

  /** A new like row of the post adds one to its count; a row of another post adds nothing. */
  lemma LikeCountAppend(likes: seq<Like>, l: Like, postId: string)
    ensures LikeCount(likes + [l], postId) == LikeCount(likes, postId) + if l.postId == postId then 1 else 0
  {
    FilterAppend(likes, l, (x: Like) => x.postId == postId);
  }
}
