/** The liked-posts route: `GET /api/posts/liked?username=…`. */
module LikedPostsRoute {
  import opened Lists
  import opened Schema
  import opened NewestFirst

  /** Some like row of `p` was left by the user named `username`. Neither the row's `liked` flag nor
      the post's status plays a part. */
  predicate LikedBy(p: Post, likes: seq<Like>, users: seq<User>, username: string) {
    exists l, u :: l in likes && u in users && l.postId == p.id && u.id == l.authorId && u.name == username
  }

  /** `GET /api/posts/liked`: the posts with at least one like whose author is named `username`,
      newest first. It reads the tables and changes nothing. A post is in the result exactly when
      it is a post of the table liked by that user, and it appears as often as in the table. */
  function LikedPosts(posts: seq<Post>, likes: seq<Like>, users: seq<User>, username: string): (r: seq<Post>)
    ensures forall p :: p in r <==> p in posts && LikedBy(p, likes, users, username)
    ensures IsNewestFirst(r)
    ensures multiset(r) == multiset(Filter(posts, (p: Post) => LikedBy(p, likes, users, username)))
  {
    var liked := Filter(posts, (p: Post) => LikedBy(p, likes, users, username));
    SortSameMembers(liked);
    Sort(liked)
  }

  /** Flipping the `liked` flag of like rows does not change which posts are listed. */
  lemma LikedIgnoresFlag(posts: seq<Post>, likes: seq<Like>, flipped: seq<Like>, users: seq<User>, username: string)
    requires |flipped| == |likes|
    requires forall i :: 0 <= i < |likes| ==> flipped[i] == likes[i].(liked := flipped[i].liked)
    ensures LikedPosts(posts, flipped, users, username) == LikedPosts(posts, likes, users, username)
  {
    forall p | p in posts ensures LikedBy(p, flipped, users, username) == LikedBy(p, likes, users, username) {
      if LikedBy(p, likes, users, username) {
        var l, u :| l in likes && u in users && l.postId == p.id && u.id == l.authorId && u.name == username;
        var i :| 0 <= i < |likes| && likes[i] == l;
        assert flipped[i] in flipped;
      }
      if LikedBy(p, flipped, users, username) {
        var l, u :| l in flipped && u in users && l.postId == p.id && u.id == l.authorId && u.name == username;
        var i :| 0 <= i < |flipped| && flipped[i] == l;
        assert likes[i] in likes;
      }
    }
    FilterSame(posts, (p: Post) => LikedBy(p, flipped, users, username),
                      (p: Post) => LikedBy(p, likes, users, username));
  }
}
