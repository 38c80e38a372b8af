/** The server action that deletes a post. */
module DeleteBlog {
  import opened Wrappers
  import opened Lists
  import opened Schema

  /** The post table without the rows whose id is `id`. */
  function WithoutPost(posts: seq<Post>, id: string): seq<Post> {
    Filter(posts, (p: Post) => p.id != id)
  }

  /** After the delete no post has the id, and every other id finds what it found before. */
  lemma {:induction false} WithoutPostLookup(posts: seq<Post>, id: string, k: string)
    ensures PostById(WithoutPost(posts, id), k) == if k == id then None else PostById(posts, k)
    decreases |posts|
  {
    if posts != [] {
      WithoutPostLookup(posts[1..], id, k);
    }
  }

  /** With unique ids, deleting a post that exists removes exactly one row. */
  lemma {:induction false} WithoutPostRemovesOne(posts: seq<Post>, id: string)
    requires UniqueBy(posts, PostId)
    requires PostById(posts, id).Some?
    ensures |WithoutPost(posts, id)| == |posts| - 1
    decreases |posts|
  {
    if posts[0].id == id {
      forall q | q in posts[1..] ensures q.id != id {
        var j :| 0 <= j < |posts[1..]| && posts[1..][j] == q;
        assert posts[j + 1] == q;
      }
      FilterKeepsAll(posts[1..], (p: Post) => p.id != id);
    } else {
      WithoutPostRemovesOne(posts[1..], id);
    }
  }

  /** `DeleteBlogAction`: removes the post with the given id, whoever asks; an unknown id makes
      the delete throw and nothing changes. */
  method DeleteBlogAction(db: Database, postId: string) returns (r: Outcome)
    requires db.Valid()
    modifies db
    ensures db.Valid()
    ensures unchanged(db`users, db`likes, db`categories, db`resetTokens)
    ensures PostById(old(db.posts), postId).None? ==> r == Thrown(DeleteNotFound) && db.posts == old(db.posts)
    ensures PostById(old(db.posts), postId).Some? ==>
      r == Done && db.posts == WithoutPost(old(db.posts), postId) && |db.posts| == |old(db.posts)| - 1
  {
    if PostById(db.posts, postId).None? {
      return Thrown(DeleteNotFound);
    }
    WithoutPostRemovesOne(db.posts, postId);
    FilterUnique(db.posts, (p: Post) => p.id != postId, PostId);
    db.posts := WithoutPost(db.posts, postId);
    r := Done;
  }
}
