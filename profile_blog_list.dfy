/** A user's own post list on the profile page, with a delete button per post. */
module ProfileBlogList {
  import opened Lists
  import opened Schema
  import opened Listing
  import opened DeleteBlog

  /** A post as the list holds it, with its like count. */
  datatype Card = Card(id: string, title: string, createdAt: string, published: Status, content: string,
                       authorId: string, categories: seq<string>, likeCount: int)

  /** The category filter: the page never changes its selection from 'All'. */
  const SelectedCategory := "All"

  /** `filteredPosts`, which keeps every post. */
  function FilteredPosts(posts: seq<Card>): (r: seq<Card>)
    ensures r == posts
  {
    FilterKeepsAll(posts, (q: Card) => SelectedCategory == "All");
    Filter(posts, (q: Card) => SelectedCategory == "All")
  }

  /** The list without the posts with that id, the others in their order. */
  function WithoutCard(posts: seq<Card>, id: string): (r: seq<Card>)
    ensures IsSubsequence(r, posts)
    ensures forall q :: q in r <==> q in posts && q.id != id
  {
    Filter(posts, (q: Card) => q.id != id)
  }

  /** The list's state: the posts and the ids whose deletion is under way. */
  class PostList {
    var posts: seq<Card>
    var deletingPosts: set<string>

    constructor (initial: seq<Card>)
      ensures posts == initial && deletingPosts == {}
    {
      posts := initial;
      deletingPosts := {};
    }

    /** `handleDeletePost`. A declined confirmation changes nothing. Otherwise the id is marked as
        being deleted (`marked` is the set while the server action runs) and the delete server
        action is called; if it resolves the post leaves the list, and if it throws (no such post)
        the list is kept. Either way the id is unmarked afterwards. `confirmed` is the user's
        answer to the confirmation dialog. */
    method HandleDeletePost(db: Database, postId: string, confirmed: bool) returns (ghost marked: set<string>)
      requires db.Valid()
      modifies this, db
      ensures db.Valid()
      ensures unchanged(db`users, db`likes, db`categories, db`resetTokens)
      ensures !confirmed ==> unchanged(this) && unchanged(db)
      ensures confirmed ==>
        && marked == old(deletingPosts) + {postId}
        && deletingPosts == old(deletingPosts) - {postId}
      ensures confirmed && PostById(old(db.posts), postId).Some? ==>
        db.posts == WithoutPost(old(db.posts), postId) && posts == WithoutCard(old(posts), postId)
      ensures confirmed && PostById(old(db.posts), postId).None? ==>
        db.posts == old(db.posts) && posts == old(posts)
    {
      if !confirmed {
        return {};
      }
      deletingPosts := deletingPosts + {postId};
      marked := deletingPosts;
      var outcome := DeleteBlogAction(db, postId);
      if outcome == Done {
        posts := WithoutCard(posts, postId);
      }
      deletingPosts := deletingPosts - {postId};
    }
  }
}
