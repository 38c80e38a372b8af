/** The review server action: an administrator publishes or rejects a post. */
module ReviewActions {
  import opened Wrappers
  import opened Lists
  import opened Schema

  /** The JSON object carried in the `action` form field. */
  datatype ReviewRequest = ReviewRequest(act: string, postId: string)

  /** The post table after every row with id `id` has been given the status `s`; every other
      column and every other row is kept. */
  function WithStatus(posts: seq<Post>, id: string, s: Status): (r: seq<Post>)
    ensures |r| == |posts|
    ensures forall i :: 0 <= i < |posts| ==>
      r[i] == if posts[i].id == id then posts[i].(published := s) else posts[i]
    decreases |posts|
  {
    if posts == [] then []
    else [if posts[0].id == id then posts[0].(published := s) else posts[0]] + WithStatus(posts[1..], id, s)
  }

  /** After the update, looking the post up gives the old row with the new status, whatever status
      it had before, and looking up any other id gives what it gave before. */
  lemma {:induction false} WithStatusLookup(posts: seq<Post>, id: string, s: Status, k: string)
    ensures PostById(WithStatus(posts, id, s), k) ==
      if k == id && PostById(posts, k).Some? then Some(PostById(posts, k).value.(published := s))
      else PostById(posts, k)
    decreases |posts|
  {
    if posts != [] {
      var r := WithStatus(posts, id, s);
      assert r[1..] == WithStatus(posts[1..], id, s);
      WithStatusLookup(posts[1..], id, s, k);
    }
  }

  /** Changing statuses keeps post ids unique. */
  lemma WithStatusUnique(posts: seq<Post>, id: string, s: Status)
    requires UniqueBy(posts, PostId)
    ensures UniqueBy(WithStatus(posts, id, s), PostId)
  {
    var r := WithStatus(posts, id, s);
    assert forall i :: 0 <= i < |r| ==> PostId(r[i]) == PostId(posts[i]);
  }

  /** `ReviewBlog`: 'publish' stores "true" and 'reject' stores "reject" in the post's `published`
      column, without looking at the status it had or at who asks; any other `act` throws
      "Cannot Review", and an unknown post id makes the update throw. */
  method ReviewBlog(db: Database, request: ReviewRequest) returns (r: Outcome)
    requires db.Valid()
    modifies db
    ensures db.Valid()
    ensures unchanged(db`users, db`likes, db`categories, db`resetTokens)
    ensures request.act != "publish" && request.act != "reject" ==>
      r == Thrown("Cannot Review") && db.posts == old(db.posts)
    ensures (request.act == "publish" || request.act == "reject") && PostById(old(db.posts), request.postId).None? ==>
      r == Thrown(UpdateNotFound) && db.posts == old(db.posts)
    ensures request.act == "publish" && PostById(old(db.posts), request.postId).Some? ==>
      r == Done && db.posts == WithStatus(old(db.posts), request.postId, Published)
    ensures request.act == "reject" && PostById(old(db.posts), request.postId).Some? ==>
      r == Done && db.posts == WithStatus(old(db.posts), request.postId, Rejected)
  {
    if request.act == "publish" || request.act == "reject" {
      if PostById(db.posts, request.postId).None? {
        return Thrown(UpdateNotFound);
      }
      var status := if request.act == "publish" then Published else Rejected;
      WithStatusUnique(db.posts, request.postId, status);
      db.posts := WithStatus(db.posts, request.postId, status);
      r := Done;
    } else {
      r := Thrown("Cannot Review");
    }
  }
}
