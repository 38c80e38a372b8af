/** The administrator's review page: tag sidebar, search, pages, and the publish and reject buttons
    that remove a reviewed post from the list. */
module ReviewPage {
  import opened Wrappers
  import opened Text
  import opened Lists
  import opened Schema
  import opened Listing
  import opened ReviewActions

  /** A post as the page shows it. */
  datatype Card = Card(id: string, title: string, content: string, tags: seq<string>,
                       authorName: Option<string>, published: Status, likes: Option<seq<Like>>)

  datatype ToastKind = Success | Failure | Info

  /** A notification; `id` is the clock's reading, as text, when it was raised. */
  datatype Toast = Toast(id: string, message: string, kind: ToastKind)

  /** The two buttons of a card. */
  datatype ReviewAct = Publish | Reject

  function ActText(a: ReviewAct): string {
    match a
    case Publish => "publish"
    case Reject => "reject"
  }

  /** The sidebar: 'All', then the distinct non-empty tags of the posts, sorted. */
  function TagSidebar(posts: seq<Card>): (r: seq<string>)
    ensures |r| >= 1 && r[0] == "All"
    ensures StrictlySorted(r[1..])
    ensures forall y :: y in r[1..] <==> y != "" && exists p :: p in posts && y in p.tags
  {
    var lists := seq(|posts|, i requires 0 <= i < |posts| => posts[i].tags);
    var all := Flatten(lists);
    assert forall y :: y in all <==> exists p :: p in posts && y in p.tags by {
      forall y ensures y in all <==> exists p :: p in posts && y in p.tags {
        if exists p :: p in posts && y in p.tags {
          var p :| p in posts && y in p.tags;
          var k :| 0 <= k < |posts| && posts[k] == p;
          assert y in lists[k];
        }
      }
    }
    Sidebar(all)
  }

  /** The search of this page: the title, content, any tag or the author's name; not the summary. */
  predicate MatchesSearch(p: Card, term: string) {
    || term == ""
    || FieldMatches(Some(p.title), term)
    || FieldMatches(Some(p.content), term)
    || AnyMatches(p.tags, term)
    || FieldMatches(p.authorName, term)
  }

  predicate HasTag(p: Card, tag: string) {
    tag == "All" || tag in p.tags
  }

  /** `filteredPosts`: the posts carrying the selected tag and matching the search, in order. */
  function FilteredPosts(posts: seq<Card>, tag: string, term: string): (r: seq<Card>)
    ensures IsSubsequence(r, posts)
    ensures forall p :: p in r <==> p in posts && HasTag(p, tag) && MatchesSearch(p, term)
  {
    Filter(posts, (p: Card) => HasTag(p, tag) && MatchesSearch(p, term))
  }

  /** `gettagsCount`: every post for 'All', otherwise the posts carrying the tag. */
  function TagCount(posts: seq<Card>, tag: string): (n: nat)
    ensures n <= |posts|
    ensures tag == "All" ==> n == |posts|
  {
    if tag == "All" then |posts| else Count(posts, (p: Card) => tag in p.tags)
  }

  /** The count beside a tag is the number of posts listed under it with an empty search. */
  lemma TagCountIsListed(posts: seq<Card>, tag: string)
    ensures TagCount(posts, tag) == |FilteredPosts(posts, tag, "")|
  {
    if tag == "All" {
      FilterKeepsAll(posts, (p: Card) => HasTag(p, tag) && MatchesSearch(p, ""));
    } else {
      FilterSame(posts, (p: Card) => tag in p.tags, (p: Card) => HasTag(p, tag) && MatchesSearch(p, ""));
    }
  }

  /** `getLikeCount` of this page counts the likes flagged `liked === false`. */
  function CardLikes(p: Card): (n: nat)
    ensures p.likes.None? ==> n == 0
    ensures p.likes.Some? ==> n + LikeCount(p.likes, true) == |p.likes.value|
  {
    if p.likes.Some? then LikeCountsSplit(p.likes.value); LikeCount(p.likes, false)
    else LikeCount(p.likes, false)
  }

  /** Publish is disabled while the card's request runs and on a post already published. */
  predicate PublishDisabled(p: Card, loading: Option<string>)
    ensures PublishDisabled(p, loading) <==> loading == Some(p.id) || StatusBadge(p.published) == "Published"
  {
    loading == Some(p.id) || p.published == Published
  }

  /** Reject is disabled while the card's request runs and on a post already rejected. */
  predicate RejectDisabled(p: Card, loading: Option<string>)
    ensures RejectDisabled(p, loading) <==> loading == Some(p.id) || StatusBadge(p.published) == "Rejected"
  {
    loading == Some(p.id) || p.published == Rejected
  }

  /** A button that can be pressed always changes the post's status: neither button re-applies the
      status the post has. Under review, both can be pressed. */
  lemma EnabledButtonChangesStatus(p: Card, loading: Option<string>)
    ensures !PublishDisabled(p, loading) ==> p.published != Published
    ensures !RejectDisabled(p, loading) ==> p.published != Rejected
    ensures p.published == UnderReview && loading != Some(p.id) ==>
      !PublishDisabled(p, loading) && !RejectDisabled(p, loading)
  {
  }

  /** The list without the cards of post `id`, the others in their order. */
  function WithoutCard(posts: seq<Card>, id: string): (r: seq<Card>)
    ensures IsSubsequence(r, posts)
    ensures forall p :: p in r <==> p in posts && p.id != id
  {
    Filter(posts, (p: Card) => p.id != id)
  }

  /** The success message: the title of the first card with that id ('Post' when there is none or
      its title is empty) and the past tense of the action. */
  function SuccessMessage(posts: seq<Card>, id: string, act: ReviewAct): string {
    var found := Find(posts, (p: Card) => p.id == id);
    var title := if found.Some? && found.value.title != "" then found.value.title else "Post";
    var done := if act == Publish then "published" else "rejected";
    "\"" + title + "\" has been " + done + " successfully!"
  }

  const FailureMessage := "Failed to update post. Please try again."

  /** The list without the toasts with that id. */
  function WithoutToast(toasts: seq<Toast>, id: string): (r: seq<Toast>)
    ensures IsSubsequence(r, toasts)
    ensures forall t :: t in r <==> t in toasts && t.id != id
  {
    Filter(toasts, (t: Toast) => t.id != id)
  }

  /** The state of the page. */
  class ReviewList {
    var posts: seq<Card>
    var toasts: seq<Toast>
    var isLoading: Option<string>

    constructor (initial: seq<Card>)
      ensures posts == initial && toasts == [] && isLoading == None
    {
      posts := initial;
      toasts := [];
      isLoading := None;
    }

    /** `removeToast`: drops exactly the toasts with that id. */
    method RemoveToast(id: string)
      modifies this
      ensures toasts == WithoutToast(old(toasts), id)
      ensures posts == old(posts) && isLoading == old(isLoading)
    {
      toasts := WithoutToast(toasts, id);
    }

    /** `handleReviewAction`: sends the action to the review server action. When it resolves the
        post leaves the local list, the others keeping their order, and a success toast is raised;
        when it throws (no such post) the list is kept and a failure toast is raised. Either way
        the card is no longer loading. `stamp` is the clock's reading as text, the toast's id. */
    method HandleReviewAction(db: Database, postId: string, act: ReviewAct, stamp: string)
      requires db.Valid()
      modifies this, db
      ensures db.Valid()
      ensures isLoading == None
      ensures unchanged(db`users, db`likes, db`categories, db`resetTokens)
      ensures PostById(old(db.posts), postId).Some? ==>
        && db.posts == WithStatus(old(db.posts), postId, if act == Publish then Published else Rejected)
        && posts == WithoutCard(old(posts), postId)
        && toasts == old(toasts) + [Toast(stamp, SuccessMessage(old(posts), postId, act), Success)]
      ensures PostById(old(db.posts), postId).None? ==>
        && db.posts == old(db.posts)
        && posts == old(posts)
        && toasts == old(toasts) + [Toast(stamp, FailureMessage, Failure)]
    {
      isLoading := Some(postId);
      var outcome := ReviewBlog(db, ReviewRequest(ActText(act), postId));
      if outcome == Done {
        var message := SuccessMessage(posts, postId, act);
        posts := WithoutCard(posts, postId);
        toasts := toasts + [Toast(stamp, message, Success)];
      } else {
        toasts := toasts + [Toast(stamp, FailureMessage, Failure)];
      }
      isLoading := None;
    }
  }
}
