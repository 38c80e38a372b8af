/** `orderBy: { createdAt: "desc" }`: posts ordered newest first. The database promises no order
    among posts created at the same instant; this model puts them in reverse storage order. */
module NewestFirst {
  import opened Schema

  /** No post is older than the one after it. */
  predicate IsNewestFirst(s: seq<Post>) {
    forall i, j :: 0 <= i < j < |s| ==> s[i].createdAt >= s[j].createdAt
  }

  /** Places `p` in a list ordered newest first, after every post at least as new. */
  function Insert(p: Post, s: seq<Post>): (r: seq<Post>)
    requires IsNewestFirst(s)
    ensures IsNewestFirst(r)
    ensures forall q :: q in r <==> q == p || q in s
    decreases |s|
  {
    if s == [] || s[0].createdAt < p.createdAt then
      [p] + s
    else
      var rest := Insert(p, s[1..]);
      assert s == [s[0]] + s[1..];
      assert forall q :: q in rest ==> s[0].createdAt >= q.createdAt;
      var r := [s[0]] + rest;
      assert forall i :: 1 <= i < |r| ==> r[i] == rest[i - 1];
      r
  }

  /** `Insert` adds `p` once and keeps every other post. */
  lemma {:induction false} InsertCounts(p: Post, s: seq<Post>)
    requires IsNewestFirst(s)
    ensures multiset(Insert(p, s)) == multiset(s) + multiset{p}
    decreases |s|
  {
    if s == [] || s[0].createdAt < p.createdAt {
    } else {
      assert s == [s[0]] + s[1..];
      InsertCounts(p, s[1..]);
    }
  }

  /** The posts of `s` ordered newest first: the same posts, as many times each. */
  function Sort(s: seq<Post>): (r: seq<Post>)
    ensures IsNewestFirst(r)
    ensures multiset(r) == multiset(s)
    decreases |s|
  {
    if s == [] then []
    else
      assert s == [s[0]] + s[1..];
      InsertCounts(s[0], Sort(s[1..]));
      Insert(s[0], Sort(s[1..]))
  }

  /** Sorting neither adds nor drops a post. */
  lemma SortSameMembers(s: seq<Post>)
    ensures |Sort(s)| == |s|
    ensures forall p :: p in Sort(s) <==> p in s
  {
    var r := Sort(s);
    assert |r| == |multiset(r)| == |multiset(s)| == |s|;
    forall p ensures p in r <==> p in s {
      assert p in r <==> p in multiset(r);
      assert p in s <==> p in multiset(s);
    }
  }

  /** Two posts created at the same instant come out in the reverse of their storage order. */
  lemma SortTwoTied(a: Post, b: Post)
    requires a.createdAt == b.createdAt
    ensures Sort([a, b]) == [b, a]
  {
    assert [a, b][1..] == [b];
  }
}
