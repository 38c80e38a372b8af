/** The array operations the blog's pages use: `filter`, `new Set(...)` (first occurrences in order)
    and the default `sort` of distinct strings. */
module Lists {
  import opened Wrappers
  import opened Text

  /** `r` is an order-preserving sublist of `s`. */
  predicate IsSubsequence<T(==)>(r: seq<T>, s: seq<T>)
    decreases |s|
  {
    r == [] || (s != [] && ((r[0] == s[0] && IsSubsequence(r[1..], s[1..])) || IsSubsequence(r, s[1..])))
  }

  /** `s.filter(keep)`: the elements of `s` that satisfy `keep`, in their original order. */
  function Filter<T(==, !new)>(s: seq<T>, keep: T -> bool): (r: seq<T>)
    ensures |r| <= |s|
    ensures forall x :: x in r <==> x in s && keep(x)
    ensures IsSubsequence(r, s)
    decreases |s|
  {
    if s == [] then []
    else
      var rest := Filter(s[1..], keep);
      if keep(s[0]) then
        assert ([s[0]] + rest)[1..] == rest;
        [s[0]] + rest
      else rest
  }

  /** A filter that keeps everything leaves the list as it is. */
  lemma {:induction false} FilterKeepsAll<T(!new)>(s: seq<T>, keep: T -> bool)
    requires forall x :: x in s ==> keep(x)
    ensures Filter(s, keep) == s
    decreases |s|
  {
    if s != [] { FilterKeepsAll(s[1..], keep); }
  }

  /** The number of elements of `s` that satisfy `keep`: `s.filter(keep).length`. */
  function Count<T(==, !new)>(s: seq<T>, keep: T -> bool): nat {
    |Filter(s, keep)|
  }

  /** Counting what satisfies `keep` and what does not accounts for every element once. */
  lemma {:induction false} CountSplits<T(!new)>(s: seq<T>, keep: T -> bool)
    ensures Count(s, keep) + Count(s, x => !keep(x)) == |s|
    decreases |s|
  {
    if s != [] { CountSplits(s[1..], keep); }
  }

  /** No element occurs twice. */
  predicate NoDuplicates<T(==)>(s: seq<T>) {
    forall i, j :: 0 <= i < j < |s| ==> s[i] != s[j]
  }

  /** `[...new Set(s)]`: the first occurrence of each element of `s`, in order. */
  function Distinct<T(==, !new)>(s: seq<T>): (r: seq<T>)
    ensures NoDuplicates(r)
    ensures forall x :: x in r <==> x in s
    decreases |s|
  {
    if s == [] then []
    else
      var rest := Distinct(s[..|s| - 1]);
      assert s == s[..|s| - 1] + [s[|s| - 1]];
      if s[|s| - 1] in rest then rest else rest + [s[|s| - 1]]
  }

  /** Strictly increasing in the default sort order (hence free of duplicates). */
  predicate StrictlySorted(s: seq<string>) {
    forall i, j :: 0 <= i < j < |s| ==> Less(s[i], s[j])
  }

  /** Inserts a new string into a strictly sorted list at its place. */
  function Insert(x: string, s: seq<string>): (r: seq<string>)
    requires StrictlySorted(s) && x !in s
    ensures StrictlySorted(r) && |r| == |s| + 1
    ensures forall y :: y in r <==> y == x || y in s
    decreases |s|
  {
    if s == [] then [x]
    else if Less(x, s[0]) then
      assert forall j :: 0 <= j < |s| ==> Less(x, s[j]) by {
        forall j | 0 <= j < |s| ensures Less(x, s[j]) {
          if j > 0 { LessTransitive(x, s[0], s[j]); }
        }
      }
      assert StrictlySorted([x] + s) by {
        forall i, j | 0 <= i < j < |s| + 1 ensures Less(([x] + s)[i], ([x] + s)[j]) {
          if i > 0 { assert ([x] + s)[i] == s[i - 1]; }
        }
      }
      [x] + s
    else
      LessTotal(x, s[0]);
      var rest := Insert(x, s[1..]);
      assert forall y :: y in rest ==> Less(s[0], y);
      [s[0]] + rest
  }

  /** `s.sort()` on a list without duplicates. */
  function SortDistinct(s: seq<string>): (r: seq<string>)
    requires NoDuplicates(s)
    ensures StrictlySorted(r) && |r| == |s|
    ensures forall y :: y in r <==> y in s
    decreases |s|
  {
    if s == [] then []
    else
      assert s[|s| - 1] !in s[..|s| - 1];
      assert s == s[..|s| - 1] + [s[|s| - 1]];
      Insert(s[|s| - 1], SortDistinct(s[..|s| - 1]))
  }

  /** Two strictly sorted lists with the same elements are the same list: so a sidebar is fixed by
      the set of names it shows. */
  lemma {:induction false} StrictlySortedUnique(a: seq<string>, b: seq<string>)
    requires StrictlySorted(a) && StrictlySorted(b)
    requires forall y :: y in a <==> y in b
    ensures a == b
    decreases |a|
  {
    if a != [] && b != [] {
      assert a[0] == b[0] by {
        FirstIsLeast(a, b[0]);
        FirstIsLeast(b, a[0]);
        LessAsymmetric(a[0], b[0]);
      }
      forall y ensures y in a[1..] <==> y in b[1..] {
        TailMembers(a, y);
        TailMembers(b, y);
      }
      StrictlySortedUnique(a[1..], b[1..]);
      assert a == [a[0]] + a[1..] && b == [b[0]] + b[1..];
    } else if a != [] {
      HeadIsMember(a);
      assert false;
    } else if b != [] {
      HeadIsMember(b);
      assert false;
    }
  }

  lemma HeadIsMember(s: seq<string>)
    requires s != []
    ensures s[0] in s
  {
  }

  /** The head of a strictly sorted list precedes every other element. */
  lemma FirstIsLeast(s: seq<string>, y: string)
    requires StrictlySorted(s) && y in s
    ensures y == s[0] || Less(s[0], y)
  {
  }

  /** Of a strictly sorted list, the tail holds exactly the elements other than the head. */
  lemma TailMembers(s: seq<string>, y: string)
    requires StrictlySorted(s) && s != []
    ensures y in s[1..] <==> y in s && y != s[0]
  {
    if y in s[1..] {
      var i :| 1 <= i < |s| && s[i] == y;
      assert Less(s[0], s[i]);
      LessIrreflexive(s[0]);
    }
    assert s == [s[0]] + s[1..];
  }

  /** The sidebar of a blog list: 'All' followed by the distinct non-empty names, sorted. */
  function Sidebar(names: seq<string>): (r: seq<string>)
    ensures |r| >= 1 && r[0] == "All"
    ensures StrictlySorted(r[1..])
    ensures forall y :: y in r[1..] <==> y in names && y != ""
  {
    ["All"] + SortDistinct(Distinct(Filter(names, (n: string) => n != "")))
  }

  /** The first element of `s` that satisfies `matches`: a `findUnique`/`findFirst` lookup. */
  function Find<T(!new)>(s: seq<T>, matches: T -> bool): (r: Option<T>)
    ensures r.Some? <==> exists x :: x in s && matches(x)
    ensures r.Some? ==> r.value in s && matches(r.value)
    decreases |s|
  {
    if s == [] then None
    else if matches(s[0]) then Some(s[0])
    else Find(s[1..], matches)
  }

  /** When `x` is the only element of `s` that satisfies `matches`, the lookup finds `x`. */
  lemma FindOnly<T(!new)>(s: seq<T>, matches: T -> bool, x: T)
    requires x in s && matches(x)
    requires forall y :: y in s && matches(y) ==> y == x
    ensures Find(s, matches) == Some(x)
  {
  }

  /** No two elements of `s` share a `key`: a unique column of a table. */
  predicate UniqueBy<T, K(==)>(s: seq<T>, key: T -> K) {
    forall i, j :: 0 <= i < j < |s| ==> key(s[i]) != key(s[j])
  }

  /** A lookup in a table with one row appended finds what it found before, or else the new row. */
  lemma {:induction false} FindAppend<T(!new)>(s: seq<T>, x: T, matches: T -> bool)
    ensures Find(s + [x], matches) ==
      if Find(s, matches).Some? then Find(s, matches) else if matches(x) then Some(x) else None
    decreases |s|
  {
    if s != [] {
      assert (s + [x])[0] == s[0];
      assert (s + [x])[1..] == s[1..] + [x];
      FindAppend(s[1..], x, matches);
    }
  }

  /** Removing rows keeps a column unique. */
  lemma {:induction false} FilterUnique<T(!new), K>(s: seq<T>, keep: T -> bool, key: T -> K)
    requires UniqueBy(s, key)
    ensures UniqueBy(Filter(s, keep), key)
    decreases |s|
  {
    if s != [] {
      var rest := Filter(s[1..], keep);
      FilterUnique(s[1..], keep, key);
      if keep(s[0]) {
        forall y | y in rest ensures key(s[0]) != key(y) {
          var j :| 0 <= j < |s[1..]| && s[1..][j] == y;
          assert s[j + 1] == y;
        }
        var r := [s[0]] + rest;
        forall i, j | 0 <= i < j < |r| ensures key(r[i]) != key(r[j]) {
          assert r[j] == rest[j - 1];
          if i > 0 { assert r[i] == rest[i - 1]; }
        }
      }
    }
  }

  /** Appending a row whose key no row has keeps a column unique. */
  lemma AppendUnique<T, K>(s: seq<T>, x: T, key: T -> K)
    requires UniqueBy(s, key)
    requires forall y :: y in s ==> key(y) != key(x)
    ensures UniqueBy(s + [x], key)
  {
    var r := s + [x];
    forall i, j | 0 <= i < j < |r| ensures key(r[i]) != key(r[j]) {
      assert r[i] == s[i];
      if j < |s| { assert r[j] == s[j]; }
    }
  }

  /** Filtering a list with one element appended filters the list, then keeps or drops the element. */
  lemma {:induction false} FilterAppend<T(!new)>(s: seq<T>, x: T, keep: T -> bool)
    ensures Filter(s + [x], keep) == Filter(s, keep) + if keep(x) then [x] else []
    decreases |s|
  {
    if s != [] {
      assert (s + [x])[1..] == s[1..] + [x];
      FilterAppend(s[1..], x, keep);
    }
  }

  /** A filter that nothing passes gives the empty list. */
  lemma FilterNothing<T(!new)>(s: seq<T>, keep: T -> bool)
    requires forall x :: x in s ==> !keep(x)
    ensures Filter(s, keep) == []
  {
    if Filter(s, keep) != [] {
      assert Filter(s, keep)[0] in Filter(s, keep);
    }
  }

  /** Two filters that agree on every element of `s` keep the same elements. */
  lemma {:induction false} FilterSame<T(!new)>(s: seq<T>, keep: T -> bool, keep2: T -> bool)
    requires forall x :: x in s ==> keep(x) == keep2(x)
    ensures Filter(s, keep) == Filter(s, keep2)
    decreases |s|
  {
    if s != [] {
      assert forall x :: x in s[1..] ==> x in s;
      FilterSame(s[1..], keep, keep2);
    }
  }

  /** `lists.flat()`: the lists one after another. */
  function Flatten<T(!new)>(lists: seq<seq<T>>): (r: seq<T>)
    ensures forall x :: x in r <==> exists k :: 0 <= k < |lists| && x in lists[k]
    decreases |lists|
  {
    if lists == [] then []
    else
      var rest := Flatten(lists[1..]);
      assert forall k :: 1 <= k < |lists| ==> lists[k] == lists[1..][k - 1];
      assert forall x :: x in rest ==> exists k :: 0 <= k < |lists| && x in lists[k] by {
        forall x | x in rest ensures exists k :: 0 <= k < |lists| && x in lists[k] {
          var k :| 0 <= k < |lists[1..]| && x in lists[1..][k];
          assert x in lists[k + 1];
        }
      }
      lists[0] + rest
  }
}
