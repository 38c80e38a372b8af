/** The part of zod's validation the blog's schemas use: string checks that each add an issue,
    in the order they are declared, and the first issue of a field that a form displays. */
module Zod {
  import opened Wrappers

  /** A validation issue: the field it is attached to and its message. */
  datatype Issue = Issue(path: string, message: string)

  /** One check of a field: no issue when it holds, the check's message when it does not. */
  function Check(path: string, holds: bool, message: string): (r: seq<Issue>)
    ensures holds <==> r == []
    ensures !holds ==> r == [Issue(path, message)]
  {
    if holds then [] else [Issue(path, message)]
  }

  /** Some issue is attached to the field `path`. */
  predicate HasIssueAt(issues: seq<Issue>, path: string) {
    exists i :: 0 <= i < |issues| && issues[i].path == path
  }

  /** The message a form shows under the field `path`: that of its first issue. */
  function FirstMessage(issues: seq<Issue>, path: string): (m: Option<string>)
    ensures m.Some? <==> HasIssueAt(issues, path)
    ensures m.Some? ==> exists i :: 0 <= i < |issues| && issues[i] == Issue(path, m.value)
    decreases |issues|
  {
    if issues == [] then None
    else if issues[0].path == path then Some(issues[0].message)
    else
      var rest := FirstMessage(issues[1..], path);
      assert forall i :: 1 <= i < |issues| ==> issues[i] == issues[1..][i - 1];
      assert HasIssueAt(issues[1..], path) ==> HasIssueAt(issues, path) by {
        if HasIssueAt(issues[1..], path) {
          var i :| 0 <= i < |issues[1..]| && issues[1..][i].path == path;
          assert issues[i + 1].path == path;
        }
      }
      rest
  }

  /** A field none of whose issues come before `x` shows the message of `x`. */
  lemma {:induction false} FirstMessageAfter(before: seq<Issue>, x: Issue, after: seq<Issue>)
    requires forall y :: y in before ==> y.path != x.path
    ensures FirstMessage(before + [x] + after, x.path) == Some(x.message)
    decreases |before|
  {
    if before != [] {
      assert (before + [x] + after)[1..] == before[1..] + [x] + after;
      assert before[0] in before;
      FirstMessageAfter(before[1..], x, after);
    }
  }

  /** The issue at position `k` is the first about its field when none before it is. */
  lemma {:induction false} FirstMessageAt(issues: seq<Issue>, k: nat)
    requires k < |issues|
    requires forall j :: 0 <= j < k ==> issues[j].path != issues[k].path
    ensures FirstMessage(issues, issues[k].path) == Some(issues[k].message)
    decreases k
  {
    if k > 0 {
      assert issues[1..][k - 1] == issues[k];
      FirstMessageAt(issues[1..], k - 1);
    }
  }
}
