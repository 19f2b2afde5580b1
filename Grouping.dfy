/**
 * Ruby's `issues.group_by(&:assigned_to)`: the distinct assignees in the
 * order they first appear, each with its issues in their original order.
 */
module Grouping {
  import opened Wrappers
  import opened Issues

  /** The distinct assignees of a list of issues, in order of first appearance. */
  function Assignees(issues: seq<Issue>): seq<Option<Principal>> {
    if issues == [] then []
    else
      var prefix := Assignees(issues[..|issues| - 1]);
      var a := issues[|issues| - 1].assignedTo;
      if a in prefix then prefix else prefix + [a]
  }

  /** The issues of one assignee, in order. */
  function IssuesOf(issues: seq<Issue>, a: Option<Principal>): (r: seq<Issue>)
    ensures forall x :: x in r ==> x in issues && x.assignedTo == a
  {
    if issues == [] then []
    else
      var prefix := IssuesOf(issues[..|issues| - 1], a);
      var x := issues[|issues| - 1];
      if x.assignedTo == a then prefix + [x] else prefix
  }

  /** The assignees are exactly those of the issues, each listed once. */
  lemma {:induction false} AssigneesAreDistinct(issues: seq<Issue>)
    ensures forall a :: a in Assignees(issues) <==> exists x :: x in issues && x.assignedTo == a
    ensures forall i, j :: 0 <= i < j < |Assignees(issues)| ==> Assignees(issues)[i] != Assignees(issues)[j]
    decreases |issues|
  {
    if issues != [] {
      var prefix := issues[..|issues| - 1];
      var last := issues[|issues| - 1];
      AssigneesAreDistinct(prefix);
      assert issues == prefix + [last];
    }
  }

  /** Every issue is placed exactly once: in the group of its own assignee and in no other. */
  lemma {:induction false} PlacedOnce(issues: seq<Issue>, x: Issue, a: Option<Principal>)
    requires x in issues
    ensures x in IssuesOf(issues, a) <==> a == x.assignedTo
    decreases |issues|
  {
    var prefix := issues[..|issues| - 1];
    var last := issues[|issues| - 1];
    assert issues == prefix + [last];
    if x != last {
      PlacedOnce(prefix, x, a);
    }
  }

  /** An assignee that none of the issues has gets an empty group. */
  lemma {:induction false} NoIssuesOf(issues: seq<Issue>, a: Option<Principal>)
    requires forall x :: x in issues ==> x.assignedTo != a
    ensures IssuesOf(issues, a) == []
    decreases |issues|
  {
    if issues != [] {
      NoIssuesOf(issues[..|issues| - 1], a);
      assert issues[|issues| - 1] in issues;
    }
  }

  /** `group_by`: one pass over the issues, appending each to its assignee's group and listing a new assignee once. */
  method GroupBy(issues: seq<Issue>) returns (groups: seq<Option<Principal>>, byAssignee: map<Option<Principal>, seq<Issue>>)
    ensures groups == Assignees(issues)
    ensures byAssignee.Keys == set a | a in groups
    ensures forall a :: a in byAssignee ==> byAssignee[a] == IssuesOf(issues, a)
  {
    groups := [];
    byAssignee := map[];
    var i := 0;
    while i < |issues|
      invariant 0 <= i <= |issues|
      invariant groups == Assignees(issues[..i])
      invariant byAssignee.Keys == set a | a in groups
      invariant forall a :: a in byAssignee ==> byAssignee[a] == IssuesOf(issues[..i], a)
    {
      var x := issues[i];
      var a := x.assignedTo;
      assert issues[..i + 1][..i] == issues[..i] && issues[..i + 1][i] == x;
      if a in byAssignee {
        byAssignee := byAssignee[a := byAssignee[a] + [x]];
      } else {
        groups := groups + [a];
        byAssignee := byAssignee[a := [x]];
        assert IssuesOf(issues[..i], a) == [] by {
          AssigneesAreDistinct(issues[..i]);
          NoIssuesOf(issues[..i], a);
        }
      }
      i := i + 1;
    }
    assert issues[..i] == issues;
  }
}
