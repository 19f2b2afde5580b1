/**
 * `UserWorkload#hours_per_user_issue_and_day` of the current engine: the
 * issues grouped by assignee, a group replaced by its dummy user, and each
 * assignee's issues folded into its entry.
 */
module UserWorkload {
  import opened Wrappers
  import opened Dates
  import opened Calendar
  import opened DayCache
  import opened Issues
  import opened Allocation
  import opened Summaries
  import opened Grouping
  import opened WlDateTools
  import SummaryLemmas

  /** The key of an entry: a user, or the dummy user `WlGroupUserDummy.new(group:)` standing for a group. */
  datatype Owner = UserOwner(user: UserRec) | DummyOwner(group: GroupRec)

  function OwnerOf(p: Principal): (o: Owner)
    ensures p.User? <==> o.UserOwner?
    ensures p.User? ==> o == UserOwner(p.user)
    ensures p.Group? ==> o == DummyOwner(p.group)
  {
    match p
    case User(u) => UserOwner(u)
    case Group(g) => DummyOwner(g)
  }

  /** Different assignees get different entries. */
  lemma OwnerOfInjective(p: Principal, q: Principal)
    requires OwnerOf(p) == OwnerOf(q)
    ensures p == q
  {
  }

  function KeyOf(p: Principal): AssigneeKey {
    CalendarKeyOf(Some(p))
  }

  type ByUserMap = map<Owner, AssigneeSummary>

  /**
   * The groups of `group_by` handled in order: `nil.id` raises for the
   * issues of nobody, otherwise the assignee's entry is its issues folded.
   */
  function ByGroups(inp: Input, issues: seq<Issue>, groups: seq<Option<Principal>>): (r: Result<ByUserMap>)
    ensures r.Failure? ==> r.error == NoMethodError
    ensures None in groups ==> r.Failure?
    decreases |groups|
  {
    if groups == [] then Success(map[])
    else
      SplitLast(groups);
      match ByGroups(inp, issues, groups[..|groups| - 1])
      case Failure(e) => Failure(e)
      case Success(m) =>
        var a := groups[|groups| - 1];
        if a.None? then Failure(NoMethodError)
        else
          match AssigneeFold(inp, KeyOf(a.value), IssuesOf(issues, a))
          case Failure(e) => Failure(e)
          case Success(entry) => Success(m[OwnerOf(a.value) := entry])
  }

  /**
   * The hash `hours_per_user_issue_and_day` returns, or the exception it
   * raises: always a NoMethodError, and raised whenever an issue has no
   * assignee (`nil.id`).
   */
  function ByUser(inp: Input, issues: seq<Issue>): (r: Result<ByUserMap>)
    ensures r.Failure? ==> r.error == NoMethodError
    ensures (exists x :: x in issues && x.assignedTo.None?) ==> r.Failure?
  {
    AssigneesAreDistinct(issues);
    ByGroups(inp, issues, Assignees(issues))
  }

  // ---------------------------------------------------------------------
  // What the result holds

  lemma {:induction false} ByGroupsEntries(inp: Input, issues: seq<Issue>, groups: seq<Option<Principal>>)
    requires ByGroups(inp, issues, groups).Success?
    ensures forall a :: a in groups ==> a.Some?
    ensures ByGroups(inp, issues, groups).value.Keys == set a | a in groups && a.Some? :: OwnerOf(a.value)
    ensures forall a :: a in groups && a.Some? ==>
              AssigneeFold(inp, KeyOf(a.value), IssuesOf(issues, a)) == Success(ByGroups(inp, issues, groups).value[OwnerOf(a.value)])
    decreases |groups|
  {
    if groups != [] {
      var init := groups[..|groups| - 1];
      var a := groups[|groups| - 1];
      SplitLast(groups);
      ByGroupsEntries(inp, issues, init);
      var m := ByGroups(inp, issues, init).value;
      var r := ByGroups(inp, issues, groups).value;
      assert r == m[OwnerOf(a.value) := AssigneeFold(inp, KeyOf(a.value), IssuesOf(issues, a)).value];
      forall b | b in groups && b.Some?
        ensures AssigneeFold(inp, KeyOf(b.value), IssuesOf(issues, b)) == Success(r[OwnerOf(b.value)])
      {
        if b != a {
          assert b in init;
          if OwnerOf(b.value) == OwnerOf(a.value) {
            OwnerOfInjective(b.value, a.value);
          }
        }
      }
    }
  }

  /**
   * A result holds one entry per assignee of the issues, and the entry of
   * each is the fold of that assignee's issues, in their order, into the
   * zero-filled initial entry.
   */
  lemma ByUserEntries(inp: Input, issues: seq<Issue>)
    requires ByUser(inp, issues).Success?
    ensures forall x :: x in issues ==> x.assignedTo.Some?
    ensures ByUser(inp, issues).value.Keys == set x | x in issues :: OwnerOf(x.assignedTo.value)
    ensures forall x :: x in issues ==>
              AssigneeFold(inp, KeyOf(x.assignedTo.value), IssuesOf(issues, x.assignedTo))
                 == Success(ByUser(inp, issues).value[OwnerOf(x.assignedTo.value)])
  {
    AssigneesAreDistinct(issues);
    var g := Assignees(issues);
    ByGroupsEntries(inp, issues, g);
    var r := ByGroups(inp, issues, g).value;
    assert ByUser(inp, issues).value == r;
    forall x | x in issues
      ensures x.assignedTo.Some?
      ensures AssigneeFold(inp, KeyOf(x.assignedTo.value), IssuesOf(issues, x.assignedTo)) == Success(r[OwnerOf(x.assignedTo.value)])
    {
      assert x.assignedTo in g;
    }
    OwnersOfAssignees(issues);
  }

  /** Once every issue is assigned, the owners of the assignees are the owners of the issues. */
  lemma OwnersOfAssignees(issues: seq<Issue>)
    requires forall x :: x in issues ==> x.assignedTo.Some?
    ensures (set a | a in Assignees(issues) && a.Some? :: OwnerOf(a.value)) == set x | x in issues :: OwnerOf(x.assignedTo.value)
  {
    AssigneesAreDistinct(issues);
    var lhs := set a | a in Assignees(issues) && a.Some? :: OwnerOf(a.value);
    var rhs := set x | x in issues :: OwnerOf(x.assignedTo.value);
    forall o | o in lhs ensures o in rhs {
      var a :| a in Assignees(issues) && a.Some? && o == OwnerOf(a.value);
      var x :| x in issues && x.assignedTo == a;
    }
    forall o | o in rhs ensures o in lhs {
      var x :| x in issues && o == OwnerOf(x.assignedTo.value);
      assert x.assignedTo in Assignees(issues);
    }
  }

  /** One more group of the loop: `nil.id` raises for nobody, otherwise the fold of the assignee's issues is stored or its exception raised. */
  lemma ByGroupsNext(inp: Input, issues: seq<Issue>, groups: seq<Option<Principal>>, i: nat, result: ByUserMap)
    requires i < |groups| && ByGroups(inp, issues, groups[..i]) == Success(result)
    ensures groups[i].None? ==> ByGroups(inp, issues, groups[..i + 1]) == Failure(NoMethodError)
    ensures groups[i].Some? ==>
              ByGroups(inp, issues, groups[..i + 1])
                 == match AssigneeFold(inp, KeyOf(groups[i].value), IssuesOf(issues, groups[i]))
                    case Failure(e) => Failure(e)
                    case Success(entry) => Success(result[OwnerOf(groups[i].value) := entry])
  {
    assert groups[..i + 1][..i] == groups[..i];
  }

  lemma {:induction false} ByGroupsSucceeds(inp: Input, issues: seq<Issue>, groups: seq<Option<Principal>>)
    requires inp.span.Contains(inp.today)
    requires None !in groups
    ensures ByGroups(inp, issues, groups).Success?
    decreases |groups|
  {
    if groups != [] {
      var init := groups[..|groups| - 1];
      var a := groups[|groups| - 1];
      SplitLast(groups);
      ByGroupsSucceeds(inp, issues, init);
      SummaryLemmas.AssigneeFoldSucceeds(inp, KeyOf(a.value), IssuesOf(issues, a));
    }
  }

  /** With today inside the range and every issue assigned, the result is always built. */
  lemma ByUserSucceeds(inp: Input, issues: seq<Issue>)
    requires inp.span.Contains(inp.today)
    requires forall x :: x in issues ==> x.assignedTo.Some?
    ensures ByUser(inp, issues).Success?
  {
    AssigneesAreDistinct(issues);
    ByGroupsSucceeds(inp, issues, Assignees(issues));
  }

  lemma {:induction false} ByGroupsFailurePersists(inp: Input, issues: seq<Issue>, groups: seq<Option<Principal>>, j: nat)
    requires j <= |groups|
    requires ByGroups(inp, issues, groups[..j]).Failure?
    ensures ByGroups(inp, issues, groups) == ByGroups(inp, issues, groups[..j])
    decreases |groups|
  {
    if j < |groups| {
      var init := groups[..|groups| - 1];
      assert init[..j] == groups[..j];
      ByGroupsFailurePersists(inp, issues, init, j);
    } else {
      assert groups[..j] == groups;
    }
  }

  // ---------------------------------------------------------------------
  // The loops

  /** One turn of the issue loop: the fold over one more issue. */
  method FoldOne(inp: Input, cache: WorkingDayCache, key: AssigneeKey, workingDays: set<Date>, fwd: Date,
                 start: AssigneeSummary, issues: seq<Issue>, j: nat, entry: AssigneeSummary)
    returns (step: Result<AssigneeSummary>)
    requires cache.Consistent(inp.rule, inp.cal)
    requires j < |issues|
    requires workingDays == KeyWorking(inp, key)
    requires FoldFrom(inp, key, fwd, start, issues[..j]) == Success(entry)
    modifies cache
    ensures cache.Consistent(inp.rule, inp.cal)
    ensures step == FoldFrom(inp, key, fwd, start, issues[..j + 1])
    ensures step.Failure? ==> step == FoldFrom(inp, key, fwd, start, issues)
  {
    SummaryLemmas.FoldNext(inp, key, fwd, start, issues, j, entry);
    step := AddIssue(inp, cache, key, workingDays, fwd, entry, issues[j]);
  }

  /** The issue loop of one assignee. */
  method FoldIssues(inp: Input, cache: WorkingDayCache, key: AssigneeKey, workingDays: set<Date>, fwd: Date,
                    start: AssigneeSummary, issues: seq<Issue>)
    returns (r: Result<AssigneeSummary>)
    requires cache.Consistent(inp.rule, inp.cal)
    requires workingDays == KeyWorking(inp, key)
    modifies cache
    ensures cache.Consistent(inp.rule, inp.cal)
    ensures r == FoldFrom(inp, key, fwd, start, issues)
  {
    var entry := start;
    var j := 0;
    while j < |issues|
      invariant 0 <= j <= |issues|
      invariant cache.Consistent(inp.rule, inp.cal)
      invariant FoldFrom(inp, key, fwd, start, issues[..j]) == Success(entry)
    {
      var step := FoldOne(inp, cache, key, workingDays, fwd, start, issues, j, entry);
      if step.Failure? {
        return step;
      }
      entry := step.value;
      j := j + 1;
    }
    assert issues[..j] == issues;
    r := Success(entry);
  }

  /**
   * The body of the `group_by` loop for one assignee: its working days and
   * first working day from today, the zero-filled entry, then its issues
   * one by one.
   */
  method BuildEntry(inp: Input, cache: WorkingDayCache, key: AssigneeKey, issues: seq<Issue>)
    returns (r: Result<AssigneeSummary>)
    requires cache.Consistent(inp.rule, inp.cal)
    modifies cache
    ensures cache.Consistent(inp.rule, inp.cal)
    ensures r == AssigneeFold(inp, key, issues)
  {
    var workingDays := FetchWorkingDays(inp.rule, cache, inp.cal, inp.span, key);
    var fwd := FirstWorkingDayOnOrAfter(inp.rule, inp.cal, key, inp.span, inp.today, workingDays);
    var total := ZeroFill(inp.span, workingDays);
    r := FoldIssues(inp, cache, key, workingDays, fwd, AssigneeSummary(0.0, 0, total, map[], map[]), issues);
  }

  /** `hours_per_user_issue_and_day`: the issues grouped by assignee, then one entry per group. */
  method HoursPerUserIssueAndDay(inp: Input, cache: WorkingDayCache, issues: seq<Issue>) returns (r: Result<ByUserMap>)
    requires inp.rule == WlRule
    requires cache.Consistent(inp.rule, inp.cal)
    modifies cache
    ensures cache.Consistent(inp.rule, inp.cal)
    ensures r == ByUser(inp, issues)
  {
    var groups, byAssignee := GroupBy(issues);
    var result: ByUserMap := map[];
    var i := 0;
    while i < |groups|
      invariant 0 <= i <= |groups|
      invariant cache.Consistent(inp.rule, inp.cal)
      invariant ByGroups(inp, issues, groups[..i]) == Success(result)
    {
      var a := groups[i];
      ByGroupsNext(inp, issues, groups, i, result);
      if a.None? {
        ByGroupsFailurePersists(inp, issues, groups, i + 1);
        return Failure(NoMethodError);
      }
      assert a in byAssignee;
      var entry := BuildEntry(inp, cache, KeyOf(a.value), byAssignee[a]);
      if entry.Failure? {
        ByGroupsFailurePersists(inp, issues, groups, i + 1);
        return Failure(entry.error);
      }
      result := result[OwnerOf(a.value) := entry.value];
      i := i + 1;
    }
    assert groups[..i] == groups;
    r := Success(result);
  }
}
