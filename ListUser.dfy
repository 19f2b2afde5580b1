/**
 * `RedmineWorkload::ListUser#hours_per_user_issue_and_day`: the same
 * entries as the current engine, built by one loop over the issues that
 * creates an assignee's entry the first time one of its issues comes by.
 * This revision asks `DateTools` for the calendar and keeps groups as
 * they are.
 */
module ListUser {
  import opened Wrappers
  import opened Dates
  import opened Calendar
  import opened DayCache
  import opened Issues
  import opened Allocation
  import opened Summaries
  import opened Grouping
  import opened DateTools
  import UserWorkload
  import SummaryLemmas

  type ListMap = map<Principal, AssigneeSummary>

  /** The entry an issue of assignee `p` starts from: the one already built, or the zero-filled initial one. */
  function EntryOf(inp: Input, m: ListMap, p: Principal): AssigneeSummary {
    if p in m then m[p] else InitialSummary(inp, CalendarKeyOf(Some(p)))
  }

  /** The body of the issue loop: `nil.id` raises for an issue of nobody; otherwise the issue goes into its assignee's entry. */
  function ListStep(inp: Input, m: ListMap, x: Issue): Result<ListMap>
  {
    if x.assignedTo.None? then Failure(NoMethodError)
    else
      var p := x.assignedTo.value;
      var key := CalendarKeyOf(Some(p));
      var fwd := FirstWorkingDayFromToday(inp.rule, inp.cal, key, inp.span, inp.today);
      match IssueStep(inp, key, fwd, EntryOf(inp, m, p), x)
      case Failure(e) => Failure(e)
      case Success(entry) => Success(m[p := entry])
  }

  /** The issue loop, issue by issue. */
  function ListFold(inp: Input, issues: seq<Issue>): (r: Result<ListMap>)
    ensures r.Failure? ==> r.error == NoMethodError
    ensures (exists x :: x in issues && x.assignedTo.None?) ==> r.Failure?
  {
    if issues == [] then Success(map[])
    else
      var x := issues[|issues| - 1];
      SplitLast(issues);
      match ListFold(inp, issues[..|issues| - 1])
      case Failure(e) => Failure(e)
      case Success(m) => ListStep(inp, m, x)
  }

  lemma ListStepSuccess(inp: Input, m: ListMap, x: Issue)
    requires ListStep(inp, m, x).Success?
    ensures x.assignedTo.Some?
    ensures var p := x.assignedTo.value;
            var key := CalendarKeyOf(Some(p));
            && IssueStep(inp, key, FirstWorkingDayFromToday(inp.rule, inp.cal, key, inp.span, inp.today), EntryOf(inp, m, p), x)
               == Success(ListStep(inp, m, x).value[p])
            && ListStep(inp, m, x).value == m[p := ListStep(inp, m, x).value[p]]
  {
  }

  /** Every issue of a successful loop has an assignee, and there is one entry per assignee. */
  lemma {:induction false} ListFoldKeys(inp: Input, issues: seq<Issue>)
    requires ListFold(inp, issues).Success?
    ensures forall x :: x in issues ==> x.assignedTo.Some?
    ensures ListFold(inp, issues).value.Keys == set x | x in issues :: x.assignedTo.value
    decreases |issues|
  {
    if issues != [] {
      var prefix := issues[..|issues| - 1];
      var x := issues[|issues| - 1];
      SplitLast(issues);
      assert x in issues;
      assert ListFold(inp, prefix).Success?;
      ListFoldKeys(inp, prefix);
      var m := ListFold(inp, prefix).value;
      var r := ListFold(inp, issues).value;
      assert ListStep(inp, m, x) == Success(r);
      ListStepSuccess(inp, m, x);
      var p := x.assignedTo.value;
      assert r.Keys == m.Keys + {p};
      OwnersSnoc(prefix, x);
    }
  }

  /** The assignees of a list that grows by one assigned issue grow by its assignee. */
  lemma OwnersSnoc(prefix: seq<Issue>, x: Issue)
    requires forall y :: y in prefix ==> y.assignedTo.Some?
    requires x.assignedTo.Some?
    ensures (set y | y in prefix + [x] :: y.assignedTo.value) == (set y | y in prefix :: y.assignedTo.value) + {x.assignedTo.value}
  {
  }

  /**
   * The per-issue loop builds what grouping first would: the entry of each
   * assignee is the fold of that assignee's issues in their order.
   */
  lemma {:induction false} ListFoldEntry(inp: Input, issues: seq<Issue>, q: Principal)
    requires ListFold(inp, issues).Success?
    requires q in ListFold(inp, issues).value
    ensures AssigneeFold(inp, CalendarKeyOf(Some(q)), IssuesOf(issues, Some(q))) == Success(ListFold(inp, issues).value[q])
    decreases |issues|
  {
    var prefix := issues[..|issues| - 1];
    var x := issues[|issues| - 1];
    SplitLast(issues);
    assert x in issues;
    assert ListFold(inp, prefix).Success?;
    var m := ListFold(inp, prefix).value;
    var r := ListFold(inp, issues).value;
    assert ListStep(inp, m, x) == Success(r);
    ListStepSuccess(inp, m, x);
    var p := x.assignedTo.value;
    if q == p {
      var key := CalendarKeyOf(Some(p));
      var fwd := FirstWorkingDayFromToday(inp.rule, inp.cal, key, inp.span, inp.today);
      var group := IssuesOf(prefix, Some(p));
      assert IssuesOf(issues, Some(p)) == group + [x];
      if p in m {
        ListFoldEntry(inp, prefix, p);
      } else {
        ListFoldKeys(inp, prefix);
        NoIssuesOf(prefix, Some(p));
      }
      assert FoldFrom(inp, key, fwd, InitialSummary(inp, key), group) == Success(EntryOf(inp, m, p));
      ListStepFold(inp, key, fwd, group, x);
    } else {
      assert IssuesOf(issues, Some(q)) == IssuesOf(prefix, Some(q));
      ListFoldEntry(inp, prefix, q);
    }
  }

  /** The fold of a group one issue longer is one more step on the fold of the group. */
  lemma ListStepFold(inp: Input, key: AssigneeKey, fwd: Date, group: seq<Issue>, x: Issue)
    ensures FoldFrom(inp, key, fwd, InitialSummary(inp, key), group).Failure? ==>
              FoldFrom(inp, key, fwd, InitialSummary(inp, key), group + [x]) == FoldFrom(inp, key, fwd, InitialSummary(inp, key), group)
    ensures FoldFrom(inp, key, fwd, InitialSummary(inp, key), group).Success? ==>
              FoldFrom(inp, key, fwd, InitialSummary(inp, key), group + [x])
              == IssueStep(inp, key, fwd, FoldFrom(inp, key, fwd, InitialSummary(inp, key), group).value, x)
  {
    assert (group + [x])[..|group|] == group;
    assert x in group + [x];
  }

  /** Both revisions build the same entries: the entry of a group's dummy is the entry of the group. */
  lemma SameAsGrouped(inp: Input, issues: seq<Issue>, x: Issue)
    requires ListFold(inp, issues).Success? && UserWorkload.ByUser(inp, issues).Success?
    requires x in issues
    ensures x.assignedTo.Some?
    ensures x.assignedTo.value in ListFold(inp, issues).value
    ensures UserWorkload.OwnerOf(x.assignedTo.value) in UserWorkload.ByUser(inp, issues).value
    ensures UserWorkload.ByUser(inp, issues).value[UserWorkload.OwnerOf(x.assignedTo.value)]
         == ListFold(inp, issues).value[x.assignedTo.value]
  {
    ListFoldKeys(inp, issues);
    ListFoldEntry(inp, issues, x.assignedTo.value);
    UserWorkload.ByUserEntries(inp, issues);
  }

  lemma {:induction false} ListFoldFailurePersists(inp: Input, issues: seq<Issue>, j: nat)
    requires j <= |issues|
    requires ListFold(inp, issues[..j]).Failure?
    ensures ListFold(inp, issues) == ListFold(inp, issues[..j])
    decreases |issues|
  {
    if j < |issues| {
      var prefix := issues[..|issues| - 1];
      assert prefix[..j] == issues[..j];
      assert issues[|issues| - 1] in issues;
      ListFoldFailurePersists(inp, prefix, j);
    } else {
      assert issues[..j] == issues;
    }
  }

  lemma ListFoldStep(inp: Input, issues: seq<Issue>, j: nat)
    requires j < |issues|
    ensures issues[..j + 1][..j] == issues[..j] && issues[..j + 1][j] == issues[j]
  {
    assert issues[j] in issues;
  }

  /** `hours_for_issue_per_day` of this revision: the allocator on the calendar of `DateTools`. */
  method HoursForIssuePerDay(cache: WorkingDayCache, cal: CalendarData, issue: Issue, span: Span, today: Date)
    returns (result: IssueHours)
    requires cache.Consistent(DtRule, cal)
    modifies cache
    ensures cache.Consistent(DtRule, cal)
    ensures result == Allocate(DtRule, cal, issue, span, today)
  {
    result := Allocation.HoursForIssuePerDay(DtRule, cache, cal, issue, span, today);
  }

  /** The body of the issue loop: the assignee's working days and first working day, its entry created on first use, then the issue added. */
  method AddListIssue(inp: Input, cache: WorkingDayCache, result: ListMap, x: Issue) returns (r: Result<ListMap>)
    requires cache.Consistent(inp.rule, inp.cal)
    modifies cache
    ensures cache.Consistent(inp.rule, inp.cal)
    ensures r == ListStep(inp, result, x)
  {
    if x.assignedTo.None? {
      return Failure(NoMethodError);
    }
    var p := x.assignedTo.value;
    var key := CalendarKeyOf(Some(p));
    var workingDays := FetchWorkingDays(inp.rule, cache, inp.cal, inp.span, key);
    var fwd := FirstWorkingDayOnOrAfter(inp.rule, inp.cal, key, inp.span, inp.today, workingDays);
    var entries := result;
    if p !in entries {
      var total := ZeroFill(inp.span, workingDays);
      entries := entries[p := AssigneeSummary(0.0, 0, total, map[], map[])];
    }
    assert entries[p] == EntryOf(inp, result, p);
    var step := AddIssue(inp, cache, key, workingDays, fwd, entries[p], x);
    if step.Failure? {
      return Failure(step.error);
    }
    r := Success(result[p := step.value]);
  }

  /** `hours_per_user_issue_and_day` of this revision: one pass over the issues. */
  method HoursPerUserIssueAndDay(inp: Input, cache: WorkingDayCache, issues: seq<Issue>) returns (r: Result<ListMap>)
    requires inp.rule == DtRule
    requires cache.Consistent(inp.rule, inp.cal)
    modifies cache
    ensures cache.Consistent(inp.rule, inp.cal)
    ensures r == ListFold(inp, issues)
  {
    var result: ListMap := map[];
    var i := 0;
    while i < |issues|
      invariant 0 <= i <= |issues|
      invariant cache.Consistent(inp.rule, inp.cal)
      invariant ListFold(inp, issues[..i]) == Success(result)
    {
      ListFoldStep(inp, issues, i);
      var step := AddListIssue(inp, cache, result, issues[i]);
      assert ListFold(inp, issues[..i + 1]) == step;
      if step.Failure? {
        ListFoldFailurePersists(inp, issues, i + 1);
        return step;
      }
      result := step.value;
      i := i + 1;
    }
    assert issues[..i] == issues;
    r := Success(result);
  }
}
