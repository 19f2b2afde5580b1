/**
 * What the per-assignee fold adds up: the overdue counters count and sum
 * the overdue issues, the total sums the hours of the others day by day
 * and keeps its holiday flags, the invisible summary sums the invisible
 * issues that are not overdue, every visible issue ends up in its project,
 * and the fold fails exactly when an overdue issue has no record for the
 * first working day.
 */
module SummaryLemmas {
  import opened Wrappers
  import opened Dates
  import opened Calendar
  import opened Issues
  import opened Allocation
  import opened Summaries
  import AllocationLemmas

  /** The hours an issue's map holds for a day; a missing day reads as no hours. */
  function HoursAt(inp: Input, issue: Issue, d: Date): real
  {
    var info := Allocate(inp.rule, inp.cal, issue, inp.span, inp.today);
    if d in info.days then info.days[d].hours else 0.0
  }

  function Overdue(inp: Input, issue: Issue): bool {
    IssueOverdue(issue, inp.userToday)
  }

  /** The number of overdue issues of a list. */
  function OverdueCount(inp: Input, issues: seq<Issue>): nat {
    if issues == [] then 0
    else OverdueCount(inp, issues[..|issues| - 1]) + (if Overdue(inp, issues[|issues| - 1]) then 1 else 0)
  }

  /** The hours the overdue issues of a list hold on day `fwd`. */
  function OverdueHours(inp: Input, fwd: Date, issues: seq<Issue>): real
  {
    if issues == [] then 0.0
    else
      var last := issues[|issues| - 1];
      assert last in issues;
      OverdueHours(inp, fwd, issues[..|issues| - 1]) + (if Overdue(inp, last) then HoursAt(inp, last, fwd) else 0.0)
  }

  /** The hours the issues of a list that are not overdue hold on day `d`. */
  function PlannedHours(inp: Input, issues: seq<Issue>, d: Date): real
  {
    if issues == [] then 0.0
    else
      var last := issues[|issues| - 1];
      assert last in issues;
      PlannedHours(inp, issues[..|issues| - 1], d) + (if Overdue(inp, last) then 0.0 else HoursAt(inp, last, d))
  }

  /** An issue that goes into the invisible summary. */
  predicate HiddenPlanned(inp: Input, issue: Issue) {
    !issue.visible && !Overdue(inp, issue)
  }

  /** Some issue of the list goes into the invisible summary. */
  predicate HasHidden(inp: Input, issues: seq<Issue>) {
    issues != [] && (HasHidden(inp, issues[..|issues| - 1]) || HiddenPlanned(inp, issues[|issues| - 1]))
  }

  lemma {:induction false} HasHiddenExists(inp: Input, issues: seq<Issue>)
    ensures HasHidden(inp, issues) <==> exists x :: x in issues && HiddenPlanned(inp, x)
    decreases |issues|
  {
    if issues != [] {
      var prefix := issues[..|issues| - 1];
      HasHiddenExists(inp, prefix);
      assert issues == prefix + [issues[|issues| - 1]];
    }
  }

  /** The hours the invisible issues of a list that are not overdue hold on day `d`. */
  function HiddenHours(inp: Input, issues: seq<Issue>, d: Date): real
  {
    if issues == [] then 0.0
    else
      var last := issues[|issues| - 1];
      assert last in issues;
      HiddenHours(inp, issues[..|issues| - 1], d) + (if HiddenPlanned(inp, last) then HoursAt(inp, last, d) else 0.0)
  }

  lemma {:induction false} NoHiddenNoHours(inp: Input, issues: seq<Issue>, d: Date)
    requires !HasHidden(inp, issues)
    ensures HiddenHours(inp, issues, d) == 0.0
    decreases |issues|
  {
    if issues != [] {
      assert issues[|issues| - 1] in issues;
      NoHiddenNoHours(inp, issues[..|issues| - 1], d);
    }
  }

  /** An overdue issue whose map has no record for `fwd`: the lookup `hours_for_issue[fwd][:hours]` raises. */
  predicate Unplaceable(inp: Input, fwd: Date, issue: Issue)
  {
    Overdue(inp, issue) && fwd !in Allocate(inp.rule, inp.cal, issue, inp.span, inp.today).days
  }

  // ---------------------------------------------------------------------
  // One summary update

  /**
   * `add_issue_info_to_summary` adds the issue's hours on every day of the
   * range, gives a missing day no hours and its calendar flag first, keeps
   * every holiday flag already there and leaves the other days alone.
   */
  lemma AddInfoDay(summary: Summary, info: map<Date, DayInfo>, span: Span, working: set<Date>, d: Date)
    requires span.Days() <= info.Keys
    ensures AddInfo(summary, info, span, working).Keys == summary.Keys + span.Days()
    ensures d in summary ==> AddInfo(summary, info, span, working)[d].holiday == summary[d].holiday
    ensures d in summary && span.Contains(d) ==>
              AddInfo(summary, info, span, working)[d].hours == summary[d].hours + info[d].hours
    ensures d !in summary && span.Contains(d) ==>
              AddInfo(summary, info, span, working)[d] == DaySum(info[d].hours, d !in working)
    ensures d in summary && !span.Contains(d) ==> AddInfo(summary, info, span, working)[d] == summary[d]
  {
    var r := AddInfo(summary, info, span, working);
    assert r.Keys == summary.Keys + span.Days();
    if span.Contains(d) {
      assert d in span.Days();
    }
  }

  /** What one issue changes in the invisible summary: only an invisible issue that is not overdue adds to it. */
  lemma StepInvisible(inp: Input, key: AssigneeKey, fwd: Date, acc: AssigneeSummary, issue: Issue)
    requires IssueStep(inp, key, fwd, acc, issue).Success?
    ensures inp.span.Days() <= Allocate(inp.rule, inp.cal, issue, inp.span, inp.today).days.Keys
    ensures IssueStep(inp, key, fwd, acc, issue).value.invisible
         == if HiddenPlanned(inp, issue)
            then AddInfo(acc.invisible, Allocate(inp.rule, inp.cal, issue, inp.span, inp.today).days, inp.span, AllWorking(inp))
            else acc.invisible
  {
    AllocationLemmas.AllocationCoversSpan(inp.rule, inp.cal, issue, inp.span, inp.today);
  }

  // ---------------------------------------------------------------------
  // The fold

  /** A fold that succeeds succeeded on every prefix, up to the last issue. */
  lemma FoldPrefix(inp: Input, key: AssigneeKey, fwd: Date, start: AssigneeSummary, issues: seq<Issue>)
    requires issues != []
    requires FoldFrom(inp, key, fwd, start, issues).Success?
    ensures FoldFrom(inp, key, fwd, start, issues[..|issues| - 1]).Success?
    ensures IssueStep(inp, key, fwd, FoldFrom(inp, key, fwd, start, issues[..|issues| - 1]).value, issues[|issues| - 1])
         == FoldFrom(inp, key, fwd, start, issues)
  {
    assert issues[|issues| - 1] in issues;
  }

  /** The fold over one more issue is one more step, and a failing step is the result of the whole fold. */
  lemma FoldNext(inp: Input, key: AssigneeKey, fwd: Date, start: AssigneeSummary, issues: seq<Issue>, j: nat,
                  entry: AssigneeSummary)
    requires j < |issues|
    requires FoldFrom(inp, key, fwd, start, issues[..j]) == Success(entry)
    ensures FoldFrom(inp, key, fwd, start, issues[..j + 1]) == IssueStep(inp, key, fwd, entry, issues[j])
    ensures IssueStep(inp, key, fwd, entry, issues[j]).Failure?
            ==> FoldFrom(inp, key, fwd, start, issues) == IssueStep(inp, key, fwd, entry, issues[j])
  {
    assert issues[..j + 1][..j] == issues[..j];
    assert issues[j] in issues;
    if IssueStep(inp, key, fwd, entry, issues[j]).Failure? {
      FoldFailurePersists(inp, key, fwd, start, issues, j + 1);
    }
  }

  /** Once the fold has failed on a prefix, the failure is its result. */
  lemma {:induction false} FoldFailurePersists(inp: Input, key: AssigneeKey, fwd: Date, start: AssigneeSummary, issues: seq<Issue>, j: nat)
    requires j <= |issues|
    requires FoldFrom(inp, key, fwd, start, issues[..j]).Failure?
    ensures FoldFrom(inp, key, fwd, start, issues) == FoldFrom(inp, key, fwd, start, issues[..j])
    decreases |issues|
  {
    if j < |issues| {
      var prefix := issues[..|issues| - 1];
      assert prefix[..j] == issues[..j];
      assert issues[|issues| - 1] in issues;
      FoldFailurePersists(inp, key, fwd, start, prefix, j);
    } else {
      assert issues[..j] == issues;
    }
  }

  /** `overdue_number` counts the overdue issues and `overdue_hours` sums what they hold on the first working day. */
  lemma {:induction false} FoldOverdue(inp: Input, key: AssigneeKey, fwd: Date, start: AssigneeSummary, issues: seq<Issue>)
    requires FoldFrom(inp, key, fwd, start, issues).Success?
    ensures FoldFrom(inp, key, fwd, start, issues).value.overdueNumber == start.overdueNumber + OverdueCount(inp, issues)
    ensures FoldFrom(inp, key, fwd, start, issues).value.overdueHours == start.overdueHours + OverdueHours(inp, fwd, issues)
    decreases |issues|
  {
    if issues != [] {
      FoldPrefix(inp, key, fwd, start, issues);
      FoldOverdue(inp, key, fwd, start, issues[..|issues| - 1]);
    }
  }

  /**
   * The total keeps its days and their holiday flags, gains the days of the
   * range, and on each day of the range grows by the hours of the issues
   * that are not overdue; overdue issues leave it untouched.
   */
  lemma {:induction false} FoldTotal(inp: Input, key: AssigneeKey, fwd: Date, start: AssigneeSummary, issues: seq<Issue>, d: Date)
    requires FoldFrom(inp, key, fwd, start, issues).Success?
    requires inp.span.Days() <= start.total.Keys
    ensures FoldFrom(inp, key, fwd, start, issues).value.total.Keys == start.total.Keys
    ensures d in start.total ==>
              FoldFrom(inp, key, fwd, start, issues).value.total[d].holiday == start.total[d].holiday
    ensures inp.span.Contains(d) ==>
              FoldFrom(inp, key, fwd, start, issues).value.total[d].hours == start.total[d].hours + PlannedHours(inp, issues, d)
    ensures d in start.total && !inp.span.Contains(d) ==>
              FoldFrom(inp, key, fwd, start, issues).value.total[d] == start.total[d]
    decreases |issues|
  {
    if issues != [] {
      var prefix := issues[..|issues| - 1];
      var last := issues[|issues| - 1];
      FoldPrefix(inp, key, fwd, start, issues);
      FoldTotal(inp, key, fwd, start, prefix, d);
      var acc := FoldFrom(inp, key, fwd, start, prefix).value;
      var info := Allocate(inp.rule, inp.cal, last, inp.span, inp.today);
      AllocationLemmas.AllocationCoversSpan(inp.rule, inp.cal, last, inp.span, inp.today);
      if !Overdue(inp, last) {
        AddInfoDay(acc.total, info.days, inp.span, AllWorking(inp), d);
        if inp.span.Contains(d) {
          assert d in inp.span.Days();
        }
      }
    }
  }

  /**
   * The invisible summary: on each day of the range it holds the hours of
   * the invisible issues that are not overdue, starting from what it held
   * (or from a fresh day flagged by the calendar of all users).  It gains a
   * day only through such an issue.
   */
  lemma {:induction false} FoldInvisibleKeys(inp: Input, key: AssigneeKey, fwd: Date, start: AssigneeSummary, issues: seq<Issue>)
    requires FoldFrom(inp, key, fwd, start, issues).Success?
    ensures FoldFrom(inp, key, fwd, start, issues).value.invisible.Keys
         == start.invisible.Keys + (if HasHidden(inp, issues) then inp.span.Days() else {})
    decreases |issues|
  {
    if issues != [] {
      var prefix := issues[..|issues| - 1];
      var last := issues[|issues| - 1];
      FoldPrefix(inp, key, fwd, start, issues);
      FoldInvisibleKeys(inp, key, fwd, start, prefix);
      var acc := FoldFrom(inp, key, fwd, start, prefix).value;
      StepInvisible(inp, key, fwd, acc, last);
    }
  }

  lemma {:induction false} FoldInvisible(inp: Input, key: AssigneeKey, fwd: Date, start: AssigneeSummary, issues: seq<Issue>, d: Date)
    requires FoldFrom(inp, key, fwd, start, issues).Success?
    requires inp.span.Contains(d)
    ensures d in FoldFrom(inp, key, fwd, start, issues).value.invisible ==>
              FoldFrom(inp, key, fwd, start, issues).value.invisible[d]
              == BaseDay(start.invisible, AllWorking(inp), d).(hours := BaseDay(start.invisible, AllWorking(inp), d).hours
                                                                      + HiddenHours(inp, issues, d))
    decreases |issues|
  {
    if issues != [] {
      var prefix := issues[..|issues| - 1];
      var last := issues[|issues| - 1];
      FoldPrefix(inp, key, fwd, start, issues);
      FoldInvisible(inp, key, fwd, start, prefix, d);
      FoldInvisibleKeys(inp, key, fwd, start, prefix);
      var acc := FoldFrom(inp, key, fwd, start, prefix).value;
      StepInvisible(inp, key, fwd, acc, last);
      assert HiddenHours(inp, issues, d)
          == HiddenHours(inp, prefix, d) + (if HiddenPlanned(inp, last) then HoursAt(inp, last, d) else 0.0);
      if HiddenPlanned(inp, last) {
        var info := Allocate(inp.rule, inp.cal, last, inp.span, inp.today).days;
        AddInfoDay(acc.invisible, info, inp.span, AllWorking(inp), d);
        assert d in inp.span.Days();
        assert HoursAt(inp, last, d) == info[d].hours;
        if d !in acc.invisible {
          assert d !in start.invisible && !HasHidden(inp, prefix);
          NoHiddenNoHours(inp, prefix, d);
        }
      }
    }
  }

  /** The fold fails exactly when one of the issues is overdue and has no record for the first working day. */
  lemma {:induction false} FoldFailure(inp: Input, key: AssigneeKey, fwd: Date, start: AssigneeSummary, issues: seq<Issue>)
    ensures FoldFrom(inp, key, fwd, start, issues).Failure?
        <==> exists i :: 0 <= i < |issues| && Unplaceable(inp, fwd, issues[i])
    ensures FoldFrom(inp, key, fwd, start, issues).Failure? ==> FoldFrom(inp, key, fwd, start, issues).error == NoMethodError
    decreases |issues|
  {
    if issues != [] {
      var prefix := issues[..|issues| - 1];
      var last := issues[|issues| - 1];
      assert last in issues;
      FoldFailure(inp, key, fwd, start, prefix);
      var bad := exists i :: 0 <= i < |issues| && Unplaceable(inp, fwd, issues[i]);
      assert bad <==> (exists i :: 0 <= i < |prefix| && Unplaceable(inp, fwd, prefix[i])) || Unplaceable(inp, fwd, last) by {
        if bad {
          var i :| 0 <= i < |issues| && Unplaceable(inp, fwd, issues[i]);
          if i < |prefix| { assert prefix[i] == issues[i]; }
        }
        if exists i :: 0 <= i < |prefix| && Unplaceable(inp, fwd, prefix[i]) {
          var i :| 0 <= i < |prefix| && Unplaceable(inp, fwd, prefix[i]);
          assert issues[i] == prefix[i];
        }
        assert issues[|issues| - 1] == last;
      }
    }
  }

  /** Every visible issue is stored under its project with its own map; the projects are exactly those of the visible issues, added to the ones the fold starts with. */
  lemma {:induction false} FoldProjects(inp: Input, key: AssigneeKey, fwd: Date, start: AssigneeSummary, issues: seq<Issue>)
    requires FoldFrom(inp, key, fwd, start, issues).Success?
    ensures FoldFrom(inp, key, fwd, start, issues).value.projects.Keys
         == start.projects.Keys + (set x | x in issues && x.visible :: x.projectId)
    ensures forall x :: x in issues && x.visible ==>
              && x.projectId in FoldFrom(inp, key, fwd, start, issues).value.projects
              && x in FoldFrom(inp, key, fwd, start, issues).value.projects[x.projectId].issues
              && FoldFrom(inp, key, fwd, start, issues).value.projects[x.projectId].issues[x]
                 == Allocate(inp.rule, inp.cal, x, inp.span, inp.today)
    decreases |issues|
  {
    if issues != [] {
      var prefix := issues[..|issues| - 1];
      var last := issues[|issues| - 1];
      FoldPrefix(inp, key, fwd, start, issues);
      FoldProjects(inp, key, fwd, start, prefix);
      var acc := FoldFrom(inp, key, fwd, start, prefix).value;
      var r := FoldFrom(inp, key, fwd, start, issues).value;
      StepProjects(inp, key, fwd, acc, last);
      SplitLast(issues);
      VisibleProjectsSnoc(prefix, last);
      forall x | x in issues && x.visible
        ensures x.projectId in r.projects && x in r.projects[x.projectId].issues
        ensures r.projects[x.projectId].issues[x] == Allocate(inp.rule, inp.cal, x, inp.span, inp.today)
      {
        if x != last {
          assert x in prefix;
        }
      }
    }
  }

  /** One step keeps every project bucket's issues and, for a visible issue, puts its map in its project. */
  lemma StepProjects(inp: Input, key: AssigneeKey, fwd: Date, acc: AssigneeSummary, x: Issue)
    requires IssueStep(inp, key, fwd, acc, x).Success?
    ensures var r := IssueStep(inp, key, fwd, acc, x).value;
            && r.projects.Keys == acc.projects.Keys + (if x.visible then {x.projectId} else {})
            && (forall p, y :: p in acc.projects && y in acc.projects[p].issues && y != x ==>
                  y in r.projects[p].issues && r.projects[p].issues[y] == acc.projects[p].issues[y])
            && (x.visible ==> x in r.projects[x.projectId].issues
                              && r.projects[x.projectId].issues[x] == Allocate(inp.rule, inp.cal, x, inp.span, inp.today))
  {
  }

  /** The projects of the visible issues of a list that grows by one issue. */
  lemma VisibleProjectsSnoc(prefix: seq<Issue>, x: Issue)
    ensures (set y | y in prefix + [x] && y.visible :: y.projectId)
         == (set y | y in prefix && y.visible :: y.projectId) + (if x.visible then {x.projectId} else {})
  {
  }

  // ---------------------------------------------------------------------
  // The entry of an assignee

  /**
   * The entry of an assignee counts and sums its overdue issues, holds a
   * total over exactly the days of the range flagged holiday where the
   * assignee does not work, with the hours of its issues that are not
   * overdue.
   */
  lemma AssigneeEntry(inp: Input, key: AssigneeKey, issues: seq<Issue>, d: Date)
    requires AssigneeFold(inp, key, issues).Success?
    ensures AssigneeFold(inp, key, issues).value.overdueNumber == OverdueCount(inp, issues)
    ensures AssigneeFold(inp, key, issues).value.overdueHours
         == OverdueHours(inp, FirstWorkingDayFromToday(inp.rule, inp.cal, key, inp.span, inp.today), issues)
    ensures AssigneeFold(inp, key, issues).value.total.Keys == inp.span.Days()
    ensures inp.span.Contains(d) ==>
              AssigneeFold(inp, key, issues).value.total[d]
              == DaySum(PlannedHours(inp, issues, d), d !in WorkingDaySet(inp.rule, inp.cal, key, inp.span))
  {
    var fwd := FirstWorkingDayFromToday(inp.rule, inp.cal, key, inp.span, inp.today);
    var start := InitialSummary(inp, key);
    FoldOverdue(inp, key, fwd, start, issues);
    FoldTotal(inp, key, fwd, start, issues, d);
    if inp.span.Contains(d) {
      assert d in inp.span.Days();
    }
  }

  /** The invisible summary of an assignee: the days of the range once some invisible issue is not overdue, with their hours, flagged by the calendar of all users. */
  lemma AssigneeInvisible(inp: Input, key: AssigneeKey, issues: seq<Issue>, d: Date)
    requires AssigneeFold(inp, key, issues).Success?
    ensures AssigneeFold(inp, key, issues).value.invisible.Keys
         == (if exists x :: x in issues && HiddenPlanned(inp, x) then inp.span.Days() else {})
    ensures d in AssigneeFold(inp, key, issues).value.invisible ==>
              AssigneeFold(inp, key, issues).value.invisible[d]
              == DaySum(HiddenHours(inp, issues, d), d !in WorkingDaySet(inp.rule, inp.cal, All, inp.span))
  {
    var fwd := FirstWorkingDayFromToday(inp.rule, inp.cal, key, inp.span, inp.today);
    FoldInvisibleKeys(inp, key, fwd, InitialSummary(inp, key), issues);
    if inp.span.Contains(d) {
      FoldInvisible(inp, key, fwd, InitialSummary(inp, key), issues, d);
    }
    HasHiddenExists(inp, issues);
  }

  /** The first working day from today lies in the range whenever today does. */
  lemma FirstWorkingDayInSpan(rule: Rule, cal: CalendarData, key: AssigneeKey, span: Span, today: Date)
    requires span.Contains(today)
    ensures span.Contains(FirstWorkingDayFromToday(rule, cal, key, span, today))
  {
  }

  /** With today inside the range every overdue issue has a record for the first working day, so the entry is always built. */
  lemma AssigneeFoldSucceeds(inp: Input, key: AssigneeKey, issues: seq<Issue>)
    requires inp.span.Contains(inp.today)
    ensures AssigneeFold(inp, key, issues).Success?
  {
    var fwd := FirstWorkingDayFromToday(inp.rule, inp.cal, key, inp.span, inp.today);
    FirstWorkingDayInSpan(inp.rule, inp.cal, key, inp.span, inp.today);
    assert fwd in inp.span.Days();
    FoldFailure(inp, key, fwd, InitialSummary(inp, key), issues);
    forall i | 0 <= i < |issues| ensures !Unplaceable(inp, fwd, issues[i]) {
      assert issues[i] in issues;
      AllocationLemmas.AllocationCoversSpan(inp.rule, inp.cal, issues[i], inp.span, inp.today);
    }
  }

  /**
   * When the range starts no later than today and the assignee works some
   * day from today to its end, an overdue issue of that assignee adds all
   * its remaining hours to the overdue hours.
   */
  lemma OverdueHoursAreRemaining(inp: Input, issue: Issue)
    requires inp.userToday == inp.today && inp.span.first <= inp.today
    requires Overdue(inp, issue)
    requires WorkingDaySet(inp.rule, inp.cal, CalendarKeyOf(issue.assignedTo), Span(inp.today, inp.span.last)) != {}
    ensures HoursAt(inp, issue, FirstWorkingDayFromToday(inp.rule, inp.cal, CalendarKeyOf(issue.assignedTo), inp.span, inp.today))
         == RemainingHours(issue)
  {
    var p := Placement(inp.rule, inp.cal, issue, inp.span, inp.today);
    assert Max(inp.today, inp.span.first) == inp.today;
    AllocationLemmas.PastDuePlacement(inp.rule, inp.cal, issue, inp.span, inp.today, p.value);
  }

  /**
   * Without such a working day the remaining hours of an overdue issue go
   * under nil, and the overdue hours gain nothing from it when today lies
   * in the range.
   */
  lemma OverdueHoursLost(inp: Input, issue: Issue)
    requires inp.userToday == inp.today && inp.span.Contains(inp.today)
    requires Overdue(inp, issue)
    requires WorkingDaySet(inp.rule, inp.cal, CalendarKeyOf(issue.assignedTo), Span(inp.today, inp.span.last)) == {}
    ensures HoursAt(inp, issue, FirstWorkingDayFromToday(inp.rule, inp.cal, CalendarKeyOf(issue.assignedTo), inp.span, inp.today))
         == 0.0
    ensures Allocate(inp.rule, inp.cal, issue, inp.span, inp.today).undated == Some(RemainingHours(issue))
  {
    var key := CalendarKeyOf(issue.assignedTo);
    assert Max(inp.today, inp.span.first) == inp.today;
    assert FirstWorkingDayFromToday(inp.rule, inp.cal, key, inp.span, inp.today) == inp.today;
    AllocationLemmas.PastDueDays(inp.rule, inp.cal, issue, inp.span, inp.today, inp.today);
    AllocationLemmas.PastDueUndated(inp.rule, inp.cal, issue, inp.span, inp.today);
  }
}
