/**
 * The per-assignee summary that `hours_per_user_issue_and_day` builds
 * (app/models/user_workload.rb and lib/redmine_workload/list_user.rb): the
 * overdue hours and count, a per-day total, the per-project buckets holding
 * the issues, and the summary of the invisible issues.
 */
module Summaries {
  import opened Wrappers
  import opened Dates
  import opened Calendar
  import opened DayCache
  import opened Issues
  import opened Allocation
  import AllocationLemmas

  /** One day of a summary: `{ hours:, holiday: }`. */
  datatype DaySum = DaySum(hours: real, holiday: bool)

  type Summary = map<Date, DaySum>

  /** A project bucket: its own total and overdue counters, and the per-day maps of its issues. */
  datatype ProjectSummary = ProjectSummary(total: Summary, overdueHours: real, overdueNumber: nat, issues: map<Issue, IssueHours>)

  /** The entry of one assignee; projects are keyed by their id. */
  datatype AssigneeSummary =
    AssigneeSummary(overdueHours: real, overdueNumber: nat, total: Summary, invisible: Summary, projects: map<int, ProjectSummary>)

  /** What one run of the aggregation works on: the calendar rule of the revision, the calendar, the range, today, and the user's today that `overdue?` compares with. */
  datatype Input = Input(rule: Rule, cal: CalendarData, span: Span, today: Date, userToday: Date)

  /** A zero-filled summary of the range, each day flagged holiday when it is not in `working`. */
  function ZeroSummary(span: Span, working: set<Date>): (r: Summary)
    ensures r.Keys == span.Days()
  {
    map d | d in span.Days() :: DaySum(0.0, d !in working)
  }

  /** The entry a day starts from when a summary lacks it: no hours, flagged holiday when it is not in `working`. */
  function BaseDay(summary: Summary, working: set<Date>, d: Date): DaySum {
    if d in summary then summary[d] else DaySum(0.0, d !in working)
  }

  /**
   * `add_issue_info_to_summary`: the issue's hours added day by day over the
   * range; `working` holds the working days of the calendar of all users.
   */
  function AddInfo(summary: Summary, info: map<Date, DayInfo>, span: Span, working: set<Date>): Summary
    requires span.Days() <= info.Keys
  {
    map d | d in summary.Keys + span.Days() ::
      if span.Contains(d) then BaseDay(summary, working, d).(hours := BaseDay(summary, working, d).hours + info[d].hours)
      else summary[d]
  }

  /** The working days of all users over the range of a run. */
  function AllWorking(inp: Input): set<Date> {
    WorkingDaySet(inp.rule, inp.cal, All, inp.span)
  }

  /** The working days of one assignee over the range of a run. */
  function KeyWorking(inp: Input, key: AssigneeKey): set<Date> {
    WorkingDaySet(inp.rule, inp.cal, key, inp.span)
  }

  function InitialSummary(inp: Input, key: AssigneeKey): AssigneeSummary {
    AssigneeSummary(0.0, 0, ZeroSummary(inp.span, KeyWorking(inp, key)), map[], map[])
  }

  function InitialProject(inp: Input, key: AssigneeKey): ProjectSummary {
    ProjectSummary(ZeroSummary(inp.span, KeyWorking(inp, key)), 0.0, 0, map[])
  }

  /** `working_days.select { |day| day >= today }.min || today`. */
  function FirstWorkingDayFromToday(rule: Rule, cal: CalendarData, key: AssigneeKey, span: Span, today: Date): Date {
    match FirstWorkingDay(rule, cal, key, Span(Max(today, span.first), span.last))
    case None => today
    case Some(d) => d
  }

  /** An overdue issue adds the hours of `fwd` to the overdue counters; any other adds its hours to the total. */
  function AddToEntry(inp: Input, fwd: Date, acc: AssigneeSummary, info: IssueHours, overdue: bool): AssigneeSummary
    requires inp.span.Days() <= info.days.Keys
    requires overdue ==> fwd in info.days
  {
    if overdue then acc.(overdueHours := acc.overdueHours + info.days[fwd].hours, overdueNumber := acc.overdueNumber + 1)
    else acc.(total := AddInfo(acc.total, info.days, inp.span, AllWorking(inp)))
  }

  /** The same for the project bucket, which is created zero-filled on first use and then keeps the issue's map. */
  function AddToProject(inp: Input, key: AssigneeKey, fwd: Date, acc: AssigneeSummary, issue: Issue, info: IssueHours, overdue: bool)
    : AssigneeSummary
    requires inp.span.Days() <= info.days.Keys
    requires overdue ==> fwd in info.days
  {
    var p0 := if issue.projectId in acc.projects then acc.projects[issue.projectId] else InitialProject(inp, key);
    var p1 :=
      if overdue then p0.(overdueHours := p0.overdueHours + info.days[fwd].hours, overdueNumber := p0.overdueNumber + 1)
      else p0.(total := AddInfo(p0.total, info.days, inp.span, AllWorking(inp)));
    acc.(projects := acc.projects[issue.projectId := p1.(issues := p1.issues[issue := info])])
  }

  /**
   * The body of the issue loop: the entry is updated as `AddToEntry` says
   * (failing when an overdue issue's map has no day `fwd`), then a visible
   * issue goes to its project and an invisible one that is not overdue is
   * added to the invisible summary.
   */
  function IssueStep(inp: Input, key: AssigneeKey, fwd: Date, acc: AssigneeSummary, issue: Issue): Result<AssigneeSummary>
  {
    var info := Allocate(inp.rule, inp.cal, issue, inp.span, inp.today);
    AllocationLemmas.AllocationCoversSpan(inp.rule, inp.cal, issue, inp.span, inp.today);
    var overdue := IssueOverdue(issue, inp.userToday);
    if overdue && fwd !in info.days then Failure(NoMethodError)
    else
      var acc1 := AddToEntry(inp, fwd, acc, info, overdue);
      if issue.visible then Success(AddToProject(inp, key, fwd, acc1, issue, info, overdue))
      else if overdue then Success(acc1)
      else Success(acc1.(invisible := AddInfo(acc1.invisible, info.days, inp.span, AllWorking(inp))))
  }

  /** The issues of one assignee folded, in order, into an entry that starts from `start`. */
  function FoldFrom(inp: Input, key: AssigneeKey, fwd: Date, start: AssigneeSummary, issues: seq<Issue>): (r: Result<AssigneeSummary>)
    ensures r.Failure? ==> r.error == NoMethodError
    decreases |issues|
  {
    if issues == [] then Success(start)
    else
      var last := issues[|issues| - 1];
      match FoldFrom(inp, key, fwd, start, issues[..|issues| - 1])
      case Failure(e) => Failure(e)
      case Success(acc) => IssueStep(inp, key, fwd, acc, last)
  }

  /** The entry of an assignee: its issues folded into the zero-filled initial entry. */
  function AssigneeFold(inp: Input, key: AssigneeKey, issues: seq<Issue>): (r: Result<AssigneeSummary>)
    ensures r.Failure? ==> r.error == NoMethodError
    ensures issues == [] ==> r == Success(InitialSummary(inp, key))
  {
    FoldFrom(inp, key, FirstWorkingDayFromToday(inp.rule, inp.cal, key, inp.span, inp.today),
             InitialSummary(inp, key), issues)
  }

  // ---------------------------------------------------------------------
  // The imperative steps

  /** Adding one more day of the range to the summary changes that day only. */
  lemma AddInfoStep(summary: Summary, info: map<Date, DayInfo>, first: Date, day: Date, working: set<Date>)
    requires first <= day
    requires Span(first, day).Days() <= info.Keys
    ensures Span(first, day - 1).Days() <= info.Keys
    ensures var prev := AddInfo(summary, info, Span(first, day - 1), working);
            var base := BaseDay(prev, working, day);
            AddInfo(summary, info, Span(first, day), working) == prev[day := base.(hours := base.hours + info[day].hours)]
  {
    var small := Span(first, day - 1);
    var big := Span(first, day);
    assert big.Days() == small.Days() + {day};
    var prev := AddInfo(summary, info, small, working);
    var next := AddInfo(summary, info, big, working);
    var base := BaseDay(prev, working, day);
    assert BaseDay(summary, working, day) == base;
    assert next.Keys == prev.Keys + {day};
    forall d | d in next.Keys
      ensures next[d] == prev[day := base.(hours := base.hours + info[day].hours)][d]
    {
    }
  }

  /** The loop of `add_issue_info_to_summary` over the range, initialising a missing day before adding to it. */
  method AddHours(summary: Summary, info: map<Date, DayInfo>, span: Span, workingDays: set<Date>) returns (r: Summary)
    requires span.Days() <= info.Keys
    ensures r == AddInfo(summary, info, span, workingDays)
  {
    r := summary;
    var day := span.first;
    AddInfoEmpty(summary, info, Span(span.first, span.first - 1), workingDays);
    while day <= span.last
      invariant span.first <= day && (day <= span.last + 1 || day == span.first)
      invariant Span(span.first, day - 1).Days() <= info.Keys
      invariant r == AddInfo(summary, info, Span(span.first, day - 1), workingDays)
      decreases span.last - day
    {
      assert day in span.Days();
      AddInfoStep(summary, info, span.first, day, workingDays);
      r := AddDay(r, day, info[day].hours, workingDays);
      assert r == AddInfo(summary, info, Span(span.first, day), workingDays);
      assert Span(span.first, day) == Span(span.first, (day + 1) - 1);
      day := day + 1;
    }
    if span.IsEmpty() {
      AddInfoEmpty(summary, info, span, workingDays);
    } else {
      assert Span(span.first, day - 1) == span;
    }
  }

  /** Over an empty range nothing is added. */
  lemma AddInfoEmpty(summary: Summary, info: map<Date, DayInfo>, span: Span, working: set<Date>)
    requires span.IsEmpty()
    ensures AddInfo(summary, info, span, working) == summary
  {
    assert span.Days() == {};
  }

  /** One day of that loop: the day initialised when the summary lacks it, then `hours` added to it. */
  method AddDay(summary: Summary, day: Date, hours: real, workingDays: set<Date>) returns (r: Summary)
    ensures var base := BaseDay(summary, workingDays, day);
            r == summary[day := base.(hours := base.hours + hours)]
  {
    r := summary;
    if day !in r {
      r := r[day := DaySum(0.0, day !in workingDays)];
    }
    r := r[day := r[day].(hours := r[day].hours + hours)];
  }

  /** `add_issue_info_to_summary`: the calendar of all users asked once, then the hours added over the range. */
  method AddIssueInfoToSummary(rule: Rule, cache: WorkingDayCache, cal: CalendarData, summary: Summary,
                               info: map<Date, DayInfo>, span: Span)
    returns (r: Summary)
    requires cache.Consistent(rule, cal)
    requires span.Days() <= info.Keys
    modifies cache
    ensures cache.Consistent(rule, cal)
    ensures r == AddInfo(summary, info, span, WorkingDaySet(rule, cal, All, span))
  {
    var workingDays := FetchWorkingDays(rule, cache, cal, span, All);
    r := AddHours(summary, info, span, workingDays);
  }

  /** `time_span.each { |day| ... = { hours: 0.0, holiday: working_days.exclude?(day) } }`. */
  method ZeroFill(span: Span, workingDays: set<Date>) returns (r: Summary)
    ensures r == ZeroSummary(span, workingDays)
  {
    r := map[];
    var day := span.first;
    while day <= span.last
      invariant span.first <= day && (day <= span.last + 1 || day == span.first)
      invariant r == ZeroSummary(Span(span.first, day - 1), workingDays)
      decreases span.last - day
    {
      assert Span(span.first, day).Days() == Span(span.first, day - 1).Days() + {day};
      r := r[day := DaySum(0.0, day !in workingDays)];
      day := day + 1;
    }
    assert Span(span.first, day - 1).Days() == span.Days();
  }

  /** The first working day of the assignee from today on, or today when there is none. */
  method FirstWorkingDayOnOrAfter(rule: Rule, cal: CalendarData, key: AssigneeKey, span: Span, today: Date, workingDays: set<Date>)
    returns (fwd: Date)
    requires workingDays == WorkingDaySet(rule, cal, key, span)
    ensures fwd == FirstWorkingDayFromToday(rule, cal, key, span, today)
  {
    var later := set d | d in workingDays && d >= today;
    var laterSpan := Span(Max(today, span.first), span.last);
    assert later == WorkingDaySet(rule, cal, key, laterSpan);
    var m := SetMin(later, laterSpan);
    if m.Some? {
      fwd := m.value;
    } else {
      fwd := today;
    }
  }

  /** Lines adding an issue to the entry's counters or total. */
  method AddIssueToEntry(inp: Input, cache: WorkingDayCache, fwd: Date, acc: AssigneeSummary, info: IssueHours, overdue: bool)
    returns (s: AssigneeSummary)
    requires cache.Consistent(inp.rule, inp.cal)
    requires inp.span.Days() <= info.days.Keys
    requires overdue ==> fwd in info.days
    modifies cache
    ensures cache.Consistent(inp.rule, inp.cal)
    ensures s == AddToEntry(inp, fwd, acc, info, overdue)
  {
    s := acc;
    if overdue {
      s := s.(overdueHours := s.overdueHours + info.days[fwd].hours, overdueNumber := s.overdueNumber + 1);
    } else {
      var total := AddIssueInfoToSummary(inp.rule, cache, inp.cal, s.total, info.days, inp.span);
      s := s.(total := total);
    }
  }

  /** Lines adding a visible issue to its project bucket. */
  method AddIssueToProject(inp: Input, cache: WorkingDayCache, key: AssigneeKey, workingDays: set<Date>, fwd: Date,
                           acc: AssigneeSummary, issue: Issue, info: IssueHours, overdue: bool)
    returns (s: AssigneeSummary)
    requires cache.Consistent(inp.rule, inp.cal)
    requires workingDays == KeyWorking(inp, key)
    requires inp.span.Days() <= info.days.Keys
    requires overdue ==> fwd in info.days
    modifies cache
    ensures cache.Consistent(inp.rule, inp.cal)
    ensures s == AddToProject(inp, key, fwd, acc, issue, info, overdue)
  {
    var project := issue.projectId;
    ghost var p0 := if project in acc.projects then acc.projects[project] else InitialProject(inp, key);
    s := acc;
    if project !in s.projects {
      var zero := ZeroFill(inp.span, workingDays);
      s := s.(projects := s.projects[project := ProjectSummary(zero, 0.0, 0, map[])]);
    }
    var bucket := s.projects[project];
    assert bucket == p0;
    if overdue {
      bucket := bucket.(overdueHours := bucket.overdueHours + info.days[fwd].hours,
                        overdueNumber := bucket.overdueNumber + 1);
    } else {
      var total := AddIssueInfoToSummary(inp.rule, cache, inp.cal, bucket.total, info.days, inp.span);
      bucket := bucket.(total := total);
    }
    bucket := bucket.(issues := bucket.issues[issue := info]);
    s := s.(projects := s.projects[project := bucket]);
    assert s.projects == acc.projects[project := bucket];
    assert s == acc.(projects := acc.projects[project := bucket]);
  }

  /** The body of the issue loop. */
  method AddIssue(inp: Input, cache: WorkingDayCache, key: AssigneeKey, workingDays: set<Date>, fwd: Date,
                  acc: AssigneeSummary, issue: Issue)
    returns (r: Result<AssigneeSummary>)
    requires cache.Consistent(inp.rule, inp.cal)
    requires workingDays == KeyWorking(inp, key)
    modifies cache
    ensures cache.Consistent(inp.rule, inp.cal)
    ensures r == IssueStep(inp, key, fwd, acc, issue)
  {
    var hoursForIssue := HoursForIssuePerDay(inp.rule, cache, inp.cal, issue, inp.span, inp.today);
    AllocationLemmas.AllocationCoversSpan(inp.rule, inp.cal, issue, inp.span, inp.today);
    var overdue := IssueOverdue(issue, inp.userToday);
    if overdue && fwd !in hoursForIssue.days {
      return Failure(NoMethodError);
    }
    var s := AddIssueToEntry(inp, cache, fwd, acc, hoursForIssue, overdue);
    if issue.visible {
      s := AddIssueToProject(inp, cache, key, workingDays, fwd, s, issue, hoursForIssue, overdue);
    } else if !overdue {
      var invisible := AddIssueInfoToSummary(inp.rule, cache, inp.cal, s.invisible, hoursForIssue.days, inp.span);
      s := s.(invisible := invisible);
    }
    r := Success(s);
  }
}
