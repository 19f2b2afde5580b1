/**
 * The per-issue daily allocator, `hours_for_issue_per_day`
 * (app/models/user_workload.rb) and its two older copies `getHoursForIssuesPerDay`
 * (lib/list_user.rb) and `ListUser#hours_for_issue_per_day`
 * (lib/redmine_workload/list_user.rb).  The three share their branches and
 * differ only in the calendar they ask, which is the `Rule` argument here.
 */
module Allocation {
  import opened Wrappers
  import opened Dates
  import opened Calendar
  import opened DayCache
  import opened Issues
  import WlDateTools
  import DateTools
  import LegacyDateTools

  /**
   * One value of the per-day hash: `{ hours:, active:, noEstimate:, holiday: }`,
   * or `{ hours: }` alone for a day outside the range that only receives the
   * hours of an overdue issue.
   */
  datatype DayInfo = DayInfo(hours: real, active: bool, noEstimate: bool, holiday: bool) | HoursOnly(hours: real)

  /** The hash the allocator returns: the records by day and, under the key nil, the hours of an overdue issue that found no working day. */
  datatype IssueHours = IssueHours(days: map<Date, DayInfo>, undated: Option<real>)

  /** The first branch: the due date lies before today. */
  predicate PastDue(issue: Issue, today: Date) {
    issue.dueDate.Some? && issue.dueDate.value < today
  }

  /** The second branch: a start or a due date is missing. */
  predicate Undated(issue: Issue) {
    issue.dueDate.None? || issue.startDate.None?
  }

  /** The third branch: both dates are known and the issue is not past due. */
  predicate Scheduled(issue: Issue, today: Date) {
    !PastDue(issue, today) && !Undated(issue)
  }

  function Max(a: int, b: int): (m: int)
    ensures a <= m && b <= m && (m == a || m == b)
  {
    if a <= b then b else a
  }

  /** `[today, issue.start_date].max..issue.due_date`: what is left of a scheduled issue. */
  function RemainingSpan(issue: Issue, today: Date): Span
    requires Scheduled(issue, today)
  {
    Span(Max(today, issue.startDate.value), issue.dueDate.value)
  }

  /** `number_of_workdays_for_issue`. */
  function WorkdaysLeft(rule: Rule, cal: CalendarData, issue: Issue, today: Date): nat
    requires Scheduled(issue, today)
  {
    |WorkingDaySet(rule, cal, CalendarKeyOf(issue.assignedTo), RemainingSpan(issue, today))|
  }

  /**
   * `hours_per_workday` of a scheduled issue (unused in the other branches).
   * With no working day left the source divides by 0.0, but then every day
   * from today to the due date is a holiday and takes 0.0 instead, so no
   * record ever shows the quotient; 0.0 stands in for it
   * (`AllocationLemmas.NoWorkdayLeftUnseen`).
   */
  function HoursPerWorkday(rule: Rule, cal: CalendarData, issue: Issue, today: Date): real {
    if Scheduled(issue, today) && WorkdaysLeft(rule, cal, issue, today) > 0
    then RemainingHours(issue) / WorkdaysLeft(rule, cal, issue, today) as real
    else 0.0
  }

  /** The record the branch of the issue writes for one day of the range. */
  function DayRecord(issue: Issue, today: Date, perWorkday: real, holiday: bool, day: Date): DayInfo {
    if PastDue(issue, today) then
      DayInfo(0.0, day <= issue.dueDate.value && (issue.startDate.None? || issue.startDate.value >= day), false, holiday)
    else if Undated(issue) then
      if (issue.dueDate.Some? && day <= issue.dueDate.value)
         || (issue.startDate.Some? && day >= issue.startDate.value)
         || (issue.startDate.None? && issue.dueDate.None?)
      then DayInfo(0.0, true, !holiday, holiday)
      else DayInfo(0.0, false, false, holiday)
    else if issue.startDate.value <= day <= issue.dueDate.value then
      if day >= today then DayInfo(if holiday then 0.0 else perWorkday, true, issue.estimatedHours.None? && !holiday, holiday)
      else DayInfo(0.0, true, false, holiday)
    else DayInfo(0.0, false, false, holiday)
  }

  /** The earliest working day of a range, if it has one (`working_days_in_time_span(..).min`). */
  function FirstWorkingDay(rule: Rule, cal: CalendarData, key: AssigneeKey, span: Span): (r: Option<Date>)
    ensures r.None? <==> WorkingDaySet(rule, cal, key, span) == {}
    ensures r.Some? ==> r.value in WorkingDaySet(rule, cal, key, span)
    ensures r.Some? ==> forall d :: d in WorkingDaySet(rule, cal, key, span) ==> r.value <= d
    decreases span.Length()
  {
    if span.IsEmpty() then None
    else if IsWorkingDay(rule, cal, key, span.first) then
      WorkingDaySetSplit(rule, cal, key, span);
      Some(span.first)
    else
      WorkingDaySetSplit(rule, cal, key, span);
      FirstWorkingDay(rule, cal, key, Span(span.first + 1, span.last))
  }

  /** The records of every day of the range, each flagged holiday when it is not a working day of the assignee. */
  function SpanRecords(rule: Rule, cal: CalendarData, issue: Issue, span: Span, today: Date): map<Date, DayInfo>
  {
    map d | d in span.Days() ::
      DayRecord(issue, today, HoursPerWorkday(rule, cal, issue, today),
                !IsWorkingDay(rule, cal, CalendarKeyOf(issue.assignedTo), d), d)
  }

  /** Where an overdue issue's remaining hours go: the first working day from today to the end of the range. */
  function Placement(rule: Rule, cal: CalendarData, issue: Issue, span: Span, today: Date): Option<Date> {
    FirstWorkingDay(rule, cal, CalendarKeyOf(issue.assignedTo), Span(today, span.last))
  }

  /** The hash `hours_for_issue_per_day` returns. */
  function Allocate(rule: Rule, cal: CalendarData, issue: Issue, span: Span, today: Date): (r: IssueHours)
    ensures span.Days() <= r.days.Keys
    ensures r.undated.Some? <==> PastDue(issue, today) && Placement(rule, cal, issue, span, today).None?
  {
    var days := SpanRecords(rule, cal, issue, span, today);
    if !PastDue(issue, today) then IssueHours(days, None)
    else
      match Placement(rule, cal, issue, span, today)
      case None => IssueHours(days, Some(RemainingHours(issue)))
      case Some(p) =>
        IssueHours(days[p := if p in days then days[p].(hours := RemainingHours(issue)) else HoursOnly(RemainingHours(issue))], None)
  }

  /** Extending the range by one day adds that day's record and changes no other. */
  lemma SpanRecordsStep(rule: Rule, cal: CalendarData, issue: Issue, first: Date, day: Date, today: Date)
    requires first <= day
    ensures SpanRecords(rule, cal, issue, Span(first, day), today)
         == SpanRecords(rule, cal, issue, Span(first, day - 1), today)[day :=
              DayRecord(issue, today, HoursPerWorkday(rule, cal, issue, today),
                        !IsWorkingDay(rule, cal, CalendarKeyOf(issue.assignedTo), day), day)]
  {
    assert Span(first, day).Days() == Span(first, day - 1).Days() + {day};
  }

  // ---------------------------------------------------------------------
  // The imperative allocator

  /** The calendar lookup of each revision, through its store. */
  method FetchWorkingDays(rule: Rule, cache: WorkingDayCache, cal: CalendarData, span: Span, key: AssigneeKey)
    returns (days: set<Date>)
    requires cache.Consistent(rule, cal)
    modifies cache
    ensures cache.Consistent(rule, cal)
    ensures days == WorkingDaySet(rule, cal, key, span)
  {
    match rule {
      case HolidaysAndUserVacations =>
        days := WlDateTools.WorkingDaysInTimeSpan(cache, cal, span, key, false);
      case HolidaysAndIdVacations =>
        days := DateTools.GetWorkingDaysInTimespan(cache, cal, span, key, false);
      case WeekdaysOnly =>
        LegacyDateTools.LegacyCalendarIgnoresTables(cal, All, span);
        days := LegacyDateTools.GetWorkingDaysInTimespan(cache, cal.settings, span, false);
        LegacyDateTools.LegacyCalendarIgnoresTables(cal, key, span);
    }
  }

  /** `real_distance_in_days` / `getRealDistanceInDays` of each revision. */
  method RealDistance(rule: Rule, cache: WorkingDayCache, cal: CalendarData, span: Span, key: AssigneeKey)
    returns (n: nat)
    requires cache.Consistent(rule, cal)
    modifies cache
    ensures cache.Consistent(rule, cal)
    ensures n == |WorkingDaySet(rule, cal, key, span)|
  {
    match rule {
      case HolidaysAndUserVacations =>
        n := WlDateTools.RealDistanceInDays(cache, cal, span, key);
      case HolidaysAndIdVacations =>
        n := DateTools.GetRealDistanceInDays(cache, cal, span, key);
      case WeekdaysOnly =>
        n := LegacyDateTools.GetRealDistanceInDays(cache, cal, span);
        LegacyDateTools.LegacyCalendarIgnoresTables(cal, All, span);
        LegacyDateTools.LegacyCalendarIgnoresTables(cal, key, span);
    }
  }

  /** `Set#min` of a set of days known to lie in a range: the least element, none for the empty set. */
  method SetMin(s: set<Date>, span: Span) returns (m: Option<Date>)
    requires s <= span.Days()
    ensures m.None? <==> s == {}
    ensures m.Some? ==> m.value in s && forall d :: d in s ==> m.value <= d
  {
    var day := span.first;
    while day <= span.last && day !in s
      invariant span.first <= day
      invariant forall d :: d in s ==> day <= d
      decreases span.last - day
    {
      day := day + 1;
    }
    if day <= span.last {
      m := Some(day);
    } else {
      m := None;
      assert forall d :: d in s ==> span.Contains(d) && day <= d;
    }
  }

  /** The loop of the past-due branch: every day inactive past the due date, no hours yet. */
  method PastDueRecords(rule: Rule, cal: CalendarData, issue: Issue, span: Span, today: Date, workingDays: set<Date>)
    returns (days: map<Date, DayInfo>)
    requires PastDue(issue, today)
    requires workingDays == WorkingDaySet(rule, cal, CalendarKeyOf(issue.assignedTo), span)
    ensures days == SpanRecords(rule, cal, issue, span, today)
  {
    ghost var perDay := HoursPerWorkday(rule, cal, issue, today);
    ghost var assignee := CalendarKeyOf(issue.assignedTo);
    days := map[];
    var day := span.first;
    while day <= span.last
      invariant span.first <= day && (day <= span.last + 1 || day == span.first)
      invariant days == SpanRecords(rule, cal, issue, Span(span.first, day - 1), today)
      decreases span.last - day
    {
      var isActive := day <= issue.dueDate.value && (issue.startDate.None? || issue.startDate.value >= day);
      var record := DayInfo(0.0, isActive, false, day !in workingDays);
      assert record == DayRecord(issue, today, perDay, !IsWorkingDay(rule, cal, assignee, day), day);
      SpanRecordsStep(rule, cal, issue, span.first, day, today);
      days := days[day := record];
      assert days == SpanRecords(rule, cal, issue, Span(span.first, day), today);
      assert Span(span.first, day) == Span(span.first, (day + 1) - 1);
      day := day + 1;
    }
    assert Span(span.first, day - 1).Days() == span.Days();
  }

  /** The loop of the branch without a start or a due date: active days carry no hours and the no-estimate flag. */
  method UndatedRecords(rule: Rule, cal: CalendarData, issue: Issue, span: Span, today: Date, workingDays: set<Date>)
    returns (days: map<Date, DayInfo>)
    requires !PastDue(issue, today) && Undated(issue)
    requires workingDays == WorkingDaySet(rule, cal, CalendarKeyOf(issue.assignedTo), span)
    ensures days == SpanRecords(rule, cal, issue, span, today)
  {
    ghost var perDay := HoursPerWorkday(rule, cal, issue, today);
    ghost var assignee := CalendarKeyOf(issue.assignedTo);
    days := map[];
    var day := span.first;
    while day <= span.last
      invariant span.first <= day && (day <= span.last + 1 || day == span.first)
      invariant days == SpanRecords(rule, cal, issue, Span(span.first, day - 1), today)
      decreases span.last - day
    {
      var holiday := day !in workingDays;
      var record;
      if (issue.dueDate.Some? && day <= issue.dueDate.value)
         || (issue.startDate.Some? && day >= issue.startDate.value)
         || (issue.startDate.None? && issue.dueDate.None?)
      {
        record := DayInfo(0.0, true, true && !holiday, holiday);
      } else {
        record := DayInfo(0.0, false, false, holiday);
      }
      assert record == DayRecord(issue, today, perDay, !IsWorkingDay(rule, cal, assignee, day), day);
      SpanRecordsStep(rule, cal, issue, span.first, day, today);
      days := days[day := record];
      assert days == SpanRecords(rule, cal, issue, Span(span.first, day), today);
      assert Span(span.first, day) == Span(span.first, (day + 1) - 1);
      day := day + 1;
    }
    assert Span(span.first, day - 1).Days() == span.Days();
  }

  /** The loop of the scheduled branch: the hours per workday on every working day from today to the due date. */
  /** One day of the even spread: the share on a working day of the remaining span, nothing elsewhere. */
  method ScheduledRecord(issue: Issue, today: Date, hoursPerWorkday: real, holiday: bool, day: Date) returns (record: DayInfo)
    requires Scheduled(issue, today)
    ensures record == DayRecord(issue, today, hoursPerWorkday, holiday, day)
  {
    if day >= issue.startDate.value && day <= issue.dueDate.value {
      if day >= today {
        record := DayInfo(if holiday then 0.0 else hoursPerWorkday, true,
                          issue.estimatedHours.None? && !holiday, holiday);
      } else {
        record := DayInfo(0.0, true, false, holiday);
      }
    } else {
      record := DayInfo(0.0, false, false, holiday);
    }
  }

  method ScheduledRecords(rule: Rule, cal: CalendarData, issue: Issue, span: Span, today: Date, workingDays: set<Date>,
                          hoursPerWorkday: real)
    returns (days: map<Date, DayInfo>)
    requires Scheduled(issue, today)
    requires workingDays == WorkingDaySet(rule, cal, CalendarKeyOf(issue.assignedTo), span)
    requires hoursPerWorkday == HoursPerWorkday(rule, cal, issue, today)
    ensures days == SpanRecords(rule, cal, issue, span, today)
  {
    ghost var assignee := CalendarKeyOf(issue.assignedTo);
    days := map[];
    var day := span.first;
    while day <= span.last
      invariant span.first <= day && (day <= span.last + 1 || day == span.first)
      invariant days == SpanRecords(rule, cal, issue, Span(span.first, day - 1), today)
      decreases span.last - day
    {
      var holiday := day !in workingDays;
      assert holiday == !IsWorkingDay(rule, cal, assignee, day);
      var record := ScheduledRecord(issue, today, hoursPerWorkday, holiday, day);
      SpanRecordsStep(rule, cal, issue, span.first, day, today);
      days := days[day := record];
      assert days == SpanRecords(rule, cal, issue, Span(span.first, day), today);
      assert Span(span.first, day) == Span(span.first, (day + 1) - 1);
      day := day + 1;
    }
    assert Span(span.first, day - 1).Days() == span.Days();
  }

  /** `hours_for_issue_per_day`: one record per day of the range, by the branch of the issue. */
  method HoursForIssuePerDay(rule: Rule, cache: WorkingDayCache, cal: CalendarData, issue: Issue, span: Span, today: Date)
    returns (result: IssueHours)
    requires cache.Consistent(rule, cal)
    modifies cache
    ensures cache.Consistent(rule, cal)
    ensures result == Allocate(rule, cal, issue, span, today)
  {
    var hoursRemaining := RemainingHours(issue);
    var assignee := CalendarKeyOf(issue.assignedTo);
    var workingDays := FetchWorkingDays(rule, cache, cal, span, assignee);

    if issue.dueDate.Some? && issue.dueDate.value < today {
      var days := PastDueRecords(rule, cal, issue, span, today, workingDays);
      var afterToday := FetchWorkingDays(rule, cache, cal, Span(today, span.last), assignee);
      var firstWorkingDayAfterToday := SetMin(afterToday, Span(today, span.last));
      assert firstWorkingDayAfterToday == Placement(rule, cal, issue, span, today);
      match firstWorkingDayAfterToday {
        case None =>
          result := IssueHours(days, Some(hoursRemaining));
        case Some(p) =>
          if p !in days {
            days := days[p := HoursOnly(hoursRemaining)];
          } else {
            days := days[p := days[p].(hours := hoursRemaining)];
          }
          result := IssueHours(days, None);
      }
    } else if issue.dueDate.None? || issue.startDate.None? {
      var days := UndatedRecords(rule, cal, issue, span, today, workingDays);
      result := IssueHours(days, None);
    } else {
      var remainingTimeSpan := Span(Max(today, issue.startDate.value), issue.dueDate.value);
      var numberOfWorkdays := RealDistance(rule, cache, cal, remainingTimeSpan, assignee);
      // No working day left: the source's quotient is Infinity or NaN, which no record shows.
      var hoursPerWorkday := if numberOfWorkdays > 0 then hoursRemaining / numberOfWorkdays as real else 0.0;
      var days := ScheduledRecords(rule, cal, issue, span, today, workingDays, hoursPerWorkday);
      result := IssueHours(days, None);
    }
  }
}
