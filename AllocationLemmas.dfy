/**
 * What the allocator promises, branch by branch: the records it writes, the
 * holiday flags, where an overdue issue's hours go, and that the even spread
 * hands out exactly the remaining hours.
 */
module AllocationLemmas {
  import opened Wrappers
  import opened Dates
  import opened Calendar
  import opened Issues
  import opened Allocation

  /**
   * One record per day of the range: an issue that is not overdue has exactly
   * the days of the range, and an overdue one at most adds the day its hours
   * go to, which lies between today and the end of the range.
   */
  lemma AllocationCoversSpan(rule: Rule, cal: CalendarData, issue: Issue, span: Span, today: Date)
    ensures span.Days() <= Allocate(rule, cal, issue, span, today).days.Keys
    ensures !PastDue(issue, today) ==>
              Allocate(rule, cal, issue, span, today).days.Keys == span.Days()
              && Allocate(rule, cal, issue, span, today).undated.None?
    ensures PastDue(issue, today) ==>
              Allocate(rule, cal, issue, span, today).days.Keys <= span.Days() + Span(today, span.last).Days()
  {
  }

  /** The overdue branch: every day of the range but the one receiving the hours gets no hours and no estimate flag, and is active up to the due date only where the start does not precede it. */
  lemma PastDueDays(rule: Rule, cal: CalendarData, issue: Issue, span: Span, today: Date, d: Date)
    requires PastDue(issue, today)
    requires span.Contains(d) && Placement(rule, cal, issue, span, today) != Some(d)
    ensures Allocate(rule, cal, issue, span, today).days[d]
         == DayInfo(0.0, d <= issue.dueDate.value && (issue.startDate.None? || issue.startDate.value >= d),
                    false, !IsWorkingDay(rule, cal, CalendarKeyOf(issue.assignedTo), d))
  {
    assert d in span.Days();
    var days := SpanRecords(rule, cal, issue, span, today);
    assert Allocate(rule, cal, issue, span, today).days[d] == days[d];
  }

  /** The overdue branch: the remaining hours go under nil exactly when no working day lies between today and the end of the range. */
  lemma PastDueUndated(rule: Rule, cal: CalendarData, issue: Issue, span: Span, today: Date)
    requires PastDue(issue, today)
    ensures Allocate(rule, cal, issue, span, today).undated.Some?
        <==> WorkingDaySet(rule, cal, CalendarKeyOf(issue.assignedTo), Span(today, span.last)) == {}
    ensures Allocate(rule, cal, issue, span, today).undated.Some? ==>
              Allocate(rule, cal, issue, span, today).undated.value == RemainingHours(issue)
  {
  }

  /** The overdue branch: otherwise they replace the hours of the day they go to. */
  lemma PastDuePlacement(rule: Rule, cal: CalendarData, issue: Issue, span: Span, today: Date, p: Date)
    requires PastDue(issue, today)
    requires Placement(rule, cal, issue, span, today) == Some(p)
    ensures p in Allocate(rule, cal, issue, span, today).days
    ensures Allocate(rule, cal, issue, span, today).days[p].hours == RemainingHours(issue)
  {
    var days := SpanRecords(rule, cal, issue, span, today);
    var rec := if p in days then days[p].(hours := RemainingHours(issue)) else HoursOnly(RemainingHours(issue));
    assert Allocate(rule, cal, issue, span, today).days == days[p := rec];
  }

  /** That day is the earliest working day of the assignee from today to the end of the range. */
  lemma PlacementIsEarliest(rule: Rule, cal: CalendarData, issue: Issue, span: Span, today: Date, p: Date)
    requires Placement(rule, cal, issue, span, today) == Some(p)
    ensures today <= p <= span.last && IsWorkingDay(rule, cal, CalendarKeyOf(issue.assignedTo), p)
    ensures forall d :: today <= d < p ==> !IsWorkingDay(rule, cal, CalendarKeyOf(issue.assignedTo), d)
  {
    var key := CalendarKeyOf(issue.assignedTo);
    assert forall d :: d in WorkingDaySet(rule, cal, key, Span(today, span.last)) ==> p <= d;
    forall d | today <= d < p
      ensures !IsWorkingDay(rule, cal, key, d)
    {
      assert d !in WorkingDaySet(rule, cal, key, Span(today, span.last));
    }
  }

  /** The branch without a start or a due date: no hours at all; the days the known date reaches are active, and those of them that are working days carry the no-estimate flag. */
  lemma UndatedBranch(rule: Rule, cal: CalendarData, issue: Issue, span: Span, today: Date, d: Date)
    requires !PastDue(issue, today) && Undated(issue)
    requires span.Contains(d)
    ensures var r := Allocate(rule, cal, issue, span, today).days[d];
            && r.DayInfo?
            && r.hours == 0.0
            && (r.active <==> (issue.dueDate.Some? && d <= issue.dueDate.value)
                              || (issue.startDate.Some? && d >= issue.startDate.value)
                              || (issue.startDate.None? && issue.dueDate.None?))
            && r.noEstimate == (r.active && !r.holiday)
  {
    assert d in span.Days();
  }

  /** The scheduled branch: nothing outside the issue's dates, nothing before today, and the hours per workday on each working day from today to the due date. */
  lemma ScheduledBranch(rule: Rule, cal: CalendarData, issue: Issue, span: Span, today: Date, d: Date)
    requires Scheduled(issue, today)
    requires span.Contains(d)
    ensures var r := Allocate(rule, cal, issue, span, today).days[d];
            var working := IsWorkingDay(rule, cal, CalendarKeyOf(issue.assignedTo), d);
            && r.DayInfo?
            && (r.active <==> issue.startDate.value <= d <= issue.dueDate.value)
            && (!r.active ==> r.hours == 0.0 && !r.noEstimate)
            && (r.active && d < today ==> r.hours == 0.0 && !r.noEstimate)
            && (r.active && d >= today && working ==> WorkdaysLeft(rule, cal, issue, today) > 0)
            && (r.active && d >= today ==>
                  r.hours == (if working then RemainingHours(issue) / WorkdaysLeft(rule, cal, issue, today) as real else 0.0)
                  && r.noEstimate == (issue.estimatedHours.None? && working))
  {
    assert d in span.Days();
    if issue.startDate.value <= d <= issue.dueDate.value && d >= today
       && IsWorkingDay(rule, cal, CalendarKeyOf(issue.assignedTo), d)
    {
      WorkingDayLeft(rule, cal, issue, today, d);
    }
  }

  /** A working day from today to the due date is one of the working days left. */
  lemma WorkingDayLeft(rule: Rule, cal: CalendarData, issue: Issue, today: Date, d: Date)
    requires Scheduled(issue, today)
    requires issue.startDate.value <= d <= issue.dueDate.value && d >= today
    requires IsWorkingDay(rule, cal, CalendarKeyOf(issue.assignedTo), d)
    ensures WorkdaysLeft(rule, cal, issue, today) > 0
  {
    assert d in WorkingDaySet(rule, cal, CalendarKeyOf(issue.assignedTo), RemainingSpan(issue, today));
  }

  /**
   * A scheduled issue with no working day left: whatever the hours per
   * workday are (the source's quotient by 0.0), every record is the one the
   * model writes, so the stand-in 0.0 is never seen.
   */
  lemma NoWorkdayLeftUnseen(rule: Rule, cal: CalendarData, issue: Issue, span: Span, today: Date, perWorkday: real, d: Date)
    requires Scheduled(issue, today) && WorkdaysLeft(rule, cal, issue, today) == 0
    requires span.Contains(d)
    ensures DayRecord(issue, today, perWorkday, !IsWorkingDay(rule, cal, CalendarKeyOf(issue.assignedTo), d), d)
         == SpanRecords(rule, cal, issue, span, today)[d]
  {
    assert d in span.Days();
    if issue.startDate.value <= d <= issue.dueDate.value && d >= today
       && IsWorkingDay(rule, cal, CalendarKeyOf(issue.assignedTo), d)
    {
      WorkingDayLeft(rule, cal, issue, today, d);
    }
  }

  /** A scheduled issue with no working day left gets 0 hours on every day: its remaining hours are lost. */
  lemma NoWorkdayLeftNoHours(rule: Rule, cal: CalendarData, issue: Issue, span: Span, today: Date, d: Date)
    requires Scheduled(issue, today) && WorkdaysLeft(rule, cal, issue, today) == 0
    requires span.Contains(d)
    ensures d in Allocate(rule, cal, issue, span, today).days
    ensures Allocate(rule, cal, issue, span, today).days[d].hours == 0.0
    ensures Allocate(rule, cal, issue, span, today).undated.None?
  {
    assert d in span.Days();
    if issue.startDate.value <= d <= issue.dueDate.value && d >= today
       && IsWorkingDay(rule, cal, CalendarKeyOf(issue.assignedTo), d)
    {
      WorkingDayLeft(rule, cal, issue, today, d);
    }
  }

  /** Every record of the range is flagged holiday exactly when its day is not a working day of the assignee. */
  lemma HolidayFlags(rule: Rule, cal: CalendarData, issue: Issue, span: Span, today: Date, d: Date)
    requires span.Contains(d)
    ensures var r := Allocate(rule, cal, issue, span, today).days[d];
            r.DayInfo? && (r.holiday <==> d !in WorkingDaySet(rule, cal, CalendarKeyOf(issue.assignedTo), span))
  {
    assert d in span.Days();
    var days := SpanRecords(rule, cal, issue, span, today);
    var rec := days[d];
    assert rec.DayInfo? && (rec.holiday <==> !IsWorkingDay(rule, cal, CalendarKeyOf(issue.assignedTo), d));
    if PastDue(issue, today) {
      var pl := Placement(rule, cal, issue, span, today);
      if pl.Some? && pl.value == d {
        assert Allocate(rule, cal, issue, span, today).days[d] == rec.(hours := RemainingHours(issue));
      } else if pl.Some? {
        assert Allocate(rule, cal, issue, span, today).days[d] == rec;
      }
    }
  }

  /** A day after the range gets nothing; an empty range gives no record unless the issue is overdue and today lies before the range's end. */
  lemma EmptySpan(rule: Rule, cal: CalendarData, issue: Issue, span: Span, today: Date)
    requires span.IsEmpty()
    ensures var r := Allocate(rule, cal, issue, span, today);
            r.days != map[] ==> PastDue(issue, today) && today <= span.last
  {
    var r := Allocate(rule, cal, issue, span, today);
    if r.days != map[] && PastDue(issue, today) {
      var p :| p in r.days;
      assert p in Span(today, span.last).Days();
    }
  }

  // ---------------------------------------------------------------------
  // Conservation of the remaining hours

  /** The hours of the days `first..last` of a per-day map. */
  function SpanHours(days: map<Date, DayInfo>, first: Date, last: Date): real
    requires Span(first, last).Days() <= days.Keys
    decreases last - first
  {
    if last < first then 0.0
    else
      assert Span(first, last - 1).Days() <= Span(first, last).Days();
      assert last in Span(first, last).Days();
      SpanHours(days, first, last - 1) + days[last].hours
  }

  /** The hours a scheduled issue gets on one day: the hours per workday on a working day of what is left, nothing elsewhere. */
  lemma SpreadDay(rule: Rule, cal: CalendarData, issue: Issue, span: Span, today: Date, d: Date)
    requires Scheduled(issue, today)
    requires span.Contains(d)
    ensures Allocate(rule, cal, issue, span, today).days[d].hours
         == (if RemainingSpan(issue, today).Contains(d) && IsWorkingDay(rule, cal, CalendarKeyOf(issue.assignedTo), d)
             then HoursPerWorkday(rule, cal, issue, today) else 0.0)
  {
    ScheduledBranch(rule, cal, issue, span, today, d);
  }

  /** The days of `first..last` that belong to `w`. */
  function Within(w: set<Date>, first: Date, last: Date): set<Date> {
    set d | d in w && first <= d <= last
  }

  /** `c` added `n` times. */
  function Times(c: real, n: nat): real {
    if n == 0 then 0.0 else Times(c, n - 1) + c
  }

  lemma {:induction false} TimesIsProduct(c: real, n: nat)
    ensures Times(c, n) == c * n as real
  {
    if n > 0 {
      TimesIsProduct(c, n - 1);
      MulStep(c, n - 1);
    }
  }

  /** Summing a per-day map that holds `c` on the days of `w` and nothing elsewhere adds `c` once per such day. */
  lemma {:induction false} CountedSum(days: map<Date, DayInfo>, first: Date, last: Date, w: set<Date>, c: real)
    requires Span(first, last).Days() <= days.Keys
    requires forall d :: first <= d <= last ==> days[d].hours == (if d in w then c else 0.0)
    ensures SpanHours(days, first, last) == Times(c, |Within(w, first, last)|)
    decreases last - first
  {
    if last < first {
      assert Within(w, first, last) == {};
    } else {
      assert Span(first, last - 1).Days() <= Span(first, last).Days();
      CountedSum(days, first, last - 1, w, c);
      WithinStep(w, first, last);
      assert SpanHours(days, first, last) == SpanHours(days, first, last - 1) + days[last].hours;
    }
  }

  /** Extending the range by its last day adds that day to `Within` exactly when it is in `w`. */
  lemma WithinStep(w: set<Date>, first: Date, last: Date)
    requires first <= last
    ensures |Within(w, first, last)| == |Within(w, first, last - 1)| + (if last in w then 1 else 0)
  {
    if last in w {
      assert Within(w, first, last) == Within(w, first, last - 1) + {last};
    } else {
      assert Within(w, first, last) == Within(w, first, last - 1);
    }
  }

  lemma MulStep(c: real, n: nat)
    ensures c * (n + 1) as real == c * n as real + c
  {
  }

  /**
   * Conservation: when what is left of a scheduled issue lies inside the range,
   * the hours over the range add up to the remaining hours.
   */
  lemma Conservation(rule: Rule, cal: CalendarData, issue: Issue, span: Span, today: Date)
    requires Scheduled(issue, today) && WorkdaysLeft(rule, cal, issue, today) > 0
    requires span.first <= RemainingSpan(issue, today).first && RemainingSpan(issue, today).last <= span.last
    ensures span.Days() <= Allocate(rule, cal, issue, span, today).days.Keys
    ensures SpanHours(Allocate(rule, cal, issue, span, today).days, span.first, span.last) == RemainingHours(issue)
  {
    var w := WorkingDaySet(rule, cal, CalendarKeyOf(issue.assignedTo), RemainingSpan(issue, today));
    SpreadOverRange(rule, cal, issue, span, today);
    SumOfSpread(Allocate(rule, cal, issue, span, today).days, span.first, span.last, w,
                HoursPerWorkday(rule, cal, issue, today), RemainingHours(issue), WorkdaysLeft(rule, cal, issue, today));
  }

  /** Spreading `r` evenly over the `n` days of `w`, all inside `first..last`, sums to `r` over that range. */
  lemma SumOfSpread(days: map<Date, DayInfo>, first: Date, last: Date, w: set<Date>, c: real, r: real, n: nat)
    requires Span(first, last).Days() <= days.Keys
    requires forall d :: first <= d <= last ==> days[d].hours == (if d in w then c else 0.0)
    requires forall d :: d in w ==> first <= d <= last
    requires |w| == n && n > 0 && c == r / n as real
    ensures SpanHours(days, first, last) == r
  {
    CountedSum(days, first, last, w, c);
    assert Within(w, first, last) == w;
    TimesIsProduct(c, n);
    DivMul(r, n);
  }

  /** Each day of the range holds the hours per workday if it is a working day of what is left, and nothing otherwise. */
  lemma SpreadOverRange(rule: Rule, cal: CalendarData, issue: Issue, span: Span, today: Date)
    requires Scheduled(issue, today)
    ensures span.Days() <= Allocate(rule, cal, issue, span, today).days.Keys
    ensures forall d :: span.first <= d <= span.last ==>
              Allocate(rule, cal, issue, span, today).days[d].hours
              == (if d in WorkingDaySet(rule, cal, CalendarKeyOf(issue.assignedTo), RemainingSpan(issue, today))
                  then HoursPerWorkday(rule, cal, issue, today) else 0.0)
  {
    AllocationCoversSpan(rule, cal, issue, span, today);
    forall d | span.first <= d <= span.last
      ensures Allocate(rule, cal, issue, span, today).days[d].hours
              == (if d in WorkingDaySet(rule, cal, CalendarKeyOf(issue.assignedTo), RemainingSpan(issue, today))
                  then HoursPerWorkday(rule, cal, issue, today) else 0.0)
    {
      SpreadDay(rule, cal, issue, span, today, d);
    }
  }

  lemma DivMul(r: real, n: nat)
    requires n > 0
    ensures (r / n as real) * n as real == r
  {
  }

  // ---------------------------------------------------------------------
  // The oldest revision

  /** With the weekday-only calendar the allocation does not depend on the assignee. */
  lemma LegacyIgnoresAssignee(cal: CalendarData, issue: Issue, span: Span, today: Date, other: Option<Principal>)
    ensures Allocate(WeekdaysOnly, cal, issue, span, today) == Allocate(WeekdaysOnly, cal, issue.(assignedTo := other), span, today)
  {
    var issue' := issue.(assignedTo := other);
    var k := CalendarKeyOf(issue.assignedTo);
    var k' := CalendarKeyOf(other);
    if Scheduled(issue, today) {
      WeekdaysOnlySet(cal, k, RemainingSpan(issue, today));
      WeekdaysOnlySet(cal, k', RemainingSpan(issue, today));
      assert RemainingSpan(issue, today) == RemainingSpan(issue', today);
      assert WorkdaysLeft(WeekdaysOnly, cal, issue, today) == WorkdaysLeft(WeekdaysOnly, cal, issue', today);
    }
    assert HoursPerWorkday(WeekdaysOnly, cal, issue, today) == HoursPerWorkday(WeekdaysOnly, cal, issue', today);
    LegacyRecordsIgnoreAssignee(cal, issue, span, today, other);
    WeekdaysOnlySet(cal, k, Span(today, span.last));
    WeekdaysOnlySet(cal, k', Span(today, span.last));
    LegacyFirstIgnoresKey(cal, k, k', Span(today, span.last));
    assert Placement(WeekdaysOnly, cal, issue, span, today) == Placement(WeekdaysOnly, cal, issue', span, today);
    assert RemainingHours(issue) == RemainingHours(issue');
    assert PastDue(issue, today) == PastDue(issue', today);
  }

  /** Under the weekdays-only calendar the day records do not depend on the assignee. */
  lemma LegacyRecordsIgnoreAssignee(cal: CalendarData, issue: Issue, span: Span, today: Date, other: Option<Principal>)
    requires HoursPerWorkday(WeekdaysOnly, cal, issue, today) == HoursPerWorkday(WeekdaysOnly, cal, issue.(assignedTo := other), today)
    ensures SpanRecords(WeekdaysOnly, cal, issue, span, today) == SpanRecords(WeekdaysOnly, cal, issue.(assignedTo := other), span, today)
  {
    var issue' := issue.(assignedTo := other);
    var pw := HoursPerWorkday(WeekdaysOnly, cal, issue, today);
    forall d | d in span.Days()
      ensures SpanRecords(WeekdaysOnly, cal, issue, span, today)[d] == SpanRecords(WeekdaysOnly, cal, issue', span, today)[d]
    {
      var hol := !IsWorkingDay(WeekdaysOnly, cal, CalendarKeyOf(issue.assignedTo), d);
      assert hol == !IsWorkingDay(WeekdaysOnly, cal, CalendarKeyOf(other), d);
      assert DayRecord(issue, today, pw, hol, d) == DayRecord(issue', today, pw, hol, d);
    }
  }

  /** Two keys with the same working days have the same first working day. */
  lemma LegacyFirstIgnoresKey(cal: CalendarData, k: AssigneeKey, k': AssigneeKey, span: Span)
    requires WorkingDaySet(WeekdaysOnly, cal, k, span) == WorkingDaySet(WeekdaysOnly, cal, k', span)
    ensures FirstWorkingDay(WeekdaysOnly, cal, k, span) == FirstWorkingDay(WeekdaysOnly, cal, k', span)
  {
    var a := FirstWorkingDay(WeekdaysOnly, cal, k, span);
    var b := FirstWorkingDay(WeekdaysOnly, cal, k', span);
    if a.Some? && b.Some? {
      assert a.value <= b.value && b.value <= a.value;
    }
  }
}
