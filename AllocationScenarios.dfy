/**
 * Two allocations from the repository's unit tests of
 * `ListUser#hours_for_issue_per_day`, stated about the model: Wednesday,
 * Saturday and Sunday are days off, there are no holidays or vacations and
 * nobody is assigned.  Days are numbered from 0001-01-01; 735017 is
 * Thursday, 2013-05-30.
 */
module AllocationScenarios {
  import opened Wrappers
  import opened Dates
  import opened Calendar
  import opened Issues
  import opened Allocation
  import opened DateTools

  const May30: Date := 735017
  const May31: Date := 735018
  const June1: Date := 735019
  const June2: Date := 735020
  const June3: Date := 735021
  const June4: Date := 735022

  /** `general_workday_*`: Monday, Tuesday, Thursday and Friday checked, the others ''. */
  const TestCalendar := CalendarData(map[1 := "checked", 2 := "checked", 3 := "", 4 := "checked", 5 := "checked", 6 := "", 7 := ""], [], [])

  /** Due on Saturday 2013-06-01, 100 hours estimated and 90 % done, no start date. */
  const OverdueIssue := Issue(1, None, 1, None, Some(June1), Some(100.0), 90, false, false, true)

  /**
   * Seen on Sunday 2013-06-02 over Thursday..Tuesday, the overdue issue puts
   * its 10 remaining hours on Monday, the first working day from today on,
   * and marks the days up to its due date active.
   */
  lemma OverdueOnFirstWorkingDay()
    ensures var r := Allocate(DtRule, TestCalendar, OverdueIssue, Span(May30, June4), June2);
            && r.undated.None?
            && (forall d :: d in r.days <==> May30 <= d <= June4)
            && r.days[May30] == DayInfo(0.0, true, false, false)
            && r.days[May31] == DayInfo(0.0, true, false, false)
            && r.days[June1] == DayInfo(0.0, true, false, true)
            && r.days[June2] == DayInfo(0.0, false, false, true)
            && r.days[June3] == DayInfo(10.0, false, false, false)
            && r.days[June4] == DayInfo(0.0, false, false, false)
  {
    var rest := Span(June2, June4);
    assert June3 in WorkingDaySet(DtRule, TestCalendar, All, rest);
    assert !IsWorkingDay(DtRule, TestCalendar, All, June2);
    var p := FirstWorkingDay(DtRule, TestCalendar, All, rest);
    assert p == Some(June3);
    assert Placement(DtRule, TestCalendar, OverdueIssue, Span(May30, June4), June2) == Some(June3);
    assert RemainingHours(OverdueIssue) == 10.0;
  }

  /** From Friday 2013-05-31 to Sunday 2013-06-02, 10 hours estimated, nothing done. */
  const ShortIssue := Issue(2, None, 1, Some(May31), Some(June2), Some(10.0), 0, false, false, true)

  /**
   * Seen on Friday over Friday..Monday, the issue has one working day left,
   * which gets all 10 hours; the weekend is active without hours and Monday,
   * after the due date, is inactive.
   */
  lemma ScheduledOnSingleWorkingDay()
    ensures var r := Allocate(DtRule, TestCalendar, ShortIssue, Span(May31, June3), May31);
            && r.undated.None?
            && (forall d :: d in r.days <==> May31 <= d <= June3)
            && r.days[May31] == DayInfo(10.0, true, false, false)
            && r.days[June1] == DayInfo(0.0, true, false, true)
            && r.days[June2] == DayInfo(0.0, true, false, true)
            && r.days[June3] == DayInfo(0.0, false, false, false)
  {
    var left := WorkingDaySet(DtRule, TestCalendar, All, Span(May31, June2));
    assert left == {May31} by {
      assert May31 in left;
      forall d | d in left
        ensures d == May31
      {
        assert d == May31 || d == June1 || d == June2;
        assert !IsWorkingDay(DtRule, TestCalendar, All, June1);
        assert !IsWorkingDay(DtRule, TestCalendar, All, June2);
      }
    }
    assert RemainingSpan(ShortIssue, May31) == Span(May31, June2);
    assert WorkdaysLeft(DtRule, TestCalendar, ShortIssue, May31) == 1;
    assert RemainingHours(ShortIssue) == 10.0;
    assert HoursPerWorkday(DtRule, TestCalendar, ShortIssue, May31) == 10.0;
  }
}
