/**
 * `DateTools`, the calendar of the `ListUser` engine.  The files
 * lib/redmine_workload/date_tools.rb and lib/date_tools.rb hold the same
 * working-day code, modelled once here; only the no-cache flag differs (a
 * keyword argument in one, a positional one in the other).  The first file
 * also has `months_in_timespan`, whose body is that of
 * `WlDateTools.MonthsInTimeSpan`.
 */
module DateTools {
  import opened Dates
  import opened Calendar
  import opened DayCache

  /** Holidays and the vacations recorded under the given id (none for 'all') are taken out of a range. */
  const DtRule: Rule := HolidaysAndIdVacations

  /** `getWorkingDaysInTimespan(timeSpan, user = 'all', no_cache)`: same caching as the current engine. */
  method GetWorkingDaysInTimespan(cache: WorkingDayCache, cal: CalendarData, span: Span, user: AssigneeKey, noCache: bool)
    returns (result: set<Date>)
    modifies cache
    ensures noCache || CacheKey(user, span) !in old(cache.entries) ==>
      && result == WorkingDaySet(DtRule, cal, user, span)
      && cache.entries == (if noCache then map[] else old(cache.entries))[CacheKey(user, span) := result]
    ensures !noCache && CacheKey(user, span) in old(cache.entries) ==>
      result == old(cache.entries)[CacheKey(user, span)] && cache.entries == old(cache.entries)
    ensures old(cache.Consistent(DtRule, cal)) ==>
      cache.Consistent(DtRule, cal) && result == WorkingDaySet(DtRule, cal, user, span)
  {
    if noCache {
      cache.Clear();
    }
    var k := CacheKey(user, span);
    if k in cache.entries {
      result := cache.entries[k];
    } else {
      result := CollectWorkingDays(DtRule, cal, user, span);
      cache.Store(k, result);
    }
  }

  /** `getRealDistanceInDays(timeSpan, assignee = 'all')`. */
  method GetRealDistanceInDays(cache: WorkingDayCache, cal: CalendarData, span: Span, assignee: AssigneeKey)
    returns (n: nat)
    requires cache.Consistent(DtRule, cal)
    modifies cache
    ensures cache.Consistent(DtRule, cal)
    ensures n == |WorkingDaySet(DtRule, cal, assignee, span)| && n <= span.Length()
  {
    var days := GetWorkingDaysInTimespan(cache, cal, span, assignee, false);
    WorkingDayCountBound(DtRule, cal, assignee, span);
    n := |days|;
  }

  /** With the default user 'all' no vacation is taken out, while holidays always are. */
  lemma AllHasNoVacation(cal: CalendarData, span: Span, d: Date)
    requires span.Contains(d)
    ensures d in WorkingDaySet(DtRule, cal, All, span)
        <==> !IsHoliday(cal.holidays, d) && WeekdayEnabled(cal.settings, CwDay(d))
  {
  }
}
