/**
 * The oldest `DateTools` (lib/dateTools.rb): weekdays only, memoised in a
 * class-level Hash keyed by the range.  The Hash is a `WorkingDayCache` of
 * its own whose keys all carry the assignee `All`.
 */
module LegacyDateTools {
  import opened Dates
  import opened Calendar
  import opened DayCache

  const LegacyRule: Rule := WeekdaysOnly

  /**
   * `getWorkingDaysInTimespan(timeSpan, noCache)`: a stored set is returned as
   * it is unless `noCache`, even when the settings changed since; otherwise
   * the set is recomputed and overwrites the entry of this range only.
   */
  method GetWorkingDaysInTimespan(cache: WorkingDayCache, settings: WeekdaySettings, span: Span, noCache: bool)
    returns (result: set<Date>)
    modifies cache
    ensures !noCache && CacheKey(All, span) in old(cache.entries) ==>
      result == old(cache.entries)[CacheKey(All, span)] && cache.entries == old(cache.entries)
    ensures noCache || CacheKey(All, span) !in old(cache.entries) ==>
      && result == WorkingDaySet(LegacyRule, CalendarData(settings, [], []), All, span)
      && cache.entries == old(cache.entries)[CacheKey(All, span) := result]
    ensures result == cache.entries[CacheKey(All, span)]
    ensures forall k :: k != CacheKey(All, span) ==> (k in cache.entries <==> k in old(cache.entries))
    ensures forall k :: k != CacheKey(All, span) && k in old(cache.entries) ==> cache.entries[k] == old(cache.entries)[k]
  {
    var k := CacheKey(All, span);
    if k in cache.entries && !noCache {
      return cache.entries[k];
    }
    var working := WorkingDays(settings);
    result := {};
    var day := span.first;
    while day <= span.last
      invariant span.first <= day && (day <= span.last + 1 || day == span.first)
      invariant result == WorkingDaySet(LegacyRule, CalendarData(settings, [], []), All, Span(span.first, day - 1))
      decreases span.last - day
    {
      if CwDay(day) in working {
        result := result + {day};
      }
      day := day + 1;
    }
    cache.Store(k, result);
  }

  /** `getRealDistanceInDays(timeSpan)`. */
  method GetRealDistanceInDays(cache: WorkingDayCache, cal: CalendarData, span: Span)
    returns (n: nat)
    requires cache.Consistent(LegacyRule, cal)
    modifies cache
    ensures cache.Consistent(LegacyRule, cal)
    ensures n == |WorkingDaySet(LegacyRule, cal, All, span)| && n <= span.Length()
  {
    var days := GetWorkingDaysInTimespan(cache, cal.settings, span, false);
    LegacyCalendarIgnoresTables(cal, All, span);
    WorkingDayCountBound(LegacyRule, cal, All, span);
    n := |days|;
  }

  /** The weekday rule reads the settings only: holidays, vacations and the assignee change nothing. */
  lemma LegacyCalendarIgnoresTables(cal: CalendarData, key: AssigneeKey, span: Span)
    ensures WorkingDaySet(LegacyRule, cal, key, span) == WorkingDaySet(LegacyRule, CalendarData(cal.settings, [], []), All, span)
  {
  }
}
