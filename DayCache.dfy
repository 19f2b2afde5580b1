/**
 * The store behind the working-day lookups: Rails.cache for the two newer
 * revisions of the date tools, and the class-level Hash of the oldest one.
 * Both map a key to the working-day set computed for it; the expiry time of
 * Rails.cache is not part of this model.
 */
module DayCache {
  import opened Dates
  import opened Calendar

  /** `"#{assignee}/#{time_span}"`; the oldest revision keys by the range alone, which is the key `All`. */
  datatype CacheKey = CacheKey(assignee: AssigneeKey, span: Span)

  class WorkingDayCache {
    var entries: map<CacheKey, set<Date>>

    constructor()
      ensures entries == map[]
    {
      entries := map[];
    }

    /** Every stored set is the one the calendar gives for its key (it can go stale when the calendar data changes). */
    ghost predicate Consistent(rule: Rule, cal: CalendarData)
      reads this
    {
      forall k :: k in entries ==> entries[k] == WorkingDaySet(rule, cal, k.assignee, k.span)
    }

    /** `Rails.cache.clear`. */
    method Clear()
      modifies this
      ensures entries == map[]
    {
      entries := map[];
    }

    /** Writes one entry and leaves every other key as it was. */
    method Store(key: CacheKey, days: set<Date>)
      modifies this
      ensures entries == old(entries)[key := days]
    {
      entries := entries[key := days];
    }
  }
}
