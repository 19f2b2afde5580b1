/**
 * The working-day calendar shared by every revision of the date tools:
 * enabled weekdays, national holidays, user vacations, and the set of
 * working days of a range of days.
 */
module Calendar {
  import opened Dates

  /**
   * The plugin settings `general_workday_monday` .. `general_workday_sunday`,
   * keyed here by the cwday they govern.  A weekday whose key is absent reads
   * as Ruby's `nil`.
   */
  type WeekdaySettings = map<int, string>

  /** `setting != ''`: a weekday is enabled unless its setting is the empty string (an absent one, nil, enables it). */
  predicate WeekdayEnabled(settings: WeekdaySettings, w: int) {
    !(w in settings && settings[w] == "")
  }

  /** The cwday numbers 1..7 whose setting enables the weekday. */
  function EnabledWeekdays(settings: WeekdaySettings): (r: set<int>)
    ensures forall w :: w in r ==> 1 <= w <= 7
  {
    set w | 1 <= w <= 7 && WeekdayEnabled(settings, w)
  }

  /** `working_days` / `getWorkingDays`: one test per weekday, each adding its cwday to the set. */
  method WorkingDays(settings: WeekdaySettings) returns (result: set<int>)
    ensures forall w :: w in result <==> 1 <= w <= 7 && WeekdayEnabled(settings, w)
    ensures result == EnabledWeekdays(settings)
  {
    result := {};
    if WeekdayEnabled(settings, 1) { result := result + {1}; }
    if WeekdayEnabled(settings, 2) { result := result + {2}; }
    if WeekdayEnabled(settings, 3) { result := result + {3}; }
    if WeekdayEnabled(settings, 4) { result := result + {4}; }
    if WeekdayEnabled(settings, 5) { result := result + {5}; }
    if WeekdayEnabled(settings, 6) { result := result + {6}; }
    if WeekdayEnabled(settings, 7) { result := result + {7}; }
  }

  /** A `WlNationalHoliday` record: the days `start..end`. */
  datatype Holiday = Holiday(start: Date, end: Date)

  /** A `WlUserVacation` record: user `userId` is away on the days `dateFrom..dateTo`. */
  datatype Vacation = Vacation(userId: int, dateFrom: Date, dateTo: Date)

  /** Everything the calendar reads: the weekday settings and the holiday and vacation tables. */
  datatype CalendarData = CalendarData(settings: WeekdaySettings, holidays: seq<Holiday>, vacations: seq<Vacation>)

  /**
   * Whose calendar is asked for: everybody (`'all'`, or no assignee), a user
   * or a group, by id.  Redmine keeps users and groups in one table, so their
   * ids never collide.
   */
  datatype AssigneeKey = All | UserId(id: int) | GroupId(id: int)

  /**
   * Which days each revision of the date tools takes out of a range:
   * `WlDateTools` removes holidays and the vacations of a user;
   * `DateTools` removes holidays and the vacations recorded under any id
   * other than 'all'; the oldest `DateTools` only looks at weekdays.
   */
  datatype Rule = HolidaysAndUserVacations | HolidaysAndIdVacations | WeekdaysOnly

  /** `holiday?` / `IsHoliday`: some holiday interval contains the day, both bounds included. */
  function IsHoliday(holidays: seq<Holiday>, day: Date): (r: bool)
    ensures r <==> exists i :: 0 <= i < |holidays| && holidays[i].start <= day <= holidays[i].end
  {
    if holidays == [] then false
    else (holidays[0].start <= day <= holidays[0].end) || IsHoliday(holidays[1..], day)
  }

  /** Some vacation of the given id contains the day, both bounds included. */
  function OnVacation(vacations: seq<Vacation>, id: int, day: Date): (r: bool)
    ensures r <==> exists i :: 0 <= i < |vacations| && vacations[i].userId == id
                                && vacations[i].dateFrom <= day <= vacations[i].dateTo
  {
    if vacations == [] then false
    else (vacations[0].userId == id && vacations[0].dateFrom <= day <= vacations[0].dateTo)
         || OnVacation(vacations[1..], id, day)
  }

  /** `vacation?` (users only) and `IsVacation` (any id but 'all'); the oldest revision has none. */
  predicate IsVacation(rule: Rule, vacations: seq<Vacation>, key: AssigneeKey, day: Date) {
    match rule
    case HolidaysAndUserVacations => key.UserId? && OnVacation(vacations, key.id, day)
    case HolidaysAndIdVacations => !key.All? && OnVacation(vacations, key.id, day)
    case WeekdaysOnly => false
  }

  /** A day is a working day: no vacation, no holiday (where the rule looks at holidays), and an enabled weekday. */
  predicate IsWorkingDay(rule: Rule, cal: CalendarData, key: AssigneeKey, day: Date) {
    && !IsVacation(rule, cal.vacations, key, day)
    && (rule.WeekdaysOnly? || !IsHoliday(cal.holidays, day))
    && WeekdayEnabled(cal.settings, CwDay(day))
  }

  /** The working days of a range: the value `working_days_in_time_span` computes. */
  function WorkingDaySet(rule: Rule, cal: CalendarData, key: AssigneeKey, span: Span): (r: set<Date>)
    ensures r <= span.Days()
    ensures span.IsEmpty() ==> r == {}
  {
    set d | span.first <= d <= span.last && IsWorkingDay(rule, cal, key, d)
  }

  /** The loop of `working_days_in_time_span` over the days of the range. */
  method CollectWorkingDays(rule: Rule, cal: CalendarData, key: AssigneeKey, span: Span) returns (result: set<Date>)
    ensures result == WorkingDaySet(rule, cal, key, span)
  {
    var working := WorkingDays(cal.settings);
    result := {};
    var day := span.first;
    while day <= span.last
      invariant span.first <= day && (day <= span.last + 1 || day == span.first)
      invariant result == WorkingDaySet(rule, cal, key, Span(span.first, day - 1))
      decreases span.last - day
    {
      if IsVacation(rule, cal.vacations, key, day) {
      } else if !rule.WeekdaysOnly? && IsHoliday(cal.holidays, day) {
      } else if CwDay(day) in working {
        result := result + {day};
      }
      day := day + 1;
    }
  }

  /** The working days of a non-empty range: its first day (when it works) and the working days of the rest. */
  lemma WorkingDaySetSplit(rule: Rule, cal: CalendarData, key: AssigneeKey, span: Span)
    requires !span.IsEmpty()
    ensures WorkingDaySet(rule, cal, key, span)
         == (if IsWorkingDay(rule, cal, key, span.first) then {span.first} else {})
            + WorkingDaySet(rule, cal, key, Span(span.first + 1, span.last))
  {
  }

  /** `real_distance_in_days` never exceeds the number of days of the range. */
  lemma WorkingDayCountBound(rule: Rule, cal: CalendarData, key: AssigneeKey, span: Span)
    ensures |WorkingDaySet(rule, cal, key, span)| <= span.Length()
  {
    DaysCardinality(span);
    SubsetCardinality(WorkingDaySet(rule, cal, key, span), span.Days());
  }

  lemma {:induction false} SubsetCardinality<T>(a: set<T>, b: set<T>)
    requires a <= b
    ensures |a| <= |b|
    decreases |b|
  {
    if a != {} {
      var x :| x in a;
      SubsetCardinality(a - {x}, b - {x});
    }
  }

  /** A day inside a holiday interval is never a working day, whatever the assignee (for the rules that look at holidays). */
  lemma HolidayExcluded(rule: Rule, cal: CalendarData, key: AssigneeKey, span: Span, i: int, day: Date)
    requires !rule.WeekdaysOnly?
    requires 0 <= i < |cal.holidays| && cal.holidays[i].start <= day <= cal.holidays[i].end
    ensures day !in WorkingDaySet(rule, cal, key, span)
  {
  }

  /** Both bounds of a holiday interval are holidays; the days just outside it are holidays only through another interval. */
  lemma {:induction false} HolidayBoundsInclusive(holidays: seq<Holiday>, i: int)
    requires 0 <= i < |holidays| && holidays[i].start <= holidays[i].end
    ensures IsHoliday(holidays, holidays[i].start) && IsHoliday(holidays, holidays[i].end)
    ensures IsHoliday([holidays[i]], holidays[i].start - 1) == false
    ensures IsHoliday([holidays[i]], holidays[i].end + 1) == false
  {
  }

  /** A vacation removes its days from a user's working days, both bounds included. */
  lemma VacationExcluded(rule: Rule, cal: CalendarData, u: int, span: Span, i: int, day: Date)
    requires !rule.WeekdaysOnly?
    requires 0 <= i < |cal.vacations| && cal.vacations[i].userId == u
    requires cal.vacations[i].dateFrom <= day <= cal.vacations[i].dateTo
    ensures day !in WorkingDaySet(rule, cal, UserId(u), span)
  {
  }

  /**
   * Vacations only count where the rule says so: never for 'all', never for
   * a group under `WlDateTools`, never in the oldest revision.
   */
  lemma VacationsIgnored(rule: Rule, cal: CalendarData, key: AssigneeKey, span: Span)
    requires key.All? || (rule.HolidaysAndUserVacations? && key.GroupId?) || rule.WeekdaysOnly?
    ensures WorkingDaySet(rule, cal, key, span) == WorkingDaySet(rule, cal.(vacations := []), key, span)
  {
  }

  /** The oldest revision keeps exactly the days of the range on enabled weekdays, for every assignee. */
  lemma WeekdaysOnlySet(cal: CalendarData, key: AssigneeKey, span: Span)
    ensures WorkingDaySet(WeekdaysOnly, cal, key, span)
         == set d | span.first <= d <= span.last && CwDay(d) in EnabledWeekdays(cal.settings)
  {
  }
}
