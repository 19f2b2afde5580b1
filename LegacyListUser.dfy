/**
 * The oldest `ListUser` (lib/list_user.rb): the per-issue maps grouped by
 * assignee, the month list of a range, the totals per user and the
 * redaction of the invisible issues.  Its calendar looks at weekdays only
 * and ignores the assignee.
 */
module LegacyListUser {
  import opened Wrappers
  import opened Dates
  import opened Calendar
  import opened DayCache
  import opened Issues
  import opened Allocation
  import opened Summaries
  import opened LegacyDateTools
  import AllocationLemmas

  /** The hash of one assignee: an issue's per-day map under the issue. */
  type UserHours = map<Issue, IssueHours>

  /** `getHoursPerUserIssueAndDay`'s result, keyed by `issue.assigned_to`. */
  type HourMap = map<Option<Principal>, UserHours>

  /** `getHoursForIssuesPerDay`: the allocator on the weekdays-only calendar. */
  method GetHoursForIssuesPerDay(cache: WorkingDayCache, cal: CalendarData, issue: Issue, span: Span, today: Date)
    returns (result: IssueHours)
    requires cache.Consistent(LegacyRule, cal)
    modifies cache
    ensures cache.Consistent(LegacyRule, cal)
    ensures result == Allocate(LegacyRule, cal, issue, span, today)
  {
    result := HoursForIssuePerDay(LegacyRule, cache, cal, issue, span, today);
  }

  // ---------------------------------------------------------------------
  // Grouping

  /** Every issue sits under its own assignee with its own map, and nothing else is there. */
  ghost predicate PlacedUnderAssignee(cal: CalendarData, span: Span, today: Date, issues: seq<Issue>, result: HourMap)
  {
    && KeyedByAssignees(issues, result)
    && EachPlaced(cal, span, today, issues, result)
    && OnlyTheirIssues(issues, result)
  }

  /** One key per assignee of the issues. */
  predicate KeyedByAssignees(issues: seq<Issue>, result: HourMap) {
    result.Keys == (set x | x in issues :: x.assignedTo)
  }

  /** Each issue's map sits under its assignee. */
  ghost predicate EachPlaced(cal: CalendarData, span: Span, today: Date, issues: seq<Issue>, result: HourMap)
  {
    forall x :: x in issues ==>
      x.assignedTo in result && x in result[x.assignedTo] && result[x.assignedTo][x] == Allocate(LegacyRule, cal, x, span, today)
  }

  /** An assignee's hash holds only that assignee's issues. */
  predicate OnlyTheirIssues(issues: seq<Issue>, result: HourMap) {
    forall a, y :: a in result && y in result[a] ==> y in issues && y.assignedTo == a
  }

  /** `getHoursPerUserIssueAndDay` (past the query): each issue placed once, under its assignee. */
  method GetHoursPerUserIssueAndDay(cache: WorkingDayCache, cal: CalendarData, issues: seq<Issue>, span: Span, today: Date)
    returns (result: HourMap)
    requires cache.Consistent(LegacyRule, cal)
    modifies cache
    ensures cache.Consistent(LegacyRule, cal)
    ensures PlacedUnderAssignee(cal, span, today, issues, result)
  {
    result := map[];
    var i := 0;
    while i < |issues|
      invariant 0 <= i <= |issues|
      invariant cache.Consistent(LegacyRule, cal)
      invariant PlacedUnderAssignee(cal, span, today, issues[..i], result)
    {
      var x := issues[i];
      assert x in issues;
      assert issues[..i + 1] == issues[..i] + [x];
      PlaceStep(cal, span, today, issues[..i], x, result, Allocate(LegacyRule, cal, x, span, today));
      result := PlaceIssue(cache, cal, result, x, span, today);
      i := i + 1;
    }
    assert issues[..i] == issues;
  }

  /** What one step of that loop makes of the hash. */
  function Place(before: HourMap, x: Issue, hours: IssueHours): HourMap {
    before[x.assignedTo := (if x.assignedTo in before then before[x.assignedTo] else map[])[x := hours]]
  }

  /** The body of that loop: the assignee's hash created when missing, then the issue's map put in it. */
  method PlaceIssue(cache: WorkingDayCache, cal: CalendarData, result: HourMap, x: Issue, span: Span, today: Date)
    returns (r: HourMap)
    requires cache.Consistent(LegacyRule, cal)
    modifies cache
    ensures cache.Consistent(LegacyRule, cal)
    ensures r == Place(result, x, Allocate(LegacyRule, cal, x, span, today))
  {
    r := result;
    if x.assignedTo !in r {
      r := r[x.assignedTo := map[]];
    }
    var hours := GetHoursForIssuesPerDay(cache, cal, x, span, today);
    r := r[x.assignedTo := r[x.assignedTo][x := hours]];
  }

  lemma PlaceStep(cal: CalendarData, span: Span, today: Date, done: seq<Issue>, x: Issue, before: HourMap, hours: IssueHours)
    requires PlacedUnderAssignee(cal, span, today, done, before)
    requires hours == Allocate(LegacyRule, cal, x, span, today)
    ensures PlacedUnderAssignee(cal, span, today, done + [x], Place(before, x, hours))
  {
    PlaceKeys(done, x, before, hours);
    PlaceEach(cal, span, today, done, x, before, hours);
    PlaceOnly(done, x, before, hours);
  }

  lemma PlaceKeys(done: seq<Issue>, x: Issue, before: HourMap, hours: IssueHours)
    requires KeyedByAssignees(done, before)
    ensures KeyedByAssignees(done + [x], Place(before, x, hours))
  {
    assert (set y | y in done + [x] :: y.assignedTo) == (set y | y in done :: y.assignedTo) + {x.assignedTo};
  }

  lemma PlaceEach(cal: CalendarData, span: Span, today: Date, done: seq<Issue>, x: Issue, before: HourMap, hours: IssueHours)
    requires EachPlaced(cal, span, today, done, before)
    requires hours == Allocate(LegacyRule, cal, x, span, today)
    ensures EachPlaced(cal, span, today, done + [x], Place(before, x, hours))
  {
    var after := Place(before, x, hours);
    forall y | y in done + [x]
      ensures y.assignedTo in after && y in after[y.assignedTo] && after[y.assignedTo][y] == Allocate(LegacyRule, cal, y, span, today)
    {
      if y != x {
        assert y in done;
      }
    }
  }

  lemma PlaceOnly(done: seq<Issue>, x: Issue, before: HourMap, hours: IssueHours)
    requires OnlyTheirIssues(done, before)
    ensures OnlyTheirIssues(done + [x], Place(before, x, hours))
  {
    var after := Place(before, x, hours);
    forall a, y | a in after && y in after[a] ensures y in done + [x] && y.assignedTo == a {
      if y != x {
        assert a in before && y in before[a];
      }
    }
  }

  /** Every per-day map of the grouped result covers the whole range. */
  lemma GroupedCoversSpan(cal: CalendarData, span: Span, today: Date, issues: seq<Issue>, result: HourMap)
    requires PlacedUnderAssignee(cal, span, today, issues, result)
    ensures CoversSpan(result, span)
  {
    forall a, x | a in result && x in result[a] ensures span.Days() <= result[a][x].days.Keys {
      AllocationLemmas.AllocationCoversSpan(LegacyRule, cal, x, span, today);
    }
  }

  // ---------------------------------------------------------------------
  // Months

  /** The month list from the first of the month `cur` up to the first of the month `stop`. */
  function FirstsFrom(cur: Date, stop: Date): seq<Date>
    decreases stop - cur
  {
    if stop < cur then [] else [cur] + FirstsFrom(BeginningOfNextMonth(cur), stop)
  }

  /** From the first of month `k` to the first of month `n`: one entry per month. */
  lemma {:induction false} FirstsFromLength(k: int, n: int)
    ensures |FirstsFrom(MonthStart(k), MonthStart(n))| == if n < k then 0 else n - k + 1
    decreases n - k
  {
    MonthStartOrder(k, n);
    if k <= n {
      MonthIndexStart(k);
      FirstsFromLength(k + 1, n);
    }
  }

  /** Entry `i` of the list from the first of month `k` is the first of month `k + i`. */
  lemma {:induction false} FirstsFromEntry(k: int, n: int, i: int)
    requires 0 <= i < |FirstsFrom(MonthStart(k), MonthStart(n))|
    ensures FirstsFrom(MonthStart(k), MonthStart(n))[i] == MonthStart(k + i)
    decreases i
  {
    MonthIndexStart(k);
    var rest := FirstsFrom(MonthStart(k + 1), MonthStart(n));
    assert FirstsFrom(MonthStart(k), MonthStart(n)) == [MonthStart(k)] + rest;
    if i > 0 {
      FirstsFromEntry(k + 1, n, i - 1);
    }
  }

  /** A later day never lies in an earlier month. */
  lemma MonthIndexMonotone(d: Date, e: Date)
    requires d <= e
    ensures MonthIndexOf(d) <= MonthIndexOf(e)
  {
    var m, n := MonthIndexOf(d), MonthIndexOf(e);
    if n < m {
      MonthStartMonotone(n, m);
    }
  }

  lemma FirstOfMonthIsStart(d: Date)
    ensures FirstOfMonth(d) == MonthStart(MonthIndexOf(d))
  {
  }

  /** `r` holds the first day of each month from month `m` to month `n`, in order. */
  predicate MonthFirsts(r: seq<Date>, m: int, n: int) {
    && |r| == n - m + 1
    && forall i :: 0 <= i < |r| ==> r[i] == MonthStart(m + i)
  }

  /** The month list from the first of month `m` to the first of month `n`: one first day per month, in order. */
  lemma FirstsOfMonths(m: int, n: int)
    requires m <= n
    ensures MonthFirsts(FirstsFrom(MonthStart(m), MonthStart(n)), m, n)
  {
    FirstsFromLength(m, n);
    forall i | 0 <= i < n - m + 1 ensures FirstsFrom(MonthStart(m), MonthStart(n))[i] == MonthStart(m + i) {
      FirstsFromEntry(m, n, i);
    }
  }

  /** `getMonthsInTimespan`: the first day of every month from the month of the first day to the month of the last. */
  method GetMonthsInTimespan(span: Span) returns (result: seq<Date>)
    ensures span.IsEmpty() ==> result == []
    ensures !span.IsEmpty() ==> MonthFirsts(result, MonthIndexOf(span.first), MonthIndexOf(span.last))
  {
    if span.IsEmpty() {
      return [];
    }
    var firstOfCurrentMonth := FirstOfMonth(span.first);
    var firstOfLastMonth := FirstOfMonth(span.last);
    ghost var start := firstOfCurrentMonth;
    result := [];
    while firstOfCurrentMonth <= firstOfLastMonth
      invariant result + FirstsFrom(firstOfCurrentMonth, firstOfLastMonth) == FirstsFrom(start, firstOfLastMonth)
      decreases firstOfLastMonth - firstOfCurrentMonth
    {
      ghost var rest := FirstsFrom(BeginningOfNextMonth(firstOfCurrentMonth), firstOfLastMonth);
      assert FirstsFrom(firstOfCurrentMonth, firstOfLastMonth) == [firstOfCurrentMonth] + rest;
      assert result + ([firstOfCurrentMonth] + rest) == (result + [firstOfCurrentMonth]) + rest;
      result := result + [firstOfCurrentMonth];
      firstOfCurrentMonth := BeginningOfNextMonth(firstOfCurrentMonth);
    }
    assert result == FirstsFrom(start, firstOfLastMonth);
    MonthIndexMonotone(span.first, span.last);
    FirstOfMonthIsStart(span.first);
    FirstOfMonthIsStart(span.last);
    FirstsOfMonths(MonthIndexOf(span.first), MonthIndexOf(span.last));
  }

  /** The first day of month `k` lies in month `k`, and the first of the next month is the first of month `k + 1`. */
  lemma MonthIndexStart(k: int)
    ensures MonthIndexOf(MonthStart(k)) == k
    ensures BeginningOfNextMonth(MonthStart(k)) == MonthStart(k + 1)
  {
    MonthStartStep(k);
    MonthIndexUnique(MonthStart(k), k);
  }

  /** Month starts grow with the month number, so the month of a first day is fixed by its position. */
  lemma MonthStartOrder(k: int, j: int)
    ensures MonthStart(k) <= MonthStart(j) <==> k <= j
  {
    MonthStartStep(k);
    MonthStartStep(j);
    if k < j {
      MonthStartMonotone(k, j);
    } else if j < k {
      MonthStartMonotone(j, k);
    }
  }

  /** Consecutive entries of the month list are one month apart: each is a first of the month, the next the first of the following one. */
  lemma MonthsConsecutive(first: int, months: seq<Date>, i: int)
    requires forall i :: 0 <= i < |months| ==> months[i] == MonthStart(first + i)
    requires 0 <= i < |months| - 1
    ensures months[i] < months[i + 1]
    ensures months[i + 1] == months[i] + MonthLength(MonthIndexOf(months[i]))
    ensures FirstOfMonth(months[i]) == months[i]
    ensures MonthIndexOf(months[i + 1]) == MonthIndexOf(months[i]) + 1
  {
    var k := first + i;
    MonthStartStep(k);
    MonthStartStep(k + 1);
    MonthIndexUnique(months[i], k);
    MonthIndexUnique(months[i + 1], k + 1);
  }

  /** `getDaysInMonth`: the day number of the end of the day's month, which is the length of that month. */
  function GetDaysInMonth(d: Date): (n: int)
    ensures n == MonthLength(MonthIndexOf(d))
    ensures 28 <= n <= 31
  {
    var k := MonthIndexOf(d);
    MonthStartStep(k);
    MonthIndexUnique(EndOfMonth(d), k);
    DayOfMonth(EndOfMonth(d))
  }

  // ---------------------------------------------------------------------
  // Sums over the issues of a user

  /** The hours an issue's map holds on a day (the maps handled here hold every day of the range). */
  function DayHours(h: IssueHours, day: Date): real {
    if day in h.days then h.days[day].hours else 0.0
  }

  /** The hours the issues `keys` of a user hold on a day, in any order. */
  ghost function HoursSum(info: UserHours, keys: set<Issue>, day: Date): real
    requires keys <= info.Keys
    decreases keys
  {
    if keys == {} then 0.0
    else
      var x :| x in keys;
      DayHours(info[x], day) + HoursSum(info, keys - {x}, day)
  }

  /** The sum does not depend on the order: any issue can be taken out first. */
  lemma {:induction false} HoursSumRemove(info: UserHours, keys: set<Issue>, y: Issue, day: Date)
    requires keys <= info.Keys && y in keys
    ensures HoursSum(info, keys, day) == DayHours(info[y], day) + HoursSum(info, keys - {y}, day)
    decreases |keys|
  {
    var x :| x in keys && HoursSum(info, keys, day) == DayHours(info[x], day) + HoursSum(info, keys - {x}, day);
    if x != y {
      HoursSumRemove(info, keys - {x}, y, day);
      HoursSumRemove(info, keys - {y}, x, day);
      assert keys - {x} - {y} == keys - {y} - {x};
    }
  }

  /** The hours of two disjoint sets of issues add up. */
  lemma {:induction false} HoursSumSplit(info: UserHours, a: set<Issue>, b: set<Issue>, day: Date)
    requires a <= info.Keys && b <= info.Keys && a !! b
    ensures HoursSum(info, a + b, day) == HoursSum(info, a, day) + HoursSum(info, b, day)
    decreases |a|
  {
    if a == {} {
      assert a + b == b;
    } else {
      var y :| y in a;
      HoursSumRemove(info, a + b, y, day);
      HoursSumRemove(info, a, y, day);
      assert (a + b) - {y} == (a - {y}) + b;
      HoursSumSplit(info, a - {y}, b, day);
    }
  }

  /** The sum reads only the maps of the issues it adds. */
  lemma {:induction false} HoursSumSameMaps(info: UserHours, other: UserHours, keys: set<Issue>, day: Date)
    requires keys <= info.Keys && keys <= other.Keys
    requires forall x :: x in keys ==> info[x] == other[x]
    ensures HoursSum(info, keys, day) == HoursSum(other, keys, day)
    decreases |keys|
  {
    if keys != {} {
      var y :| y in keys;
      HoursSumRemove(info, keys, y, day);
      HoursSumRemove(other, keys, y, day);
      HoursSumSameMaps(info, other, keys - {y}, day);
    }
  }

  /** Every per-day map of the structure holds every day of the range. */
  predicate CoversSpan(hourData: HourMap, span: Span) {
    forall a, x :: a in hourData && x in hourData[a] ==> span.Days() <= hourData[a][x].days.Keys
  }

  /** The issues of a user that the current user may not see. */
  function Hidden(info: UserHours): set<Issue> {
    set x | x in info && !x.visible
  }

  /** A user's map with the invisible issues deleted. */
  function VisibleOnly(info: UserHours): (r: UserHours)
    ensures r.Keys == info.Keys - Hidden(info)
    ensures forall x :: x in r ==> r[x] == info[x]
  {
    map x | x in info && x.visible :: info[x]
  }

  /** The summary of a set of issues: day by day their hours, flagged holiday where the calendar has no working day. */
  ghost function SummaryOf(info: UserHours, keys: set<Issue>, span: Span, working: set<Date>): (r: Summary)
    requires keys <= info.Keys
    ensures r.Keys == span.Days()
  {
    map d | d in span.Days() :: DaySum(HoursSum(info, keys, d), d !in working)
  }

  /** The inner loop of `calculateTotalUserWorkloads`: the hours of all issues of a user on one day. */
  method DayTotal(info: UserHours, day: Date) returns (h: real)
    ensures h == HoursSum(info, info.Keys, day)
  {
    h := 0.0;
    var remaining := info.Keys;
    while remaining != {}
      invariant remaining <= info.Keys
      invariant h + HoursSum(info, remaining, day) == HoursSum(info, info.Keys, day)
      decreases remaining
    {
      var x :| x in remaining;
      HoursSumRemove(info, remaining, x, day);
      h := h + DayHours(info[x], day);
      remaining := remaining - {x};
    }
  }

  /** The day loop of `calculateTotalUserWorkloads` for one user. */
  method UserTotal(info: UserHours, span: Span, working: set<Date>) returns (t: Summary)
    requires forall x :: x in info ==> span.Days() <= info[x].days.Keys
    ensures t == SummaryOf(info, info.Keys, span, working)
  {
    t := map[];
    var day := span.first;
    while day <= span.last
      invariant span.first <= day && (day <= span.last + 1 || day == span.first)
      invariant t.Keys == Span(span.first, day - 1).Days()
      invariant forall d :: d in t ==> t[d] == DaySum(HoursSum(info, info.Keys, d), d !in working)
      decreases span.last - day
    {
      var h := DayTotal(info, day);
      t := t[day := DaySum(h, day !in working)];
      day := day + 1;
    }
    assert Span(span.first, day - 1).Days() == span.Days();
  }

  /** The totals `calculateTotalUserWorkloads` computes: per user, the summary of all its issues. */
  ghost function TotalWorkloads(hourData: HourMap, span: Span, working: set<Date>): map<Option<Principal>, Summary> {
    map u | u in hourData :: SummaryOf(hourData[u], hourData[u].Keys, span, working)
  }

  /** `calculateTotalUserWorkloads`: for every user and every day of the range, the hours of all its issues. */
  method CalculateTotalUserWorkloads(cache: WorkingDayCache, cal: CalendarData, hourData: HourMap, span: Span)
    returns (total: map<Option<Principal>, Summary>)
    requires cache.Consistent(LegacyRule, cal)
    requires CoversSpan(hourData, span)
    modifies cache
    ensures cache.Consistent(LegacyRule, cal)
    ensures total == TotalWorkloads(hourData, span, WorkingDaySet(LegacyRule, cal, All, span))
  {
    var working := FetchWorkingDays(LegacyRule, cache, cal, span, All);
    total := map[];
    var remaining := hourData.Keys;
    while remaining != {}
      invariant remaining <= hourData.Keys
      invariant total.Keys == hourData.Keys - remaining
      invariant forall u :: u in total ==> total[u] == SummaryOf(hourData[u], hourData[u].Keys, span, working)
      invariant cache.Consistent(LegacyRule, cal)
      decreases remaining
    {
      var u :| u in remaining;
      var t := UserTotal(hourData[u], span, working);
      total := total[u := t];
      remaining := remaining - {u};
    }
  }

  // ---------------------------------------------------------------------
  // Redaction of the invisible issues

  /** One user's part of the redaction: the hours of its invisible issues summed, and those issues deleted. */
  method RedactUser(info: UserHours, span: Span, working: set<Date>) returns (summary: Summary, kept: UserHours)
    requires forall x :: x in info ==> span.Days() <= info[x].days.Keys
    ensures summary == SummaryOf(info, Hidden(info), span, working)
    ensures kept == VisibleOnly(info)
  {
    summary := ZeroFill(span, working);
    assert summary == SummaryOf(info, {}, span, working);
    kept := info;
    var remaining := info.Keys;
    while remaining != {}
      invariant remaining <= info.Keys
      invariant summary == SummaryOf(info, Hidden(info) - remaining, span, working)
      invariant kept.Keys == info.Keys - (Hidden(info) - remaining)
      invariant forall x :: x in kept ==> kept[x] == info[x]
      decreases remaining
    {
      var x :| x in remaining;
      if !x.visible {
        var done := Hidden(info) - remaining;
        SummaryOfAdd(info, done, x, span, working);
        summary := AddHours(summary, info[x].days, span, working);
        kept := kept - {x};
        assert Hidden(info) - (remaining - {x}) == done + {x};
      } else {
        assert Hidden(info) - (remaining - {x}) == Hidden(info) - remaining;
      }
      remaining := remaining - {x};
    }
    assert Hidden(info) - remaining == Hidden(info);
  }

  /** Adding one more issue's hours to the summary of a set of issues gives the summary of the larger set. */
  lemma SummaryOfAdd(info: UserHours, done: set<Issue>, x: Issue, span: Span, working: set<Date>)
    requires done <= info.Keys && x in info && x !in done
    requires span.Days() <= info[x].days.Keys
    ensures AddInfo(SummaryOf(info, done, span, working), info[x].days, span, working) == SummaryOf(info, done + {x}, span, working)
  {
    var before := SummaryOf(info, done, span, working);
    var after := AddInfo(before, info[x].days, span, working);
    var target := SummaryOf(info, done + {x}, span, working);
    forall d | d in span.Days() ensures after[d] == target[d] {
      HoursSumRemove(info, done + {x}, x, d);
      assert done + {x} - {x} == done;
    }
    assert after.Keys == target.Keys;
  }

  /** The hash `removeDataForInvisibleIssuesAndReturnSummary` works on, changed in place. */
  class HourData {
    var data: HourMap

    constructor(data: HourMap)
      ensures this.data == data
    {
      this.data := data;
    }

    /**
     * `removeDataForInvisibleIssuesAndReturnSummary`: returns per user the
     * hours of its invisible issues day by day, and deletes those issues
     * from the structure; the visible ones stay as they were.
     */
    method RemoveDataForInvisibleIssuesAndReturnSummary(cache: WorkingDayCache, cal: CalendarData, span: Span)
      returns (summary: map<Option<Principal>, Summary>)
      requires cache.Consistent(LegacyRule, cal)
      requires CoversSpan(data, span)
      modifies this, cache
      ensures cache.Consistent(LegacyRule, cal)
      ensures data.Keys == old(data).Keys
      ensures forall u :: u in data ==> data[u] == VisibleOnly(old(data)[u])
      ensures summary.Keys == old(data).Keys
      ensures forall u :: u in summary ==>
                summary[u] == SummaryOf(old(data)[u], Hidden(old(data)[u]), span, WorkingDaySet(LegacyRule, cal, All, span))
    {
      var working := FetchWorkingDays(LegacyRule, cache, cal, span, All);
      summary := map[];
      var remaining := data.Keys;
      while remaining != {}
        invariant remaining <= data.Keys
        invariant data.Keys == old(data).Keys
        invariant summary.Keys == data.Keys - remaining
        invariant forall u :: u in remaining ==> data[u] == old(data)[u]
        invariant forall u :: u in summary ==>
                    data[u] == VisibleOnly(old(data)[u]) && summary[u] == SummaryOf(old(data)[u], Hidden(old(data)[u]), span, working)
        invariant cache.Consistent(LegacyRule, cal)
        decreases remaining
      {
        var u :| u in remaining;
        var s, kept := RedactUser(data[u], span, working);
        summary := summary[u := s];
        data := data[u := kept];
        remaining := remaining - {u};
      }
    }
  }

  /** The redaction loses no hours: a user's total is the total of the issues kept plus the summary returned for the others. */
  lemma RedactionKeepsTotal(info: UserHours, span: Span, working: set<Date>, d: Date)
    requires span.Contains(d)
    ensures SummaryOf(info, info.Keys, span, working)[d].hours
         == SummaryOf(VisibleOnly(info), VisibleOnly(info).Keys, span, working)[d].hours
          + SummaryOf(info, Hidden(info), span, working)[d].hours
  {
    var kept := VisibleOnly(info);
    assert info.Keys == kept.Keys + Hidden(info);
    HoursSumSplit(info, kept.Keys, Hidden(info), d);
    HoursSumSameMaps(info, kept, kept.Keys, d);
  }

  /** After the redaction no invisible issue is left, and every visible one keeps its map. */
  lemma RedactedIsVisible(info: UserHours, x: Issue)
    ensures x in VisibleOnly(info) <==> x in info && x.visible
    ensures x in VisibleOnly(info) ==> VisibleOnly(info)[x] == info[x]
  {
  }
}
