# Redmine Workload: the allocation engine in Dafny

This project models the workload allocation engine of the Redmine Workload
plugin. Given a range of days, it works out how many hours each assignee
has to work on each day, how much of that is overdue, how loaded a group is,
and which load class ('none', 'low', 'normal', 'high') a number of hours
falls into. Everything the engine reads from the database comes in as plain
data:
- the weekday settings;
- the national holiday and user vacation tables;
- the issues;
- the users' threshold records.

The engine has five parts, and the modules follow them.

1. **Working-day calendar.**
   - `Dates`: proleptic Gregorian day numbers, `cwday` and months.
   - `Calendar`: enabled weekdays, holidays, vacations, and the working-day set of a range.
   - `DayCache`: the memo of working-day sets.
   - `WlDateTools`, `DateTools` and `LegacyDateTools`: the three revisions of the date tools, including the month split.
2. **Per-issue allocator.**
   - `Issues`: issues, their assignees, `issue_overdue?` and the remaining hours.
   - `Allocation`: the three branches of `hours_for_issue_per_day`, as a specification function `Allocate` and as loop-based methods proved equal to it.
   - `AllocationLemmas`: what each branch writes, the holiday flags, where overdue hours go, and conservation of the remaining hours.
   - `AllocationScenarios`: two allocations from the unit tests.
3. **Per-assignee aggregation.**
   - `Summaries` and `SummaryLemmas`: `add_issue_info_to_summary` and the fold over one assignee's issues, with overdue hours and count, the daily total, the per-project buckets and the invisible summary.
   - `Grouping`: Ruby's `group_by(&:assigned_to)`.
   - `UserWorkload`: `UserWorkload#hours_per_user_issue_and_day`.
   - `ListUser`: the per-issue loop of `ListUser#hours_per_user_issue_and_day`, proved to give the same entries as the grouped engine.
   - `LegacyListUser`: the oldest `ListUser`, with its separate total and redaction passes.
4. **Group aggregation.**
   - `GroupWorkload`: a class holding the user workload, the selected users and groups, and the range.
   - It adds availabilities for selected users without issues, sorts the dummy first, partitions the members by main group, and sums hours, counters and thresholds per day.
5. **Capacity and load class.**
   - `Capacity`: `WlDayCapacity#threshold_at` with its memoised source, `GroupUserDummy#sum_up`, and both `load_class_for_hours` helpers.
   - `Scenarios`: the threshold and load-class cases of the unit tests.

Dates are integers (day 0 is Monday 0001-01-01), hours are `real`, and every
Ruby hash is a Dafny `map`. Where the Ruby builds a result step by step, the
model has a method with a loop. Each such method is proved equal to a
specification function, and the lemmas are stated about that function. The
working-day cache (`Rails.cache`, or the class-level `Hash` of the oldest
revision) is a class whose `entries` map the methods update. Its
`Consistent` invariant (every entry is the true working-day set) is what
lets a cached answer stand in for a computed one.

## Model

| member | source | states |
|---|---|---|
| Dates.CwDay | lib/redmine_workload/wl_date_tools.rb:39-40 | the weekday number of a day lies in 1..7 (1 is Monday) |
| Dates.DaysCardinality | lib/redmine_workload/wl_date_tools.rb:74-78 | a range first..last holds exactly last-first+1 days, and none when reversed |
| Dates.DaysInMonth | lib/list_user.rb:213-217 | a month has 28..31 days, and 29 exactly for February of a leap year |
| Dates.MonthLength | lib/list_user.rb:213-217 | the length of every month index lies in 28..31 |
| Dates.MonthIndexOf | lib/redmine_workload/wl_date_tools.rb:32 | every day lies in the month whose start is at or before it and whose successor starts after it |
| Dates.MonthIndexUnique | lib/redmine_workload/wl_date_tools.rb:32 | that month is unique |
| Dates.FirstOfMonth | lib/list_user.rb:199 | `beginning_of_month` lies in the same month, at most 30 days before |
| Dates.EndOfMonth | lib/redmine_workload/wl_date_tools.rb:23 | `end_of_month` lies in the same month, and the next day starts the next month |
| Dates.BeginningOfNextMonth | lib/redmine_workload/wl_date_tools.rb:32 | `beginning_of_month.next_month` is the first day of the following month |
| Dates.DayOfMonth | lib/list_user.rb:216 | the day of the month lies in 1..31 |
| Dates.DateOfMonth | lib/list_user.rb:216 | a civil date y-m-dd lies in month (y, m) and is its dd-th day |
| Calendar.EnabledWeekdays | lib/redmine_workload/wl_date_tools.rb:41-53 | the enabled weekdays are weekday numbers 1..7 |
| Calendar.WorkingDays | lib/redmine_workload/wl_date_tools.rb:41-53 | `working_days` contains exactly the weekdays 1..7 whose setting is not '' |
| Calendar.IsHoliday | lib/redmine_workload/wl_date_tools.rb:80-82 | a day is a holiday iff some holiday interval contains it, both bounds included |
| Calendar.OnVacation | lib/redmine_workload/wl_date_tools.rb:84-88 | a day is a vacation of an id iff some vacation of that id contains it, both bounds included |
| Calendar.WorkingDaySet | lib/redmine_workload/wl_date_tools.rb:63-69 | the working-day set is a subset of the range, and empty for an empty or reversed range |
| Calendar.CollectWorkingDays | lib/redmine_workload/wl_date_tools.rb:61-70 | the day-by-day loop collects exactly the days that are not a vacation, not a holiday and on an enabled weekday |
| Calendar.WorkingDaySetSplit | lib/redmine_workload/wl_date_tools.rb:63-69 | the working days of a range are its first day, if that is one, plus the working days of the rest |
| Calendar.WorkingDayCountBound | lib/redmine_workload/wl_date_tools.rb:74-78 | a range has at most as many working days as days |
| Calendar.HolidayExcluded | lib/redmine_workload/wl_date_tools.rb:65 | a day inside a holiday interval is never a working day (revisions that read holidays) |
| Calendar.HolidayBoundsInclusive | lib/redmine_workload/wl_date_tools.rb:81 | both ends of a holiday interval are holidays, and the days just outside it are not |
| Calendar.VacationExcluded | lib/redmine_workload/wl_date_tools.rb:64 | a day inside a vacation of a user is never a working day of that user |
| Calendar.VacationsIgnored | lib/redmine_workload/wl_date_tools.rb:84-88 | for 'all', for a group under the current engine, and in the oldest revision, vacations change nothing |
| Calendar.WeekdaysOnlySet | lib/dateTools.rb:27-35 | the oldest revision's working days are exactly the range's days on enabled weekdays |
| DayCache.WorkingDayCache.constructor | lib/dateTools.rb:20 | the cache starts empty |
| DayCache.WorkingDayCache.Clear | lib/redmine_workload/wl_date_tools.rb:58 | `Rails.cache.clear` empties the cache |
| DayCache.WorkingDayCache.Store | lib/redmine_workload/wl_date_tools.rb:60 | storing sets one key and changes no other entry |
| WlDateTools.WorkingDaysInTimeSpan | lib/redmine_workload/wl_date_tools.rb:55-72 | on a miss or with `no_cache`, the result is the working-day set and is stored under (assignee, range) after the clear; on a hit, the stored set is returned and the cache is unchanged; a consistent cache stays consistent and always gives the true set |
| WlDateTools.RealDistanceInDays | lib/redmine_workload/wl_date_tools.rb:74-78 | the distance is the size of the working-day set, so at most the number of days |
| WlDateTools.Min | lib/redmine_workload/wl_date_tools.rb:23 | `[a, b].min` is the lesser of the two |
| WlDateTools.PiecesFromContiguous | lib/redmine_workload/wl_date_tools.rb:22-34 | the pieces start at the range's first day, end at its last, and each starts the day after the previous one ends |
| WlDateTools.PiecesFromLength | lib/redmine_workload/wl_date_tools.rb:22-34 | there is one piece per month from the first day's month to the last day's |
| WlDateTools.PiecesFromAligned | lib/redmine_workload/wl_date_tools.rb:26-34 | piece i lies within the i-th month from the first day's month |
| WlDateTools.EndOfMonthIdempotent | lib/redmine_workload/wl_date_tools.rb:23 | `end_of_month` of an end of month is itself |
| WlDateTools.MonthsInTimeSpan | lib/redmine_workload/wl_date_tools.rb:16-37 | [] for an empty range, otherwise a contiguous month-aligned split with one piece per month; it also stands for `months_in_timespan` in lib/redmine_workload/date_tools.rb:11-32 and `ListUser#months_in_timespan` in lib/redmine_workload/list_user.rb:167-188, whose bodies are the same |
| WlDateTools.MonthSplitCovers | lib/redmine_workload/wl_date_tools.rb:16-37 | a day lies in the range iff it lies in some piece, and in at most one |
| WlDateTools.PiecesOrdered | lib/redmine_workload/wl_date_tools.rb:26-34 | the pieces are ordered, disjoint and inside the range |
| DateTools.GetWorkingDaysInTimespan | lib/redmine_workload/date_tools.rb:50-69 | the same caching contract as the current engine, under the key user/range |
| DateTools.GetRealDistanceInDays | lib/redmine_workload/date_tools.rb:71-75 | the distance is the size of the working-day set |
| DateTools.AllHasNoVacation | lib/redmine_workload/date_tools.rb:81-85 | for 'all' only holidays and disabled weekdays take days out |
| LegacyDateTools.GetWorkingDaysInTimespan | lib/dateTools.rb:22-40 | a cached entry is returned as is unless `noCache`; otherwise the enabled-weekday set is computed and overwrites the entry for the range; no other key changes |
| LegacyDateTools.GetRealDistanceInDays | lib/dateTools.rb:42-46 | the distance is the size of the working-day set |
| LegacyDateTools.LegacyCalendarIgnoresTables | lib/dateTools.rb:27-35 | the oldest calendar depends neither on the holiday and vacation tables nor on the assignee |
| Issues.CalendarKeyOf | app/models/user_workload.rb:177 | the calendar key is 'all' exactly when nobody is assigned, otherwise the user's or group's id |
| Issues.IssueOverdue | lib/redmine_workload/wl_issue_state.rb:9-11 | never overdue without a due date, when closed, or on or before the due date; overdue otherwise |
| Issues.OverdueMonotone | lib/redmine_workload/wl_issue_state.rb:10 | overdue at a date implies overdue at every later date |
| Issues.RemainingHours | app/models/user_workload.rb:283-290 | no hours without an estimate or with children |
| Issues.RemainingHoursBounds | app/models/user_workload.rb:289 | for a done ratio in 0..100, the remaining hours lie between 0 and the estimate: all of it at 0 %, nothing at 100 % |
| Issues.RemainingHoursMonotone | app/models/user_workload.rb:289 | more done never leaves more hours |
| Allocation.Max | app/models/user_workload.rb:238 | `[a, b].max` is the greater of the two |
| Allocation.FirstWorkingDay | app/models/user_workload.rb:199 | `.min` of the working days: None iff there are none, otherwise one of them that is at most all the others |
| Allocation.FetchWorkingDays | app/models/user_workload.rb:178 | the cached lookup of whichever revision gives the working-day set and keeps the cache consistent |
| Allocation.RealDistance | app/models/user_workload.rb:239 | the working days left to an issue are the size of its working-day set |
| Allocation.SetMin | app/models/user_workload.rb:199 | the minimum of a set of days is a member at most every other, and None for the empty set |
| Allocation.PastDueRecords | app/models/user_workload.rb:187-197 | the day loop of the overdue branch writes exactly the specified record for every day |
| Allocation.UndatedRecords | app/models/user_workload.rb:207-233 | the day loop of the branch without dates writes exactly the specified record for every day |
| Allocation.ScheduledRecords | app/models/user_workload.rb:242-270 | the day loop of the scheduled branch writes exactly the specified record for every day |
| Allocation.Allocate | app/models/user_workload.rb:171-274 | the specified allocation: every day of the range has a record, and hours go under nil exactly when an overdue issue has no working day between today and the range's end |
| Allocation.HoursForIssuePerDay | app/models/user_workload.rb:171-274 | the method returns the specified allocation `Allocate` and keeps the cache consistent |
| AllocationLemmas.AllocationCoversSpan | app/models/user_workload.rb:184-271 | every day of the range has a record; an issue that is not overdue has no other, and an overdue one adds at most a day between today and the range's end |
| AllocationLemmas.PastDueDays | app/models/user_workload.rb:187-197 | overdue branch: every other day has 0 hours, no estimate flag, and is active iff it is on or before the due date and the start is absent or not earlier |
| AllocationLemmas.PastDueUndated | app/models/user_workload.rb:199-201 | the hours go under the key nil exactly when no working day lies between today and the range's end |
| AllocationLemmas.PastDuePlacement | app/models/user_workload.rb:199-201 | otherwise the day of placement carries exactly the remaining hours |
| AllocationLemmas.PlacementIsEarliest | app/models/user_workload.rb:199 | that day is a working day between today and the range's end, and no earlier day from today is one |
| AllocationLemmas.UndatedBranch | app/models/user_workload.rb:206-233 | no hours; active iff the known date covers the day or both are missing; no-estimate iff active and not a holiday |
| AllocationLemmas.ScheduledBranch | app/models/user_workload.rb:236-271 | inactive outside start..due; active with no hours before today; from today, the hours per workday on working days and 0 on holidays, no-estimate iff unestimated on a working day |
| AllocationLemmas.HolidayFlags | app/models/user_workload.rb:178-195 | every record's holiday flag says the day is not in the assignee's working-day set |
| AllocationLemmas.EmptySpan | app/models/user_workload.rb:169 | an empty range gives no record unless the issue is overdue and today is not after the range's end |
| AllocationLemmas.SpreadDay | app/models/user_workload.rb:238-249 | a scheduled issue gives a day of the range the hours per workday iff the day is a working day in max(today, start)..due, and 0 otherwise |
| AllocationLemmas.Conservation | app/models/user_workload.rb:238-249 | when max(today, start)..due lies inside the range and holds at least one working day, the hours over the range add up to exactly the remaining hours |
| AllocationLemmas.NoWorkdayLeftUnseen | app/models/user_workload.rb:238-270 | with no working day left, every day from today to the due date is a holiday, so each record is the same whatever the hours per workday (the division by 0.0) are |
| AllocationLemmas.NoWorkdayLeftNoHours | app/models/user_workload.rb:238-270 | with no working day left, every day of the range gets 0 hours and nothing goes under nil: the remaining hours are lost |
| AllocationLemmas.LegacyIgnoresAssignee | lib/list_user.rb:59-66 | the oldest allocation does not depend on who the issue is assigned to |
| AllocationScenarios.OverdueOnFirstWorkingDay | test/unit/list_user_test.rb:410-476 | on the overdue test's inputs, the allocator's overdue branch (lib/redmine_workload/list_user.rb:304-321) yields 10 hours on Monday 2013-06-03, the records of the other days as the test expects |
| AllocationScenarios.ScheduledOnSingleWorkingDay | test/unit/list_user_test.rb:122-167 | on the scheduled test's inputs, the allocator's even spread (lib/redmine_workload/list_user.rb:356-392) puts all 10 hours on the only working day left, the weekend active without hours, Monday inactive |
| Summaries.FoldFrom | app/models/user_workload.rb:88-136 | the issue loop of one assignee, specified issue by issue; whatever fails raises NoMethodError |
| Summaries.AssigneeFold | app/models/user_workload.rb:66-137 | one assignee's entry, folded from the zero-filled start: no issues give that start, and a failure is a NoMethodError |
| Summaries.ZeroSummary | app/models/user_workload.rb:79-84 | the zero-filled total has exactly the days of the range |
| Summaries.AddHours | app/models/user_workload.rb:303-307 | the day loop adds the issue's hours to each day of the range, giving a missing day 0 hours and its calendar holiday flag first |
| Summaries.AddDay | app/models/user_workload.rb:304-306 | one day of that loop: a day missing from the summary starts at 0 hours with its calendar holiday flag, a present day keeps its flag, and the issue's hours are added; no other day changes |
| Summaries.AddIssueInfoToSummary | app/models/user_workload.rb:299-310 | as above, with the working days asked for 'all' |
| Summaries.ZeroFill | app/models/user_workload.rb:79-84 | the initial loop gives every day 0 hours and the holiday flag of the assignee's calendar |
| Summaries.FirstWorkingDayOnOrAfter | app/models/user_workload.rb:67 | the first working day from today on, or today if there is none |
| Summaries.AddIssueToEntry | app/models/user_workload.rb:91-97 | an overdue issue adds the hours of that day to overdue_hours and one to overdue_number; any other adds its hours to the total |
| Summaries.AddIssueToProject | app/models/user_workload.rb:102-130 | a visible issue creates its project bucket once, updates it the same way, and is stored in it |
| Summaries.AddIssue | app/models/user_workload.rb:88-136 | one issue's step of the fold, with an invisible non-overdue issue also summed into invisible |
| SummaryLemmas.NoHiddenNoHours | app/models/user_workload.rb:131-135 | without an invisible non-overdue issue the invisible hours are 0 |
| SummaryLemmas.AddInfoDay | app/models/user_workload.rb:299-310 | adding keeps the days, adds their union with the range, keeps existing holiday flags, sums the hours, and leaves days outside the range alone |
| SummaryLemmas.StepInvisible | app/models/user_workload.rb:131-135 | an issue changes the invisible summary iff it is invisible and not overdue |
| SummaryLemmas.FoldOverdue | app/models/user_workload.rb:92-94 | after the fold, overdue_number counts the overdue issues and overdue_hours sums their hours on the first working day |
| SummaryLemmas.FoldTotal | app/models/user_workload.rb:95-97 | the total of each day of the range gains the hours of the non-overdue issues only |
| SummaryLemmas.FoldInvisibleKeys | app/models/user_workload.rb:131-135 | the invisible summary gains the range's days only if some issue is invisible and not overdue |
| SummaryLemmas.FoldInvisible | app/models/user_workload.rb:133-134 | its hours per day are the hours of the invisible non-overdue issues |
| SummaryLemmas.FoldFailure | app/models/user_workload.rb:93 | the fold fails exactly when an overdue issue has no record on the first working day, and then with NoMethodError (`nil[:hours]`) |
| SummaryLemmas.FoldProjects | app/models/user_workload.rb:102-130 | the project buckets are exactly the projects of the visible issues, and each stores every visible issue's hours |
| SummaryLemmas.AssigneeEntry | app/models/user_workload.rb:71-97 | an assignee's entry counts the overdue issues and sums their hours, and its total has exactly the days of the range with the non-overdue hours |
| SummaryLemmas.AssigneeInvisible | app/models/user_workload.rb:131-135 | the invisible summary of an entry holds the invisible non-overdue hours, and has days only when there are such issues |
| SummaryLemmas.FirstWorkingDayInSpan | app/models/user_workload.rb:67 | for today inside the range, the first working day from today on lies in the range |
| SummaryLemmas.AssigneeFoldSucceeds | app/models/user_workload.rb:88-137 | for today inside the range, the fold over an assignee's issues succeeds |
| SummaryLemmas.OverdueHoursAreRemaining | app/models/user_workload.rb:93 | an overdue issue's contribution is its remaining hours when a working day lies between today and the range's end |
| SummaryLemmas.OverdueHoursLost | app/models/user_workload.rb:199-201 | when there is none, the lookup day only has 0 hours and the remaining hours sit under nil |
| Grouping.IssuesOf | app/models/user_workload.rb:65 | an assignee's group is made of issues of that assignee |
| Grouping.AssigneesAreDistinct | app/models/user_workload.rb:65 | the groups are exactly the assignees of the issues, each once |
| Grouping.PlacedOnce | app/models/user_workload.rb:65 | every issue is in its own assignee's group and in no other |
| Grouping.NoIssuesOf | app/models/user_workload.rb:65 | an assignee without issues has an empty group |
| Grouping.GroupBy | app/models/user_workload.rb:65 | the one-pass loop produces those groups, in order of first appearance |
| UserWorkload.OwnerOf | app/models/user_workload.rb:69 | a user keys its own entry, and a group is replaced by its dummy |
| UserWorkload.OwnerOfInjective | app/models/user_workload.rb:69-71 | different assignees key different entries |
| UserWorkload.ByGroupsEntries | app/models/user_workload.rb:65-138 | the result has one entry per assignee, and each is that assignee's fold of its own issues |
| UserWorkload.ByUserEntries | app/models/user_workload.rb:58-141 | the result holds one entry per assignee of the issues, each the fold of exactly that assignee's issues |
| UserWorkload.ByGroups | app/models/user_workload.rb:65-138 | the grouped loop: a failure is a NoMethodError, and an unassigned group (`nil.id`) makes it fail |
| UserWorkload.ByUser | app/models/user_workload.rb:58-141 | the whole call: a failure is a NoMethodError, and an issue assigned to nobody makes it fail |
| UserWorkload.ByGroupsSucceeds | app/models/user_workload.rb:65-138 | with everything assigned and today inside the range, the grouped call succeeds |
| UserWorkload.ByUserSucceeds | app/models/user_workload.rb:58-141 | with everything assigned and today inside the range, the call succeeds |
| UserWorkload.FoldIssues | app/models/user_workload.rb:88-137 | the issue loop computes the specified fold |
| UserWorkload.BuildEntry | app/models/user_workload.rb:66-137 | one assignee's entry is the specified fold from its zero-filled start |
| UserWorkload.HoursPerUserIssueAndDay | app/models/user_workload.rb:58-141 | the method returns the specified result and keeps the cache consistent |
| ListUser.ListFold | lib/redmine_workload/list_user.rb:78-158 | the per-issue loop: a failure is a NoMethodError, and an issue assigned to nobody (`nil.id`) makes it fail |
| ListUser.ListStepSuccess | lib/redmine_workload/list_user.rb:85-155 | a successful step has an assigned issue, applies one step of the assignee fold to the assignee's entry (zero-filled if new), and changes no other entry |
| ListUser.ListFoldKeys | lib/redmine_workload/list_user.rb:91-105 | the result's keys are exactly the assignees of the issues |
| ListUser.ListFoldEntry | lib/redmine_workload/list_user.rb:85-155 | each entry equals the fold over that assignee's issues alone |
| ListUser.SameAsGrouped | lib/redmine_workload/list_user.rb:78-158 | the per-issue loop and the grouped engine give every assignee the same entry |
| ListUser.HoursForIssuePerDay | lib/redmine_workload/list_user.rb:291-395 | the allocator with the `DateTools` calendar |
| ListUser.AddListIssue | lib/redmine_workload/list_user.rb:85-155 | one iteration computes the specified step |
| ListUser.HoursPerUserIssueAndDay | lib/redmine_workload/list_user.rb:78-158 | the method returns the specified result and keeps the cache consistent |
| LegacyListUser.GetHoursForIssuesPerDay | lib/list_user.rb:59-165 | the allocator with the weekday-only calendar |
| LegacyListUser.GetHoursPerUserIssueAndDay | lib/list_user.rb:173-188 | each issue is stored once, under its own assignee, with its allocation, and nothing else is stored |
| LegacyListUser.PlaceIssue | lib/list_user.rb:183-184 | one issue's step: its assignee gets an empty hash when missing, then the issue's allocation is stored under the issue in that hash |
| LegacyListUser.GroupedCoversSpan | lib/list_user.rb:182-185 | every stored allocation covers the range |
| LegacyListUser.FirstsOfMonths | lib/list_user.rb:199-207 | the loop's list from the first of month m to the first of month n has n - m + 1 entries, entry i being the first of month m + i |
| LegacyListUser.GetMonthsInTimespan | lib/list_user.rb:192-210 | [] for an empty range, otherwise the first day of each month from the first day's month to the last day's, in order |
| LegacyListUser.MonthsConsecutive | lib/list_user.rb:190-191 | those dates are firsts of months, strictly increasing, each one month after the previous |
| LegacyListUser.GetDaysInMonth | lib/list_user.rb:213-217 | the number of days of the day's month, which lies in 28..31 |
| LegacyListUser.HoursSumRemove | lib/list_user.rb:250-252 | the sum over a set of issues is one issue's hours plus the sum over the rest |
| LegacyListUser.HoursSumSplit | lib/list_user.rb:322-329 | the sum over two disjoint sets of issues is the sum of their sums |
| LegacyListUser.VisibleOnly | lib/list_user.rb:324-333 | after the deletions exactly the visible issues remain, each with its data unchanged |
| LegacyListUser.SummaryOf | lib/list_user.rb:242-253 | a summary has exactly the days of the range |
| LegacyListUser.DayTotal | lib/list_user.rb:250-252 | the inner loop sums the hours of every issue on the day |
| LegacyListUser.UserTotal | lib/list_user.rb:240-253 | one user's totals give each day of the range the sum over the user's issues and the weekday holiday flag |
| LegacyListUser.CalculateTotalUserWorkloads | lib/list_user.rb:229-258 | every user of the structure gets those totals, with holiday iff the day is not an enabled weekday |
| LegacyListUser.RedactUser | lib/list_user.rb:311-334 | one user's pass sums the invisible issues per day and keeps the visible ones |
| LegacyListUser.HourData.constructor | lib/list_user.rb:305 | the structure holds the given data |
| LegacyListUser.HourData.RemoveDataForInvisibleIssuesAndReturnSummary | lib/list_user.rb:305-338 | afterwards every user keeps exactly their visible issues unchanged, and the summary gives each user, day by day, the hours of their invisible issues with the weekday holiday flag |
| LegacyListUser.RedactionKeepsTotal | lib/list_user.rb:296-304 | the hours of a day before redaction are the visible hours plus the summary's hidden hours |
| LegacyListUser.RedactedIsVisible | lib/list_user.rb:324-333 | an issue survives iff it is visible, and then with its data |
| Capacity.FindBy | app/helpers/workloads_helper.rb:35 | `find_by user_id:` gives None iff no record has the id, and otherwise a record with that id |
| Capacity.FindByIsFirst | app/helpers/workloads_helper.rb:35 | that record is the first with the id |
| Capacity.MembersAmong | app/models/group_user_dummy.rb:54-60 | the dummy's member records are exactly those of the group's users whose main group is the group |
| Capacity.SumUpWithoutMembers | app/models/group_user_dummy.rb:49 | `sum_up` is 0.0 when no record counts for the group |
| Capacity.SumUpRecordAdded | app/models/group_user_dummy.rb:48-51 | a further record adds its threshold to the sum if it counts for the group, and nothing otherwise |
| Capacity.SumBoundsMember | app/models/group_user_dummy.rb:51 | for non-negative thresholds, every member's threshold is at most the sum |
| Capacity.SumNonNegative | app/models/group_user_dummy.rb:51 | the sum of non-negative thresholds is non-negative |
| Capacity.CapacityAt | app/models/wl_day_capacity.rb:17-21 | 0.0 for 'unassigned', an Integer assignee or a holiday; otherwise a user's own or default threshold, or the (group) dummy's sum |
| Capacity.GroupCapacityIsMemberSum | app/models/group_user_dummy.rb:32-51 | with one record per user, a group's capacity is the sum of its members' own thresholds |
| Capacity.OwnRecordSum | app/models/group_user_dummy.rb:51 | the sum of records equals the sum of their users' looked-up thresholds |
| Capacity.DayCapacity.constructor | app/models/wl_day_capacity.rb:13-15 | a new capacity holds the assignee and has not resolved its source yet |
| Capacity.DayCapacity.User | app/models/wl_day_capacity.rb:30-32 | the source is resolved on first use and memoised: later calls return the same one |
| Capacity.DayCapacity.ThresholdAt | app/models/wl_day_capacity.rb:17-21 | 0.0 for sentinels and on holidays without resolving anything; otherwise the memoised source's threshold, equal to `CapacityAt` while the memo is fresh |
| Capacity.ClassFor | app/helpers/workloads_helper.rb:43-51 | 'none' iff hours < low, 'low' iff low <= hours < normal, 'normal' iff both are passed and hours < high, 'high' iff all three are passed |
| Capacity.ClassMonotone | app/helpers/workloads_helper.rb:43-51 | more hours never give a lower class |
| Capacity.LoadClassForHours | app/helpers/workloads_helper.rb:24-52 | non-numeric hours raise ArgumentError; a user's record replaces the default thresholds, which are used otherwise |
| Capacity.LegacyLoadClassAgrees | lib/list_user.rb:262-275 | the oldest helper classifies like the current one without a user |
| Capacity.UnsetDefaultsGiveHigh | app/helpers/workloads_helper.rb:30-32 | unset default thresholds read as 0.0, so any non-negative hours are 'high' |
| GroupWorkload.HolidayAt | app/models/group_workload.rb:141-146 | a day is a holiday iff no member has a flag false (true when nobody has a flag) |
| GroupWorkload.UsersOnly | app/models/group_workload.rb:151-155 | the members that are users, and only those |
| GroupWorkload.ThresholdIgnoresDummies | app/models/group_workload.rb:151-155 | the threshold sum over all members equals the sum over the real users |
| GroupWorkload.AssigneesAddNoThreshold | app/models/group_workload.rb:153 | entries from the user workload carry no thresholds, so they add 0.0 |
| GroupWorkload.SumOfMissing | app/models/group_workload.rb:105-107 | a member without the counter adds 0 |
| GroupWorkload.SumsAppend | app/models/group_workload.rb:105-155 | counters, hours and thresholds of two member lists add up |
| GroupWorkload.MissingDayNeutral | app/models/group_workload.rb:132-146 | a member without the day changes neither the hours nor the holiday flag |
| GroupWorkload.GroupTotal | app/models/group_workload.rb:109-118 | the group total has exactly the days of the range |
| GroupWorkload.InvisibleDays | app/models/group_workload.rb:121-128 | the invisible days have exactly the days of the range |
| GroupWorkload.GroupInvisible | app/models/group_workload.rb:120-130 | the invisible summary is present iff some day has positive hours, and then holds every day |
| GroupWorkload.NoUnscheduled | app/models/group_workload.rb:99-100 | no entry carries unscheduled counters, so both sums are 0 |
| GroupWorkload.MembersOf | app/models/group_workload.rb:50 | a group's members are exactly the entries whose main group is the group |
| GroupWorkload.DummyInOwnGroup | app/models/group_workload.rb:50 | a group's dummy is listed under that group, and under no group with another id |
| GroupWorkload.MembersDisjoint | app/models/group_workload.rb:48-52 | different groups have disjoint member lists |
| GroupWorkload.MembersByGroup | app/models/group_workload.rb:48-52 | nil without selected groups, {} for none selected, otherwise one list per selected group |
| GroupWorkload.KeyLeTotal | app/models/group_workload.rb:59 | the (class name, lastname) order is total |
| GroupWorkload.KeyLeTrans | app/models/group_workload.rb:59 | and transitive |
| GroupWorkload.DummyBeforeUser | app/models/group_workload.rb:55-59 | a GroupUserDummy sorts strictly before a User |
| GroupWorkload.SortByKey | app/models/group_workload.rb:59 | sorting permutes the entries |
| GroupWorkload.SortByKeySorted | app/models/group_workload.rb:59 | the sorted entries are ordered by (class name, lastname) and a permutation of the input |
| GroupWorkload.DummyComesFirst | app/models/group_workload.rb:55-59 | when there is a dummy, the sorted list starts with one |
| GroupWorkload.AvailabilityTotal | app/models/group_workload.rb:74-86 | an availability total has exactly the days of the range |
| GroupWorkload.Availabilities | app/models/group_workload.rb:67 | `users.selected - assignees` is exactly the selected users without an entry |
| GroupWorkload.AddAvailabilities | app/models/group_workload.rb:68-70 | adding availabilities keeps every existing entry in place |
| GroupWorkload.AvailabilityOwners | app/models/group_workload.rb:66-72 | the owners afterwards are the old ones plus the added users |
| GroupWorkload.AvailabilityEntries | app/models/group_workload.rb:69 | each added entry is a user's availability with its zero hours and thresholds |
| GroupWorkload.AvailabilitiesDistinct | app/models/group_workload.rb:66-72 | no owner is listed twice afterwards |
| GroupWorkload.WithAvailabilitiesIdempotent | app/models/group_workload.rb:66-72 | adding availabilities a second time changes nothing |
| GroupWorkload.NoAvailabilities | app/models/group_workload.rb:67 | when every selected user has an entry, none is added |
| GroupWorkload.GroupListsItsMembers | app/models/group_workload.rb:48-60 | after sorting, a group lists an entry iff the entry's main group is the group |
| GroupWorkload.GroupWorkload.constructor | app/models/group_workload.rb:15-21 | the object keeps its inputs, the user workload gains the availabilities iff groups are selected, and the member map is that of the sorted workload |
| GroupWorkload.GroupWorkload.TotalAvailabilitiesOf | app/models/group_workload.rb:74-86 | the day loop gives each day 0 hours, the user's holiday flag and the three capacity thresholds |
| GroupWorkload.GroupWorkload.UserWorkloadWithAvailabilities | app/models/group_workload.rb:66-72 | the workload gains exactly the availabilities, in place, and keeps its owners distinct |
| GroupWorkload.GroupWorkload.SortedUserWorkload | app/models/group_workload.rb:58-60 | the sorted workload after adding the availabilities |
| GroupWorkload.GroupWorkload.DefineGroupMembers | app/models/group_workload.rb:48-52 | each selected group is mapped to its members in the sorted workload |
| GroupWorkload.GroupWorkload.GroupEntries | app/models/group_workload.rb:50 | one group's entries are the members of the sorted workload whose main group is that group; the workload then holds the availabilities exactly once, however often it is asked |
| GroupWorkload.GroupWorkload.CollectGroupEntries | app/models/group_workload.rb:49-51 | the hash has exactly the selected groups as keys, each mapped to its members of the sorted workload, and the workload gains the availabilities only when some group is selected |
| GroupWorkload.GroupWorkload.TotalOfGroupMembers | app/models/group_workload.rb:109-118 | the day loop computes the group total: summed hours, AND-ed holidays and summed user thresholds |
| GroupWorkload.GroupWorkload.InvisiblesOfGroupMembers | app/models/group_workload.rb:120-130 | the day loop computes the invisible summary, or nil when no day has positive hours |
| GroupWorkload.CollectInvisibleDays | app/models/group_workload.rb:121-128 | every day of the range gets the members' summed invisible hours and their combined holiday flag, and no other day is present |
| GroupWorkload.AnyInvisibleHours | app/models/group_workload.rb:129 | the answer is true exactly when some day of the range has positive summed invisible hours |
| GroupWorkload.GroupWorkload.SummarizeOverGroupMembers | app/models/group_workload.rb:96-103 | the group summary: the four summed counters, the total and the invisible summary |
| GroupWorkload.GroupWorkload.ByGroup | app/models/group_workload.rb:28-33 | nil without selected groups, otherwise each selected group's summary together with its members |
| Scenarios.DummySumsGivenThresholds | app/models/group_user_dummy.rb:32-51 | two members with thresholds 2/4/6 and 3/5/7 give the dummy 5/9/13 |
| Scenarios.DummySumsUnsetThresholds | test/unit/group_user_dummy_test.rb:59-78 | the test's records without thresholds fail validation and are not stored, so the dummy has no member records and `sum_up` returns 0.0 through its early exit (app/models/group_user_dummy.rb:49) |
| Scenarios.LoadClassExamples | app/helpers/workloads_helper.rb:24-52 | 0.05 h is 'none'; 3.5 h is 'low' (0.1/5/7) or 'normal' (0.1/2/7); 10.5 h is 'high'; unset settings give 'high'; non-numeric input raises |

## Left out

- Database queries are not part of this model. This covers `open_issues_for_users`, `getOpenIssuesForUsers`, `users_allowed_to_display`, the permission and selection presenters, and the lookups inside `holiday?`, `vacation?` and `group_members`. Issues, holidays, vacations, group memberships and threshold records are inputs instead.
- Record validations are taken as given. Holiday and vacation intervals are well formed, and a user's main group is one of the user's groups.
- The cache's 12-hour expiry is not modelled, because there is no clock. The data a cached entry was computed from is fixed for the whole run, which is what `Consistent` states.
- IEEE floating point is not modelled, because hours are exact reals. Inf and NaN cannot arise.
- Allocation.HoursPerWorkday: gives 0.0 for a scheduled issue with no working day left, where Ruby divides by 0.0 and gets Infinity (or NaN when nothing remains). No record takes that value: every day from today to the due date is then a holiday and gets 0.0, so Ruby stores 0.0 on every day and silently loses the remaining hours, as the model does (`AllocationLemmas.NoWorkdayLeftUnseen`, `AllocationLemmas.NoWorkdayLeftNoHours`).
- The `ArgumentError` type checks on arrays, ranges and dates are left out, because the Dafny types already rule those inputs out. The non-numeric argument of `load_class_for_hours` is kept.
- Issues.CalendarKeyOf: follows the intended reading, not the literal code. app/models/user_workload.rb:66 and :177 pass `assignee.id` (or the String 'all'), and lib/redmine_workload/wl_date_tools.rb:60 calls `.id` on it again; `Integer#id` and `String#id` do not exist, so every calendar lookup of the current engine as written raises NoMethodError. The model asks the principal's own calendar, and 'all' when nobody is assigned.
- Summaries.AddIssueInfoToSummary: takes the holiday flags of the calendar for 'all'. app/models/user_workload.rb:300 calls `working_days_in_time_span` without the assignee argument the method needs; the model gives the evident intent.
- The current engine's dummy class (`WlGroupUserDummy`) is not part of this model. Its entries are modelled as `GroupUserDummy`s with class name "GroupUserDummy" and the group's lastname. The translated label of `lastname` is left out.
- The dummy's main group: app/models/group_workload.rb:50 calls `main_group_id` on every entry, but app/models/group_user_dummy.rb defines none for the dummy (it delegates only `id`, `firstname` and `users` to its group). The model gives a dummy its own group's id, so a group's dummy is listed under that group and no other.
- GroupWorkload.AssigneesAddNoThreshold: reproduces the Ruby as written. Entries taken from the user workload have totals without threshold keys, so only the added availabilities contribute to the group thresholds.
- GroupWorkload.SortByKey: fixes one order for entries with equal keys (same class name and lastname), keeping them in their input order. Ruby's `sort_by` is not stable and does not fix that order, and callers can see the order of the resulting hash. The stable order is one of the orders Ruby may produce, and a deterministic function needs one; the model does not promise anything about the other orders.
- Hash iteration order is not modelled where it cannot matter: sums, and maps keyed by group or day. Selected users and groups are sequences, and a group selected twice maps to one key.
- The 'unscheduled' counters the tests expect do not exist in app/models/user_workload.rb. The model sums them as missing keys (0), and the out-of-sync tests are not restated.
- `WlDayCapacity` for a String assignee other than 'unassigned' (which would resolve to a dummy of a string) is left out. The sentinels are 'unassigned' and Integer ids.
- Today is an input of the engine, not `User.current.today`.
- Rendering, the CSV export, controllers, hooks and the translated labels are not part of this model.
