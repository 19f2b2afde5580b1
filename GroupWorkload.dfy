/**
 * `GroupWorkload` (app/models/group_workload.rb): the entries of the user
 * workload completed with the selected users that have no issues, sorted
 * so that the group dummies come first, split by main group, and summed
 * per group.
 */
module GroupWorkload {
  import opened Wrappers
  import opened Dates
  import opened Calendar
  import opened DayCache
  import opened Issues
  import opened Allocation
  import opened Summaries
  import opened WlDateTools
  import opened UserWorkload
  import opened Capacity

  /** A day of an availability's `total` and of a group's `total`: hours, holiday flag and the three thresholds. */
  datatype CapacityDay = CapacityDay(hours: real, holiday: bool, thresholds: Thresholds)

  type CapacityTotal = map<Date, CapacityDay>

  /**
   * The value of an entry of the user workload: the summary built for an
   * assignee, or `{ total: ... }` for a selected user without issues.
   */
  datatype MemberData = Assigned(summary: AssigneeSummary) | Availability(total: CapacityTotal)

  /** An entry of the (ordered) user workload hash. */
  datatype Member = Member(owner: Owner, data: MemberData)

  /** The counters `sum_of` reads; the current summaries have no `unscheduled_*` keys. */
  datatype CounterKey = OverdueHoursKey | OverdueNumberKey | UnscheduledNumberKey | UnscheduledHoursKey

  /** The two per-day parts `hours_at` and `holiday_at` dig into. */
  datatype Part = TotalPart | InvisiblePart

  /** `data[key]`, nil when the entry has no such key. */
  function Counter(d: MemberData, key: CounterKey): Option<real> {
    match d
    case Availability(_) => None
    case Assigned(s) =>
      match key
      case OverdueHoursKey => Some(s.overdueHours)
      case OverdueNumberKey => Some(s.overdueNumber as real)
      case UnscheduledNumberKey => None
      case UnscheduledHoursKey => None
  }

  /** `data.dig(part, day, :hours)`. */
  function DayHours(d: MemberData, part: Part, day: Date): Option<real> {
    match d
    case Availability(t) => if part.TotalPart? && day in t then Some(t[day].hours) else None
    case Assigned(s) =>
      var m := if part.TotalPart? then s.total else s.invisible;
      if day in m then Some(m[day].hours) else None
  }

  /** `data.dig(part, day, :holiday)`. */
  function DayHoliday(d: MemberData, part: Part, day: Date): Option<bool> {
    match d
    case Availability(t) => if part.TotalPart? && day in t then Some(t[day].holiday) else None
    case Assigned(s) =>
      var m := if part.TotalPart? then s.total else s.invisible;
      if day in m then Some(m[day].holiday) else None
  }

  /** `data.dig(:total, day, key)`: only an availability carries thresholds. */
  function DayThreshold(d: MemberData, day: Date, key: ThresholdKey): Option<real> {
    match d
    case Availability(t) => if day in t then Some(t[day].thresholds.At(key)) else None
    case Assigned(_) => None
  }

  function OrZero(v: Option<real>): real {
    if v.Some? then v.value else 0.0
  }

  // ---------------------------------------------------------------------
  // Reductions over the members of a group

  /** `sum_of(key, group)`: a missing key counts as 0. */
  function SumOf(members: seq<Member>, key: CounterKey): real {
    if members == [] then 0.0
    else SumOf(members[..|members| - 1], key) + OrZero(Counter(members[|members| - 1].data, key))
  }

  /** `hours_at(day, part, group)`: a missing day counts as 0. */
  function HoursAt(members: seq<Member>, part: Part, day: Date): real {
    if members == [] then 0.0
    else HoursAt(members[..|members| - 1], part, day) + OrZero(DayHours(members[|members| - 1].data, part, day))
  }

  /** `holiday_at(day, part, group)`: `values.compact.all?`, every flag that is present is true. */
  function HolidayAt(members: seq<Member>, part: Part, day: Date): (r: bool)
    ensures r <==> forall i :: 0 <= i < |members| ==> DayHoliday(members[i].data, part, day) != Some(false)
  {
    if members == [] then true
    else
      var prefix := members[..|members| - 1];
      assert forall i :: 0 <= i < |prefix| ==> prefix[i] == members[i];
      HolidayAt(prefix, part, day) && DayHoliday(members[|members| - 1].data, part, day) != Some(false)
  }

  /** What a member adds to `threshold_at`: its own threshold for a User, nothing for a dummy. */
  function MemberThreshold(m: Member, day: Date, key: ThresholdKey): real {
    if m.owner.UserOwner? then OrZero(DayThreshold(m.data, day, key)) else 0.0
  }

  /** `threshold_at(day, key, group)`: the thresholds of the User members summed. */
  function ThresholdAt(members: seq<Member>, day: Date, key: ThresholdKey): real {
    if members == [] then 0.0
    else ThresholdAt(members[..|members| - 1], day, key) + MemberThreshold(members[|members| - 1], day, key)
  }

  /** The User members of a list, in order. */
  function UsersOnly(members: seq<Member>): (r: seq<Member>)
    ensures forall m :: m in r <==> m in members && m.owner.UserOwner?
  {
    if members == [] then []
    else
      var prefix := members[..|members| - 1];
      var m := members[|members| - 1];
      assert members == prefix + [m];
      if m.owner.UserOwner? then UsersOnly(prefix) + [m] else UsersOnly(prefix)
  }

  /** The dummies add nothing to the thresholds: they sum over the User members alone. */
  lemma {:induction false} ThresholdIgnoresDummies(members: seq<Member>, day: Date, key: ThresholdKey)
    ensures ThresholdAt(members, day, key) == ThresholdAt(UsersOnly(members), day, key)
  {
    if members != [] {
      var prefix := members[..|members| - 1];
      var m := members[|members| - 1];
      var u := UsersOnly(prefix);
      ThresholdIgnoresDummies(prefix, day, key);
      assert ThresholdAt(members, day, key) == ThresholdAt(prefix, day, key) + MemberThreshold(m, day, key);
      if m.owner.UserOwner? {
        assert UsersOnly(members) == u + [m];
        ThresholdSnoc(u, m, day, key);
      } else {
        assert UsersOnly(members) == u;
        assert MemberThreshold(m, day, key) == 0.0;
      }
    }
  }

  lemma ThresholdSnoc(u: seq<Member>, m: Member, day: Date, key: ThresholdKey)
    ensures ThresholdAt(u + [m], day, key) == ThresholdAt(u, day, key) + MemberThreshold(m, day, key)
  {
    assert (u + [m])[..|u|] == u;
  }

  /** An assignee's summary carries no threshold keys, so a group of assignees only has zero thresholds. */
  lemma {:induction false} AssigneesAddNoThreshold(members: seq<Member>, day: Date, key: ThresholdKey)
    requires forall i :: 0 <= i < |members| ==> members[i].data.Assigned?
    ensures ThresholdAt(members, day, key) == 0.0
  {
    if members != [] {
      AssigneesAddNoThreshold(members[..|members| - 1], day, key);
    }
  }

  /** A member whose entry lacks the counter adds nothing to `sum_of`. */
  lemma {:induction false} SumOfMissing(members: seq<Member>, m: Member, key: CounterKey)
    requires Counter(m.data, key).None?
    ensures SumOf(members + [m], key) == SumOf(members, key)
  {
    assert (members + [m])[..|members|] == members;
  }

  /** The sums split over a split list of members. */
  lemma {:induction false} SumsAppend(a: seq<Member>, b: seq<Member>, key: CounterKey, part: Part, day: Date, tk: ThresholdKey)
    ensures SumOf(a + b, key) == SumOf(a, key) + SumOf(b, key)
    ensures HoursAt(a + b, part, day) == HoursAt(a, part, day) + HoursAt(b, part, day)
    ensures ThresholdAt(a + b, day, tk) == ThresholdAt(a, day, tk) + ThresholdAt(b, day, tk)
    decreases |b|
  {
    if b == [] {
      assert a + b == a;
    } else {
      var b0 := b[..|b| - 1];
      SumsAppend(a, b0, key, part, day, tk);
      assert (a + b)[..|a + b| - 1] == a + b0;
      assert (a + b)[|a + b| - 1] == b[|b| - 1];
    }
  }

  /** A member without the day adds no hours and no flag: the day counts as 0 hours and does not block a holiday. */
  lemma MissingDayNeutral(members: seq<Member>, m: Member, part: Part, day: Date)
    requires DayHours(m.data, part, day).None? && DayHoliday(m.data, part, day).None?
    ensures HoursAt(members + [m], part, day) == HoursAt(members, part, day)
    ensures HolidayAt(members + [m], part, day) == HolidayAt(members, part, day)
  {
    assert (members + [m])[..|members|] == members;
  }

  /** The summary of a group: the four counters, the per-day total and the invisible bucket. */
  datatype GroupSummary = GroupSummary(
    overdueHours: real, overdueNumber: real, unscheduledNumber: real, unscheduledHours: real,
    total: CapacityTotal, invisible: Option<Summary>)

  /** `total_of_group_members`: every day of the range with the summed hours and thresholds and the AND of the flags. */
  function GroupTotal(members: seq<Member>, span: Span): (r: CapacityTotal)
    ensures r.Keys == span.Days()
  {
    map d | d in span.Days() ::
      CapacityDay(HoursAt(members, TotalPart, d), HolidayAt(members, TotalPart, d),
        Thresholds(ThresholdAt(members, d, Lowload), ThresholdAt(members, d, Normalload), ThresholdAt(members, d, Highload)))
  }

  /** The invisible days of a group before the `any?` test. */
  function InvisibleDays(members: seq<Member>, span: Span): (r: Summary)
    ensures r.Keys == span.Days()
  {
    map d | d in span.Days() :: DaySum(HoursAt(members, InvisiblePart, d), HolidayAt(members, InvisiblePart, d))
  }

  /** `invisibles_of_group_members`: the invisible days, or nil unless some day has positive hours. */
  function GroupInvisible(members: seq<Member>, span: Span): (r: Option<Summary>)
    ensures r.Some? <==> exists d :: span.Contains(d) && HoursAt(members, InvisiblePart, d) > 0.0
    ensures r.Some? ==> r.value == InvisibleDays(members, span)
  {
    var inv := InvisibleDays(members, span);
    assert forall d :: d in inv ==> span.Contains(d) && inv[d].hours == HoursAt(members, InvisiblePart, d);
    if exists d :: d in inv && inv[d].hours > 0.0 then Some(inv) else None
  }

  /** `summarize_over_group_members`. */
  function Summarize(members: seq<Member>, span: Span): GroupSummary {
    GroupSummary(
      SumOf(members, OverdueHoursKey), SumOf(members, OverdueNumberKey),
      SumOf(members, UnscheduledNumberKey), SumOf(members, UnscheduledHoursKey),
      GroupTotal(members, span), GroupInvisible(members, span))
  }

  /** The current summaries have no `unscheduled_*` keys, so those sums are 0. */
  lemma {:induction false} NoUnscheduled(members: seq<Member>)
    ensures SumOf(members, UnscheduledNumberKey) == 0.0 && SumOf(members, UnscheduledHoursKey) == 0.0
  {
    if members != [] {
      NoUnscheduled(members[..|members| - 1]);
    }
  }

  // ---------------------------------------------------------------------
  // Members of a group

  /** `main_group_id` of an entry's key; a group's dummy belongs to that group. */
  function MainGroupOf(o: Owner): Option<int> {
    match o
    case UserOwner(u) => u.mainGroupId
    case DummyOwner(g) => Some(g.id)
  }

  /** `select { |user, _| user.main_group_id == group.id }`, in order. */
  function MembersOf(entries: seq<Member>, g: GroupRec): (r: seq<Member>)
    ensures forall m :: m in r <==> m in entries && MainGroupOf(m.owner) == Some(g.id)
  {
    if entries == [] then []
    else
      var prefix := entries[..|entries| - 1];
      var m := entries[|entries| - 1];
      assert entries == prefix + [m];
      if MainGroupOf(m.owner) == Some(g.id) then MembersOf(prefix, g) + [m] else MembersOf(prefix, g)
  }

  /** The entry of a group's dummy is listed under that group, and under no group with another id. */
  lemma DummyInOwnGroup(entries: seq<Member>, m: Member, g: GroupRec)
    requires m in entries && m.owner.DummyOwner?
    ensures m in MembersOf(entries, m.owner.group)
    ensures m in MembersOf(entries, g) <==> g.id == m.owner.group.id
  {
  }

  /** Groups with different ids share no member. */
  lemma MembersDisjoint(entries: seq<Member>, g1: GroupRec, g2: GroupRec, m: Member)
    requires g1.id != g2.id
    ensures !(m in MembersOf(entries, g1) && m in MembersOf(entries, g2))
  {
  }

  /** What `define_group_members` stores: nil without a group selection, otherwise each selected group with its members. */
  function MembersByGroup(selectedGroups: Option<seq<GroupRec>>, sorted: seq<Member>): (r: Option<map<GroupRec, seq<Member>>>)
    ensures selectedGroups.None? <==> r.None?
    ensures selectedGroups == Some([]) ==> r == Some(map[])
    ensures r.Some? ==> r.value.Keys == set g | g in selectedGroups.value
    ensures r.Some? ==> forall g :: g in r.value ==> r.value[g] == MembersOf(sorted, g)
  {
    if selectedGroups.None? then None
    else Some(map g | g in selectedGroups.value :: MembersOf(sorted, g))
  }

  // ---------------------------------------------------------------------
  // Sorting by class name and lastname

  /** Ruby's `String#<=>` as `<=`: byte by byte, a prefix first. */
  predicate StrLe(a: string, b: string)
    decreases |a|
  {
    a == [] || (b != [] && (a[0] < b[0] || (a[0] == b[0] && StrLe(a[1..], b[1..]))))
  }

  lemma {:induction false} StrLeTotal(a: string, b: string)
    ensures StrLe(a, b) || StrLe(b, a)
    decreases |a|
  {
    if a != [] && b != [] && a[0] == b[0] {
      StrLeTotal(a[1..], b[1..]);
    }
  }

  lemma {:induction false} StrLeTrans(a: string, b: string, c: string)
    requires StrLe(a, b) && StrLe(b, c)
    ensures StrLe(a, c)
    decreases |a|
  {
    if a != [] && a[0] == b[0] && b[0] == c[0] {
      StrLeTrans(a[1..], b[1..], c[1..]);
    }
  }

  lemma {:induction false} StrLeReflexive(a: string)
    ensures StrLe(a, a)
    decreases |a|
  {
    if a != [] {
      StrLeReflexive(a[1..]);
    }
  }

  lemma {:induction false} StrLeAntisymmetric(a: string, b: string)
    requires StrLe(a, b) && StrLe(b, a)
    ensures a == b
    decreases |a|
  {
    if a != [] {
      StrLeAntisymmetric(a[1..], b[1..]);
      assert a == [a[0]] + a[1..] && b == [b[0]] + b[1..];
    }
  }

  /** `user.class.name`. */
  function ClassName(o: Owner): string {
    if o.UserOwner? then "User" else "GroupUserDummy"
  }

  /** `user.lastname`; the dummy's translated label is read as its group's lastname. */
  function Lastname(o: Owner): string {
    if o.UserOwner? then o.user.lastname else o.group.lastname
  }

  /** `[class name, lastname] <=> [class name, lastname]` as `<=`. */
  predicate KeyLe(m1: Member, m2: Member) {
    var c1, c2 := ClassName(m1.owner), ClassName(m2.owner);
    (StrLe(c1, c2) && c1 != c2) || (c1 == c2 && StrLe(Lastname(m1.owner), Lastname(m2.owner)))
  }

  lemma KeyLeTotal(m1: Member, m2: Member)
    ensures KeyLe(m1, m2) || KeyLe(m2, m1)
  {
    StrLeTotal(ClassName(m1.owner), ClassName(m2.owner));
    StrLeTotal(Lastname(m1.owner), Lastname(m2.owner));
  }

  lemma KeyLeTrans(m1: Member, m2: Member, m3: Member)
    requires KeyLe(m1, m2) && KeyLe(m2, m3)
    ensures KeyLe(m1, m3)
  {
    var c1, c2, c3 := ClassName(m1.owner), ClassName(m2.owner), ClassName(m3.owner);
    if c1 == c2 && c2 == c3 {
      StrLeTrans(Lastname(m1.owner), Lastname(m2.owner), Lastname(m3.owner));
    } else {
      StrLeReflexive(c1);
      StrLeReflexive(c2);
      StrLeTrans(c1, c2, c3);
      if c1 == c3 {
        StrLeAntisymmetric(c1, c2);
      }
    }
  }

  /** Every dummy sorts before every User: "GroupUserDummy" comes before "User". */
  lemma DummyBeforeUser(d: Member, u: Member)
    requires d.owner.DummyOwner? && u.owner.UserOwner?
    ensures KeyLe(d, u) && !KeyLe(u, d)
  {
    assert "User"[0] == 'U' && "GroupUserDummy"[0] == 'G';
  }

  predicate SortedByKey(s: seq<Member>) {
    forall i, j :: 0 <= i < j < |s| ==> KeyLe(s[i], s[j])
  }

  /** One insertion step of the sort. */
  function Insert(x: Member, s: seq<Member>): (r: seq<Member>)
    ensures multiset(r) == multiset(s) + multiset{x}
  {
    if s == [] then [x]
    else if KeyLe(x, s[0]) then [x] + s
    else
      assert s == [s[0]] + s[1..];
      [s[0]] + Insert(x, s[1..])
  }

  lemma {:induction false} InsertSorted(x: Member, s: seq<Member>)
    requires SortedByKey(s)
    ensures SortedByKey(Insert(x, s))
  {
    if s == [] {
    } else if KeyLe(x, s[0]) {
      forall j | 0 <= j < |s| ensures KeyLe(x, s[j]) {
        if j > 0 {
          KeyLeTrans(x, s[0], s[j]);
        }
      }
    } else {
      KeyLeTotal(x, s[0]);
      InsertSorted(x, s[1..]);
      forall j | 0 <= j < |s[1..]| ensures KeyLe(s[0], s[1..][j]) {
        assert s[1..][j] == s[j + 1];
      }
      InsertBound(s[0], x, s[1..]);
      ConsSorted(s[0], Insert(x, s[1..]));
    }
  }

  /** A key below `x` and below all of `s` stays below everything of the insertion. */
  lemma InsertBound(y: Member, x: Member, s: seq<Member>)
    requires KeyLe(y, x)
    requires forall j :: 0 <= j < |s| ==> KeyLe(y, s[j])
    ensures forall k :: 0 <= k < |Insert(x, s)| ==> KeyLe(y, Insert(x, s)[k])
  {
    var r := Insert(x, s);
    forall k | 0 <= k < |r| ensures KeyLe(y, r[k]) {
      assert r[k] in multiset(r);
      assert r[k] == x || r[k] in multiset(s);
      if r[k] != x {
        var j :| 0 <= j < |s| && s[j] == r[k];
      }
    }
  }

  /** Putting a lower bound in front of a sorted list keeps it sorted. */
  lemma ConsSorted(y: Member, rest: seq<Member>)
    requires SortedByKey(rest)
    requires forall k :: 0 <= k < |rest| ==> KeyLe(y, rest[k])
    ensures SortedByKey([y] + rest)
  {
    var r := [y] + rest;
    forall i, j | 0 <= i < j < |r| ensures KeyLe(r[i], r[j]) {
      if i > 0 {
        assert r[i] == rest[i - 1] && r[j] == rest[j - 1];
      } else {
        assert r[j] == rest[j - 1];
      }
    }
  }

  /**
   * `sort_by { |user, _| [user.class.name, user.lastname] }`.  Ruby's sort
   * is not stable; this one keeps equal keys in their order, which is one of
   * the orders Ruby may produce.
   */
  function SortByKey(s: seq<Member>): (r: seq<Member>)
    ensures multiset(r) == multiset(s)
  {
    if s == [] then []
    else
      assert s == [s[0]] + s[1..];
      Insert(s[0], SortByKey(s[1..]))
  }

  /** The sort orders by the key and only reorders the entries. */
  lemma {:induction false} SortByKeySorted(s: seq<Member>)
    ensures SortedByKey(SortByKey(s))
    ensures multiset(SortByKey(s)) == multiset(s)
  {
    if s != [] {
      SortByKeySorted(s[1..]);
      InsertSorted(s[0], SortByKey(s[1..]));
    }
  }

  /** When there is a dummy entry, the sorted list starts with a dummy. */
  lemma DummyComesFirst(s: seq<Member>, k: int)
    requires 0 <= k < |s| && s[k].owner.DummyOwner?
    ensures |SortByKey(s)| > 0 && SortByKey(s)[0].owner.DummyOwner?
  {
    var r := SortByKey(s);
    SortByKeySorted(s);
    assert s[k] in multiset(r);
    var j :| 0 <= j < |r| && r[j] == s[k];
    if r[0].owner.UserOwner? {
      DummyBeforeUser(r[j], r[0]);
    }
  }

  // ---------------------------------------------------------------------
  // Availabilities

  predicate DistinctOwners(entries: seq<Member>) {
    forall i, j :: 0 <= i < j < |entries| ==> entries[i].owner != entries[j].owner
  }

  function Owners(entries: seq<Member>): set<Owner> {
    set m | m in entries :: m.owner
  }

  /** One day of `total_availabilities_of(user)`: no hours, the holiday flag, and the user's thresholds that day. */
  function AvailabilityDay(store: Store, u: UserRec, working: set<Date>, d: Date): CapacityDay {
    var holiday := d !in working;
    CapacityDay(0.0, holiday, Thresholds(
      CapacityAt(store, OfUser(u), Lowload, holiday),
      CapacityAt(store, OfUser(u), Normalload, holiday),
      CapacityAt(store, OfUser(u), Highload, holiday)))
  }

  /** `total_availabilities_of(user)`: every day of the range, under the user's own calendar. */
  function AvailabilityTotal(cal: CalendarData, store: Store, span: Span, u: UserRec): (r: CapacityTotal)
    ensures r.Keys == span.Days()
  {
    var working := WorkingDaySet(WlRule, cal, CalendarKeyOf(Some(User(u))), span);
    map d | d in span.Days() :: AvailabilityDay(store, u, working, d)
  }

  /** `users.selected - assignees`, in order. */
  function Availabilities(selected: seq<UserRec>, owners: set<Owner>): (r: seq<UserRec>)
    ensures forall u :: u in r <==> u in selected && UserOwner(u) !in owners
  {
    if selected == [] then []
    else
      var prefix := selected[..|selected| - 1];
      var u := selected[|selected| - 1];
      assert selected == prefix + [u];
      if UserOwner(u) in owners then Availabilities(prefix, owners) else Availabilities(prefix, owners) + [u]
  }

  /** The entry `user_workload[user] = { total: total_availabilities_of(user) }` adds. */
  function AvailabilityEntry(cal: CalendarData, store: Store, span: Span, u: UserRec): Member {
    Member(UserOwner(u), Availability(AvailabilityTotal(cal, store, span, u)))
  }

  /**
   * The entries after `user_workload[user] = ...` for each user of `avail`:
   * a new key is appended; a user listed twice gets the same value again,
   * which leaves the hash as it was.
   */
  function AddAvailabilities(entries: seq<Member>, avail: seq<UserRec>, cal: CalendarData, store: Store, span: Span): (r: seq<Member>)
    ensures |entries| <= |r| && r[..|entries|] == entries
  {
    if avail == [] then entries
    else
      var acc := AddAvailabilities(entries, avail[..|avail| - 1], cal, store, span);
      var u := avail[|avail| - 1];
      if UserOwner(u) in Owners(acc) then acc
      else
        assert (acc + [AvailabilityEntry(cal, store, span, u)])[..|acc|] == acc;
        acc + [AvailabilityEntry(cal, store, span, u)]
  }

  /** One more selected user of that loop: added unless already present. */
  lemma AddAvailabilitiesNext(entries: seq<Member>, avail: seq<UserRec>, i: nat, cal: CalendarData, store: Store, span: Span)
    requires i < |avail|
    ensures var acc := AddAvailabilities(entries, avail[..i], cal, store, span);
            AddAvailabilities(entries, avail[..i + 1], cal, store, span)
            == if UserOwner(avail[i]) in Owners(acc) then acc else acc + [AvailabilityEntry(cal, store, span, avail[i])]
  {
    assert avail[..i + 1][..i] == avail[..i] && avail[..i + 1][i] == avail[i];
  }

  /** `user_workload_with_availabilities`. */
  function WithAvailabilities(entries: seq<Member>, selected: seq<UserRec>, cal: CalendarData, store: Store, span: Span): seq<Member> {
    AddAvailabilities(entries, Availabilities(selected, Owners(entries)), cal, store, span)
  }

  /** After the availabilities every selected user has an entry, and nobody else was added. */
  lemma {:induction false} AvailabilityOwners(entries: seq<Member>, avail: seq<UserRec>, cal: CalendarData, store: Store, span: Span)
    ensures Owners(AddAvailabilities(entries, avail, cal, store, span)) == Owners(entries) + (set u | u in avail :: UserOwner(u))
  {
    if avail != [] {
      var prefix := avail[..|avail| - 1];
      var u := avail[|avail| - 1];
      AvailabilityOwners(entries, prefix, cal, store, span);
      assert avail == prefix + [u];
      var acc := AddAvailabilities(entries, prefix, cal, store, span);
      assert Owners(acc + [AvailabilityEntry(cal, store, span, u)]) == Owners(acc) + {UserOwner(u)};
    }
  }

  /** Every added entry is the availability of one of the users. */
  lemma {:induction false} AvailabilityEntries(entries: seq<Member>, avail: seq<UserRec>, cal: CalendarData, store: Store, span: Span, i: int)
    requires |entries| <= i < |AddAvailabilities(entries, avail, cal, store, span)|
    ensures var m := AddAvailabilities(entries, avail, cal, store, span)[i];
      m.owner.UserOwner? && m.owner.user in avail && m == AvailabilityEntry(cal, store, span, m.owner.user)
  {
    var prefix := avail[..|avail| - 1];
    var u := avail[|avail| - 1];
    var acc := AddAvailabilities(entries, prefix, cal, store, span);
    if i < |acc| {
      AvailabilityEntries(entries, prefix, cal, store, span, i);
      assert AddAvailabilities(entries, avail, cal, store, span)[i] == acc[i];
    }
  }

  /** The keys stay distinct. */
  lemma {:induction false} AvailabilitiesDistinct(entries: seq<Member>, avail: seq<UserRec>, cal: CalendarData, store: Store, span: Span)
    requires DistinctOwners(entries)
    ensures DistinctOwners(AddAvailabilities(entries, avail, cal, store, span))
  {
    if avail != [] {
      var prefix := avail[..|avail| - 1];
      var u := avail[|avail| - 1];
      AvailabilitiesDistinct(entries, prefix, cal, store, span);
      var acc := AddAvailabilities(entries, prefix, cal, store, span);
      if UserOwner(u) !in Owners(acc) {
        var r := acc + [AvailabilityEntry(cal, store, span, u)];
        forall i, j | 0 <= i < j < |r| ensures r[i].owner != r[j].owner {
          if j == |acc| {
            assert r[i] in acc;
          }
        }
      }
    }
  }

  /** A second pass adds nothing: every selected user already has an entry. */
  lemma WithAvailabilitiesIdempotent(entries: seq<Member>, selected: seq<UserRec>, cal: CalendarData, store: Store, span: Span)
    ensures WithAvailabilities(WithAvailabilities(entries, selected, cal, store, span), selected, cal, store, span)
         == WithAvailabilities(entries, selected, cal, store, span)
  {
    var once := WithAvailabilities(entries, selected, cal, store, span);
    AvailabilityOwners(entries, Availabilities(selected, Owners(entries)), cal, store, span);
    forall u | u in selected ensures UserOwner(u) in Owners(once) {
      if UserOwner(u) !in Owners(entries) {
        assert u in Availabilities(selected, Owners(entries));
      }
    }
    NoAvailabilities(selected, Owners(once));
  }

  lemma {:induction false} NoAvailabilities(selected: seq<UserRec>, owners: set<Owner>)
    requires forall u :: u in selected ==> UserOwner(u) in owners
    ensures Availabilities(selected, owners) == []
  {
    if selected != [] {
      var prefix := selected[..|selected| - 1];
      assert selected[|selected| - 1] in selected;
      assert forall u :: u in prefix ==> u in selected;
      NoAvailabilities(prefix, owners);
    }
  }

  // ---------------------------------------------------------------------
  // The group view

  /** `summary.merge(group_members[group])`: the group's sums next to its member entries (the keys never collide). */
  datatype GroupEntry = GroupEntry(summary: GroupSummary, members: seq<Member>)

  /** What `by_group` returns for the sorted entries. */
  function GroupResults(selectedGroups: Option<seq<GroupRec>>, sorted: seq<Member>, span: Span): Option<map<GroupRec, GroupEntry>> {
    if selectedGroups.None? then None
    else Some(map g | g in selectedGroups.value :: GroupEntry(Summarize(MembersOf(sorted, g), span), MembersOf(sorted, g)))
  }

  /** The members listed under a group are exactly the entries of the user workload whose main group it is. */
  lemma GroupListsItsMembers(entries: seq<Member>, g: GroupRec, m: Member)
    ensures m in MembersOf(SortByKey(entries), g) <==> m in entries && MainGroupOf(m.owner) == Some(g.id)
  {
    SortByKeySorted(entries);
    assert m in SortByKey(entries) <==> m in multiset(SortByKey(entries));
    assert m in entries <==> m in multiset(entries);
  }

  /** The groups seen so far grow by one per step. */
  lemma PrefixSet<T>(s: seq<T>, i: nat, next: nat)
    requires i < |s| && next == i + 1
    ensures (set x | x in s[..next]) == (set x | x in s[..i]) + {s[i]}
  {
    assert s[..next] == s[..i] + [s[i]];
  }

  /** A map built group by group is the one `define_group_members` stores. */
  lemma MembersByGroupFrom(groups: seq<GroupRec>, sorted: seq<Member>, hash: map<GroupRec, seq<Member>>)
    requires hash.Keys == set g | g in groups
    requires forall g :: g in hash ==> hash[g] == MembersOf(sorted, g)
    ensures MembersByGroup(Some(groups), sorted) == Some(hash)
  {
    var r := MembersByGroup(Some(groups), sorted).value;
    assert r.Keys == hash.Keys;
    assert forall g :: g in r ==> r[g] == hash[g];
    assert r == hash;
  }

  /** A map built group by group is the one `by_group` returns. */
  lemma GroupResultsFrom(groups: seq<GroupRec>, sorted: seq<Member>, span: Span, hash: map<GroupRec, GroupEntry>)
    requires hash.Keys == set g | g in groups
    requires forall g :: g in hash ==> hash[g] == GroupEntry(Summarize(MembersOf(sorted, g), span), MembersOf(sorted, g))
    ensures GroupResults(Some(groups), sorted, span) == Some(hash)
  {
    var r := GroupResults(Some(groups), sorted, span).value;
    assert r.Keys == hash.Keys;
    assert forall g :: g in r ==> r[g] == hash[g];
    assert r == hash;
  }

  /** The first loop of `invisibles_of_group_members`: each day's invisible hours and holiday flag over the members. */
  method CollectInvisibleDays(members: seq<Member>, span: Span) returns (invisible: Summary)
    ensures invisible == InvisibleDays(members, span)
  {
    invisible := map[];
    var day := span.first;
    while day <= span.last
      invariant span.first <= day && (day <= span.last + 1 || day == span.first)
      invariant invisible == InvisibleDays(members, Span(span.first, day - 1))
      decreases span.last - day
    {
      assert Span(span.first, day).Days() == Span(span.first, day - 1).Days() + {day};
      invisible := invisible[day := DaySum(HoursAt(members, InvisiblePart, day), HolidayAt(members, InvisiblePart, day))];
      assert invisible == InvisibleDays(members, Span(span.first, day));
      assert Span(span.first, day) == Span(span.first, (day + 1) - 1);
      day := day + 1;
    }
    assert Span(span.first, day - 1).Days() == span.Days();
  }

  /** Some day from `first` up to, not including, `day` has positive invisible hours. */
  predicate PositiveBefore(members: seq<Member>, first: Date, day: Date) {
    exists d :: first <= d < day && HoursAt(members, InvisiblePart, d) > 0.0
  }

  lemma PositiveBeforeStep(members: seq<Member>, first: Date, day: Date)
    requires first <= day
    ensures PositiveBefore(members, first, day + 1) <==> PositiveBefore(members, first, day) || HoursAt(members, InvisiblePart, day) > 0.0
  {
    if PositiveBefore(members, first, day + 1) && HoursAt(members, InvisiblePart, day) <= 0.0 {
      var d :| first <= d < day + 1 && HoursAt(members, InvisiblePart, d) > 0.0;
      assert d < day;
    }
  }

  /** The second loop: whether some day of the range has positive invisible hours. */
  method AnyInvisibleHours(members: seq<Member>, span: Span, invisible: Summary) returns (positive: bool)
    requires invisible == InvisibleDays(members, span)
    ensures positive <==> exists d :: span.Contains(d) && HoursAt(members, InvisiblePart, d) > 0.0
  {
    positive := false;
    var day := span.first;
    while day <= span.last
      invariant span.first <= day && (day <= span.last + 1 || day == span.first)
      invariant positive <==> PositiveBefore(members, span.first, day)
      decreases span.last - day
    {
      assert span.Contains(day);
      assert invisible[day].hours == HoursAt(members, InvisiblePart, day);
      PositiveBeforeStep(members, span.first, day);
      if invisible[day].hours > 0.0 {
        positive := true;
      }
      day := day + 1;
    }
    if positive {
      var d :| span.first <= d < day && HoursAt(members, InvisiblePart, d) > 0.0;
      assert span.Contains(d);
    } else {
      forall d | span.Contains(d)
        ensures HoursAt(members, InvisiblePart, d) <= 0.0
      {
        assert d < day;
      }
    }
  }

  /** `GroupWorkload`: the selection, the user workload it completes in place, the range, and the members per group. */
  class GroupWorkload {
    const selectedUsers: seq<UserRec>
    const selectedGroups: Option<seq<GroupRec>>
    const timeSpan: Span
    var userWorkload: seq<Member>
    var groupMembers: Option<map<GroupRec, seq<Member>>>

    /** The members per group were taken from the sorted entries as they are now, and the keys are distinct. */
    ghost predicate Valid()
      reads this
    {
      && DistinctOwners(userWorkload)
      && groupMembers == MembersByGroup(selectedGroups, SortByKey(userWorkload))
    }

    /** `initialize`: keeps the selection and the user workload, then defines the group members. */
    constructor(selectedUsers: seq<UserRec>, selectedGroups: Option<seq<GroupRec>>, userWorkload: seq<Member>, timeSpan: Span,
                cache: WorkingDayCache, cal: CalendarData, store: Store)
      requires cache.Consistent(WlRule, cal)
      requires DistinctOwners(userWorkload)
      modifies cache
      ensures cache.Consistent(WlRule, cal)
      ensures this.selectedUsers == selectedUsers && this.selectedGroups == selectedGroups && this.timeSpan == timeSpan
      ensures this.userWorkload == if selectedGroups.Some? && selectedGroups.value != []
                                   then WithAvailabilities(userWorkload, selectedUsers, cal, store, timeSpan)
                                   else userWorkload
      ensures Valid()
    {
      this.selectedUsers := selectedUsers;
      this.selectedGroups := selectedGroups;
      this.timeSpan := timeSpan;
      this.userWorkload := userWorkload;
      this.groupMembers := None;
      new;
      DefineGroupMembers(cache, cal, store);
    }

    /** `total_availabilities_of(user)`: a fresh `WlDayCapacity` per day, asked for the three thresholds. */
    method TotalAvailabilitiesOf(cache: WorkingDayCache, cal: CalendarData, store: Store, u: UserRec) returns (t: CapacityTotal)
      requires cache.Consistent(WlRule, cal)
      modifies cache
      ensures cache.Consistent(WlRule, cal)
      ensures t == AvailabilityTotal(cal, store, timeSpan, u)
    {
      var workingDays := FetchWorkingDays(WlRule, cache, cal, timeSpan, CalendarKeyOf(Some(User(u))));
      t := map[];
      var day := timeSpan.first;
      while day <= timeSpan.last
        invariant timeSpan.first <= day && (day <= timeSpan.last + 1 || day == timeSpan.first)
        invariant t.Keys == Span(timeSpan.first, day - 1).Days()
        invariant forall d :: d in t ==> t[d] == AvailabilityDay(store, u, workingDays, d)
        invariant cache.Consistent(WlRule, cal)
        decreases timeSpan.last - day
      {
        assert Span(timeSpan.first, day).Days() == Span(timeSpan.first, day - 1).Days() + {day};
        var holiday := workingDays !! {day};
        var capacity := new DayCapacity(OfUser(u));
        var low := capacity.ThresholdAt(store, Lowload, holiday);
        var normal := capacity.ThresholdAt(store, Normalload, holiday);
        var high := capacity.ThresholdAt(store, Highload, holiday);
        t := t[day := CapacityDay(0.0, holiday, Thresholds(low, normal, high))];
        day := day + 1;
      }
      assert Span(timeSpan.first, day - 1).Days() == timeSpan.Days();
    }

    /**
     * `user_workload_with_availabilities`: each selected user without an
     * entry gets `{ total: total_availabilities_of(user) }`; a user
     * selected twice would get the same value again, which changes nothing.
     */
    method UserWorkloadWithAvailabilities(cache: WorkingDayCache, cal: CalendarData, store: Store) returns (r: seq<Member>)
      requires cache.Consistent(WlRule, cal)
      requires DistinctOwners(userWorkload)
      modifies this`userWorkload, cache
      ensures cache.Consistent(WlRule, cal)
      ensures userWorkload == WithAvailabilities(old(userWorkload), selectedUsers, cal, store, timeSpan)
      ensures DistinctOwners(userWorkload)
      ensures r == userWorkload
    {
      var availabilities := Availabilities(selectedUsers, Owners(userWorkload));
      ghost var original := userWorkload;
      var i := 0;
      while i < |availabilities|
        invariant 0 <= i <= |availabilities|
        invariant userWorkload == AddAvailabilities(original, availabilities[..i], cal, store, timeSpan)
        invariant cache.Consistent(WlRule, cal)
      {
        var u := availabilities[i];
        AddAvailabilitiesNext(original, availabilities, i, cal, store, timeSpan);
        ghost var next := AddAvailabilities(original, availabilities[..i + 1], cal, store, timeSpan);
        var total := TotalAvailabilitiesOf(cache, cal, store, u);
        if UserOwner(u) !in Owners(userWorkload) {
          assert next == userWorkload + [AvailabilityEntry(cal, store, timeSpan, u)];
          userWorkload := userWorkload + [Member(UserOwner(u), Availability(total))];
        } else {
          assert next == userWorkload;
        }
        assert userWorkload == next;
        i := i + 1;
      }
      assert availabilities[..i] == availabilities;
      AvailabilitiesDistinct(original, availabilities, cal, store, timeSpan);
      r := userWorkload;
    }

    /** `sorted_user_workload`: the completed entries sorted by class name and lastname. */
    method SortedUserWorkload(cache: WorkingDayCache, cal: CalendarData, store: Store) returns (r: seq<Member>)
      requires cache.Consistent(WlRule, cal)
      requires DistinctOwners(userWorkload)
      modifies this`userWorkload, cache
      ensures cache.Consistent(WlRule, cal)
      ensures userWorkload == WithAvailabilities(old(userWorkload), selectedUsers, cal, store, timeSpan)
      ensures DistinctOwners(userWorkload)
      ensures r == SortByKey(userWorkload)
    {
      var entries := UserWorkloadWithAvailabilities(cache, cal, store);
      r := SortByKey(entries);
    }

    /** One group of `define_group_members`: `sorted_user_workload` asked again, the entries whose main group is `g` kept. */
    method GroupEntries(cache: WorkingDayCache, cal: CalendarData, store: Store, g: GroupRec, ghost original: seq<Member>)
      returns (members: seq<Member>)
      requires cache.Consistent(WlRule, cal)
      requires DistinctOwners(userWorkload)
      requires userWorkload == original || userWorkload == WithAvailabilities(original, selectedUsers, cal, store, timeSpan)
      modifies this`userWorkload, cache
      ensures cache.Consistent(WlRule, cal)
      ensures DistinctOwners(userWorkload)
      ensures userWorkload == WithAvailabilities(original, selectedUsers, cal, store, timeSpan)
      ensures members == MembersOf(SortByKey(userWorkload), g)
    {
      var sorted := SortedUserWorkload(cache, cal, store);
      WithAvailabilitiesIdempotent(original, selectedUsers, cal, store, timeSpan);
      members := MembersOf(sorted, g);
    }

    /** `define_group_members`: for each selected group, the sorted entries whose main group it is. */
    method DefineGroupMembers(cache: WorkingDayCache, cal: CalendarData, store: Store)
      requires cache.Consistent(WlRule, cal)
      requires DistinctOwners(userWorkload)
      modifies this`userWorkload, this`groupMembers, cache
      ensures cache.Consistent(WlRule, cal)
      ensures userWorkload == if selectedGroups.Some? && selectedGroups.value != []
                              then WithAvailabilities(old(userWorkload), selectedUsers, cal, store, timeSpan)
                              else old(userWorkload)
      ensures Valid()
    {
      if selectedGroups.None? {
        groupMembers := None;
        return;
      }
      var groups := selectedGroups.value;
      ghost var original := userWorkload;
      var hash := CollectGroupEntries(cache, cal, store, groups, original);
      MembersByGroupFrom(groups, SortByKey(WithAvailabilities(original, selectedUsers, cal, store, timeSpan)), hash);
      groupMembers := Some(hash);
    }

    /** The loop of `define_group_members` over the selected groups. */
    method CollectGroupEntries(cache: WorkingDayCache, cal: CalendarData, store: Store, groups: seq<GroupRec>, ghost original: seq<Member>)
      returns (hash: map<GroupRec, seq<Member>>)
      requires cache.Consistent(WlRule, cal)
      requires DistinctOwners(userWorkload) && userWorkload == original
      modifies this`userWorkload, cache
      ensures cache.Consistent(WlRule, cal)
      ensures DistinctOwners(userWorkload)
      ensures userWorkload == if groups != [] then WithAvailabilities(original, selectedUsers, cal, store, timeSpan) else original
      ensures hash.Keys == set g | g in groups
      ensures forall g :: g in hash ==> hash[g] == MembersOf(SortByKey(WithAvailabilities(original, selectedUsers, cal, store, timeSpan)), g)
    {
      ghost var target := WithAvailabilities(original, selectedUsers, cal, store, timeSpan);
      hash := map[];
      var i := 0;
      while i < |groups|
        invariant 0 <= i <= |groups|
        invariant cache.Consistent(WlRule, cal)
        invariant DistinctOwners(userWorkload)
        invariant i == 0 ==> userWorkload == original
        invariant i > 0 ==> userWorkload == target
        invariant hash.Keys == set g | g in groups[..i]
        invariant forall g :: g in hash ==> hash[g] == MembersOf(SortByKey(target), g)
      {
        var members := GroupEntries(cache, cal, store, groups[i], original);
        assert members == MembersOf(SortByKey(target), groups[i]);
        PrefixSet(groups, i, i + 1);
        hash := hash[groups[i] := members];
        i := i + 1;
      }
      assert groups[..i] == groups;
    }

    /** `total_of_group_members(group)`: every day of the range, summed over the members. */
    method TotalOfGroupMembers(members: seq<Member>) returns (t: CapacityTotal)
      ensures t == GroupTotal(members, timeSpan)
    {
      t := map[];
      var day := timeSpan.first;
      while day <= timeSpan.last
        invariant timeSpan.first <= day && (day <= timeSpan.last + 1 || day == timeSpan.first)
        invariant t == GroupTotal(members, Span(timeSpan.first, day - 1))
        decreases timeSpan.last - day
      {
        assert Span(timeSpan.first, day).Days() == Span(timeSpan.first, day - 1).Days() + {day};
        t := t[day := CapacityDay(HoursAt(members, TotalPart, day), HolidayAt(members, TotalPart, day),
                       Thresholds(ThresholdAt(members, day, Lowload), ThresholdAt(members, day, Normalload), ThresholdAt(members, day, Highload)))];
        day := day + 1;
      }
      assert Span(timeSpan.first, day - 1).Days() == timeSpan.Days();
    }

    /** `invisibles_of_group_members(group)`: the invisible days, kept only when some day has positive hours. */
    method InvisiblesOfGroupMembers(members: seq<Member>) returns (r: Option<Summary>)
      ensures r == GroupInvisible(members, timeSpan)
    {
      var invisible := CollectInvisibleDays(members, timeSpan);
      var positive := AnyInvisibleHours(members, timeSpan, invisible);
      r := if positive then Some(invisible) else None;
    }

    /** `summarize_over_group_members(group)`. */
    method SummarizeOverGroupMembers(members: seq<Member>) returns (s: GroupSummary)
      ensures s == Summarize(members, timeSpan)
    {
      var total := TotalOfGroupMembers(members);
      var invisible := InvisiblesOfGroupMembers(members);
      s := GroupSummary(SumOf(members, OverdueHoursKey), SumOf(members, OverdueNumberKey),
                        SumOf(members, UnscheduledNumberKey), SumOf(members, UnscheduledHoursKey), total, invisible);
    }

    /** `by_group`: nil without a group selection, otherwise each selected group with its sums and its members. */
    method ByGroup() returns (r: Option<map<GroupRec, GroupEntry>>)
      requires Valid()
      ensures r == GroupResults(selectedGroups, SortByKey(userWorkload), timeSpan)
    {
      if selectedGroups.None? {
        return None;
      }
      var groups := selectedGroups.value;
      ghost var sorted := SortByKey(userWorkload);
      var hash: map<GroupRec, GroupEntry> := map[];
      var i := 0;
      while i < |groups|
        invariant 0 <= i <= |groups|
        invariant hash.Keys == set g | g in groups[..i]
        invariant forall g :: g in hash ==> hash[g] == GroupEntry(Summarize(MembersOf(sorted, g), timeSpan), MembersOf(sorted, g))
      {
        var g := groups[i];
        var members := groupMembers.value[g];
        var summary := SummarizeOverGroupMembers(members);
        PrefixSet(groups, i, i + 1);
        hash := hash[g := GroupEntry(summary, members)];
        i := i + 1;
      }
      assert groups[..i] == groups;
      GroupResultsFrom(groups, sorted, timeSpan, hash);
      r := Some(hash);
    }
  }
}
