/**
 * Capacity thresholds and load classes: the per-user threshold records
 * (`WlUserData`), the defaults read from the plugin settings
 * (`WlDefaultUserData`), the group dummy that sums its members' records
 * (`GroupUserDummy`), the capacity of an assignee on a day
 * (`WlDayCapacity`), and the load class of a number of hours
 * (`load_class_for_hours`, `getLoadClassForHours`).
 */
module Capacity {
  import opened Wrappers
  import opened Issues

  /** The three threshold attributes `threshold_lowload_min`, `threshold_normalload_min`, `threshold_highload_min`. */
  datatype ThresholdKey = Lowload | Normalload | Highload

  datatype Thresholds = Thresholds(lowload: real, normalload: real, highload: real) {
    /** `send("threshold_#{key}_min")`. */
    function At(key: ThresholdKey): real {
      match key
      case Lowload => lowload
      case Normalload => normalload
      case Highload => highload
    }
  }

  /** A `WlUserData` record: the user it belongs to, the user's thresholds and the user's main group. */
  datatype UserData = UserData(userId: int, thresholds: Thresholds, mainGroup: Option<int>)

  /**
   * The threshold settings of the plugin as `to_f` reads them: the number a
   * setting starts with, or None when it is unset or does not start with a
   * number (both read as 0.0).
   */
  datatype Settings = Settings(lowload: Option<real>, normalload: Option<real>, highload: Option<real>)

  /** What the queries see: the threshold records, the user ids of each group (`group.users`), and the settings. */
  datatype Store = Store(userData: seq<UserData>, groupUsers: map<int, set<int>>, settings: Settings)

  /** Ruby's `to_f` on a setting. */
  function ToF(v: Option<real>): real {
    if v.Some? then v.value else 0.0
  }

  /** `WlDefaultUserData`: each threshold is its setting read with `to_f`. */
  function DefaultThresholds(s: Settings): Thresholds {
    Thresholds(ToF(s.lowload), ToF(s.normalload), ToF(s.highload))
  }

  /** `WlUserData.find_by user_id:` (and the `has_one :wl_user_data` association): the first record of the user. */
  function FindBy(data: seq<UserData>, userId: int): (r: Option<UserData>)
    ensures r.None? <==> forall i :: 0 <= i < |data| ==> data[i].userId != userId
    ensures r.Some? ==> r.value in data && r.value.userId == userId
  {
    if data == [] then None
    else if data[0].userId == userId then Some(data[0])
    else FindBy(data[1..], userId)
  }

  /** The record found is the first of the user's records. */
  lemma {:induction false} FindByIsFirst(data: seq<UserData>, userId: int, i: int)
    requires 0 <= i < |data| && data[i].userId == userId
    requires forall j :: 0 <= j < i ==> data[j].userId != userId
    ensures FindBy(data, userId) == Some(data[i])
  {
    if i > 0 {
      FindByIsFirst(data[1..], userId, i - 1);
    }
  }

  // ---------------------------------------------------------------------
  // GroupUserDummy

  /** `GroupUserDummy`: the stand-in member of a group; `id` is the group's id and `groups` is just the group. */
  datatype GroupUserDummy = GroupUserDummy(group: GroupRec) {
    function Id(): int {
      group.id
    }

    function Groups(): seq<GroupRec> {
      [group]
    }
  }

  /** `group_member_ids`: the ids of the users of a group. */
  function MemberIds(store: Store, groupId: int): set<int> {
    if groupId in store.groupUsers then store.groupUsers[groupId] else {}
  }

  /** `WlUserData.where(user_id: group_member_ids, main_group: id)`: the records of the group's users naming it as main group. */
  predicate CountsFor(store: Store, d: GroupUserDummy, r: UserData) {
    r.userId in MemberIds(store, d.Id()) && r.mainGroup == Some(d.Id())
  }

  /** The records among `data` that count for the dummy, in order. */
  function MembersAmong(store: Store, d: GroupUserDummy, data: seq<UserData>): (r: seq<UserData>)
    ensures forall x :: x in r <==> x in data && CountsFor(store, d, x)
  {
    if data == [] then []
    else
      var rest := MembersAmong(store, d, data[..|data| - 1]);
      var x := data[|data| - 1];
      assert data == data[..|data| - 1] + [x];
      if CountsFor(store, d, x) then rest + [x] else rest
  }

  /** `group_members`. */
  function GroupMembers(store: Store, d: GroupUserDummy): seq<UserData> {
    MembersAmong(store, d, store.userData)
  }

  /** `.sum(&attribute)` over threshold records. */
  function Sum(records: seq<UserData>, key: ThresholdKey): real {
    if records == [] then 0.0 else Sum(records[..|records| - 1], key) + records[|records| - 1].thresholds.At(key)
  }

  /** `sum_up(attribute)`: nothing without member records, otherwise the sum of the attribute over them. */
  function SumUp(store: Store, d: GroupUserDummy, key: ThresholdKey): real {
    var members := GroupMembers(store, d);
    if members == [] then 0.0 else Sum(members, key)
  }

  /** The dummy's threshold is 0.0 when no record counts for it. */
  lemma {:induction false} SumUpWithoutMembers(store: Store, d: GroupUserDummy, key: ThresholdKey)
    requires forall x :: x in store.userData ==> !CountsFor(store, d, x)
    ensures SumUp(store, d, key) == 0.0
  {
    NoneCount(store, d, store.userData);
  }

  lemma {:induction false} NoneCount(store: Store, d: GroupUserDummy, data: seq<UserData>)
    requires forall x :: x in data ==> !CountsFor(store, d, x)
    ensures MembersAmong(store, d, data) == []
  {
    if data != [] {
      assert data[|data| - 1] in data;
      assert forall x :: x in data[..|data| - 1] ==> x in data;
      NoneCount(store, d, data[..|data| - 1]);
    }
  }

  /** A new record adds its threshold to the dummy's sum exactly when it counts for the dummy. */
  lemma SumUpRecordAdded(store: Store, d: GroupUserDummy, r: UserData, key: ThresholdKey)
    ensures SumUp(store.(userData := store.userData + [r]), d, key)
         == SumUp(store, d, key) + (if CountsFor(store, d, r) then r.thresholds.At(key) else 0.0)
  {
    var bigger := store.(userData := store.userData + [r]);
    assert MemberIds(bigger, d.Id()) == MemberIds(store, d.Id());
    assert (store.userData + [r])[..|store.userData|] == store.userData;
    assert MembersAmong(bigger, d, store.userData) == MembersAmong(store, d, store.userData) by {
      MembersSameStore(store, bigger, d, store.userData);
    }
  }

  /** Which records count depends only on the group memberships, not on the records held. */
  lemma {:induction false} MembersSameStore(s1: Store, s2: Store, d: GroupUserDummy, data: seq<UserData>)
    requires s1.groupUsers == s2.groupUsers
    ensures MembersAmong(s1, d, data) == MembersAmong(s2, d, data)
  {
    if data != [] {
      MembersSameStore(s1, s2, d, data[..|data| - 1]);
    }
  }

  /** With non-negative thresholds every member record's value is at most the dummy's sum. */
  lemma {:induction false} SumBoundsMember(records: seq<UserData>, key: ThresholdKey, x: UserData)
    requires forall y :: y in records ==> y.thresholds.At(key) >= 0.0
    requires x in records
    ensures x.thresholds.At(key) <= Sum(records, key)
  {
    var prefix := records[..|records| - 1];
    var last := records[|records| - 1];
    assert records == prefix + [last];
    SumNonNegative(prefix, key);
    if x != last {
      SumBoundsMember(prefix, key, x);
    }
  }

  lemma {:induction false} SumNonNegative(records: seq<UserData>, key: ThresholdKey)
    requires forall y :: y in records ==> y.thresholds.At(key) >= 0.0
    ensures Sum(records, key) >= 0.0
  {
    if records != [] {
      var prefix := records[..|records| - 1];
      assert forall y :: y in prefix ==> y in records;
      SumNonNegative(prefix, key);
    }
  }

  // ---------------------------------------------------------------------
  // WlDayCapacity

  /** What `WlDayCapacity` can be built for: the sentinel `'unassigned'`, an Integer id, a User, a Group, or a dummy. */
  datatype CapacityAssignee = Unassigned | IntegerId(n: int) | OfUser(user: UserRec) | OfGroup(group: GroupRec) | OfDummy(dummy: GroupUserDummy)

  /** The sentinels for which `threshold_at` answers 0.0 at once. */
  predicate IsSentinel(a: CapacityAssignee) {
    a.Unassigned? || a.IntegerId?
  }

  /** Where `user` finds the thresholds: the user's record, the defaults, or a group dummy. */
  datatype ThresholdSource = FromRecord(record: UserData) | FromDefaults | FromDummy(dummy: GroupUserDummy)

  /**
   * `user`: a User's own record or else the defaults; for anything else a
   * dummy of it.  A dummy built over a dummy delegates `id` and `users` to
   * the same group, so it is that group's dummy.
   */
  function Resolve(store: Store, a: CapacityAssignee): ThresholdSource
    requires !IsSentinel(a)
  {
    match a
    case OfUser(u) => (var r := FindBy(store.userData, u.id); if r.Some? then FromRecord(r.value) else FromDefaults)
    case OfGroup(g) => FromDummy(GroupUserDummy(g))
    case OfDummy(d) => FromDummy(d)
  }

  /** The `threshold_<key>_min` of a source; the defaults and the dummy's sums are read again on every call. */
  function SourceThreshold(store: Store, s: ThresholdSource, key: ThresholdKey): real {
    match s
    case FromRecord(r) => r.thresholds.At(key)
    case FromDefaults => DefaultThresholds(store.settings).At(key)
    case FromDummy(d) => SumUp(store, d, key)
  }

  /** The threshold of the user with this id: the own record's when there is one, the default otherwise. */
  function UserThreshold(store: Store, userId: int, key: ThresholdKey): real {
    var r := FindBy(store.userData, userId);
    if r.Some? then r.value.thresholds.At(key) else DefaultThresholds(store.settings).At(key)
  }

  /** `threshold_at(key, holiday)` of a fresh `WlDayCapacity`. */
  function CapacityAt(store: Store, a: CapacityAssignee, key: ThresholdKey, holiday: bool): (t: real)
    ensures IsSentinel(a) || holiday ==> t == 0.0
    ensures a.OfUser? && !holiday ==> t == UserThreshold(store, a.user.id, key)
    ensures a.OfGroup? && !holiday ==> t == SumUp(store, GroupUserDummy(a.group), key)
    ensures a.OfDummy? && !holiday ==> t == SumUp(store, a.dummy, key)
  {
    if IsSentinel(a) then 0.0
    else if holiday then 0.0
    else SourceThreshold(store, Resolve(store, a), key)
  }

  /** The sum of the thresholds of the users behind some records. */
  function UserThresholdSum(store: Store, records: seq<UserData>, key: ThresholdKey): real {
    if records == [] then 0.0
    else UserThresholdSum(store, records[..|records| - 1], key) + UserThreshold(store, records[|records| - 1].userId, key)
  }

  /** Each user has at most one threshold record. */
  predicate OneRecordPerUser(data: seq<UserData>) {
    forall i, j :: 0 <= i < j < |data| ==> data[i].userId != data[j].userId
  }

  /**
   * The capacity of a group on a working day is the sum of the capacities of
   * its members whose main group it is, when each user has one record.
   */
  lemma GroupCapacityIsMemberSum(store: Store, g: GroupRec, key: ThresholdKey)
    requires OneRecordPerUser(store.userData)
    ensures CapacityAt(store, OfGroup(g), key, false) == UserThresholdSum(store, GroupMembers(store, GroupUserDummy(g)), key)
  {
    var d := GroupUserDummy(g);
    var members := GroupMembers(store, d);
    forall x | x in members ensures FindBy(store.userData, x.userId) == Some(x) {
      var i :| 0 <= i < |store.userData| && store.userData[i] == x;
      FindByIsFirst(store.userData, x.userId, i);
    }
    OwnRecordSum(store, members, key);
    if members == [] {
      assert UserThresholdSum(store, members, key) == 0.0;
    }
  }

  lemma {:induction false} OwnRecordSum(store: Store, records: seq<UserData>, key: ThresholdKey)
    requires forall x :: x in records ==> FindBy(store.userData, x.userId) == Some(x)
    ensures UserThresholdSum(store, records, key) == Sum(records, key)
  {
    if records != [] {
      var prefix := records[..|records| - 1];
      assert forall x :: x in prefix ==> x in records;
      assert records[|records| - 1] in records;
      OwnRecordSum(store, prefix, key);
    }
  }

  /** `WlDayCapacity`: the assignee and the memoised `@user`. */
  class DayCapacity {
    const assignee: CapacityAssignee
    var user: Option<ThresholdSource>

    constructor(assignee: CapacityAssignee)
      ensures this.assignee == assignee && user == None
    {
      this.assignee := assignee;
      user := None;
    }

    /** The memo agrees with what the records say now. */
    ghost predicate Fresh(store: Store)
      reads this
    {
      user.Some? ==> !IsSentinel(assignee) && user.value == Resolve(store, assignee)
    }

    /** `user`: `@user ||= ...`, resolved on the first call and reused afterwards. */
    method User(store: Store) returns (s: ThresholdSource)
      requires !IsSentinel(assignee)
      modifies this
      ensures old(user).Some? ==> s == old(user).value
      ensures old(user).None? ==> s == Resolve(store, assignee)
      ensures user == Some(s)
    {
      if user.None? {
        user := Some(Resolve(store, assignee));
      }
      s := user.value;
    }

    /** `threshold_at(key, holiday)`: 0.0 for a sentinel or on a holiday, otherwise the memoised source's threshold. */
    method ThresholdAt(store: Store, key: ThresholdKey, holiday: bool) returns (t: real)
      modifies this
      ensures IsSentinel(assignee) || holiday ==> t == 0.0 && user == old(user)
      ensures !IsSentinel(assignee) && !holiday ==>
        && user == Some(if old(user).Some? then old(user).value else Resolve(store, assignee))
        && t == SourceThreshold(store, user.value, key)
      ensures old(Fresh(store)) ==> Fresh(store) && t == CapacityAt(store, assignee, key, holiday)
    {
      if IsSentinel(assignee) {
        return 0.0;
      }
      if holiday {
        return 0.0;
      }
      var s := User(store);
      t := SourceThreshold(store, s, key);
    }
  }

  // ---------------------------------------------------------------------
  // Load classes

  /** The css classes `'none'`, `'low'`, `'normal'`, `'high'`. */
  datatype LoadClass = NoLoad | Low | Normal | High {
    function CssClass(): string {
      match this
      case NoLoad => "none"
      case Low => "low"
      case Normal => "normal"
      case High => "high"
    }

    function Rank(): nat {
      match this
      case NoLoad => 0
      case Low => 1
      case Normal => 2
      case High => 3
    }
  }

  /** The if-chain: below the low threshold none, below the normal one low, below the high one normal, else high. */
  function ClassFor(hours: real, t: Thresholds): (c: LoadClass)
    ensures c == NoLoad <==> hours < t.lowload
    ensures c == Low <==> t.lowload <= hours < t.normalload
    ensures c == Normal <==> t.lowload <= hours && t.normalload <= hours && hours < t.highload
    ensures c == High <==> t.lowload <= hours && t.normalload <= hours && t.highload <= hours
  {
    if hours < t.lowload then NoLoad
    else if hours < t.normalload then Low
    else if hours < t.highload then Normal
    else High
  }

  /** For any thresholds, more hours never give a lower class. */
  lemma ClassMonotone(h1: real, h2: real, t: Thresholds)
    requires h1 <= h2
    ensures ClassFor(h1, t).Rank() <= ClassFor(h2, t).Rank()
  {
  }

  /** The argument `hours`: a value that answers `to_f` (with what it answers), or one that does not. */
  datatype HoursArg = Numeric(value: real) | NotNumeric

  /** The thresholds `load_class_for_hours` uses: the user's own record when it has one, the settings otherwise. */
  function LoadThresholds(store: Store, userId: Option<int>): Thresholds {
    if userId.Some? && FindBy(store.userData, userId.value).Some? then FindBy(store.userData, userId.value).value.thresholds
    else DefaultThresholds(store.settings)
  }

  /** `load_class_for_hours(hours, user)`: ArgumentError unless `hours` answers `to_f`, else the class under the user's thresholds. */
  function LoadClassForHours(store: Store, hours: HoursArg, userId: Option<int>): (r: Result<LoadClass>)
    ensures hours.NotNumeric? <==> r.Failure?
    ensures r.Failure? ==> r.error == ArgumentError
    ensures hours.Numeric? && userId.Some? && FindBy(store.userData, userId.value).Some? ==>
              r == Success(ClassFor(hours.value, FindBy(store.userData, userId.value).value.thresholds))
    ensures hours.Numeric? && (userId.None? || FindBy(store.userData, userId.value).None?) ==>
              r == Success(ClassFor(hours.value, DefaultThresholds(store.settings)))
  {
    if hours.NotNumeric? then Failure(ArgumentError)
    else Success(ClassFor(hours.value, LoadThresholds(store, userId)))
  }

  /** `getLoadClassForHours(hours)`: the same chain over the settings only. */
  function GetLoadClassForHours(settings: Settings, hours: HoursArg): Result<LoadClass> {
    if hours.NotNumeric? then Failure(ArgumentError)
    else
      var h := hours.value;
      if h < ToF(settings.lowload) then Success(NoLoad)
      else if h < ToF(settings.normalload) then Success(Low)
      else if h < ToF(settings.highload) then Success(Normal)
      else Success(High)
  }

  /** The old per-setting chain agrees with the current helper for a call without a user. */
  lemma LegacyLoadClassAgrees(store: Store, hours: HoursArg)
    ensures GetLoadClassForHours(store.settings, hours) == LoadClassForHours(store, hours, None)
  {
  }

  /** With the threshold settings unset and no record for the user, any non-negative number of hours is 'high'. */
  lemma UnsetDefaultsGiveHigh(store: Store, h: real, userId: Option<int>)
    requires store.settings == Settings(None, None, None)
    requires userId.None? || FindBy(store.userData, userId.value).None?
    requires h >= 0.0
    ensures LoadClassForHours(store, Numeric(h), userId) == Success(High)
  {
  }
}
