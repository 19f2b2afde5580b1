/**
 * Concrete cases taken from the repository's unit tests, stated about the
 * model: the group dummy summing its members' thresholds, and the load
 * classes of a few numbers of hours.
 */
module Scenarios {
  import opened Wrappers
  import opened Issues
  import opened Capacity

  const TestGroup := GroupRec(10, "Group")

  /** Two users of the group with their main group set to it, thresholds 2/4/6 and 3/5/7. */
  const GivenStore := Store(
    [UserData(1, Thresholds(2.0, 4.0, 6.0), Some(10)), UserData(2, Thresholds(3.0, 5.0, 7.0), Some(10))],
    map[10 := {1, 2}],
    Settings(None, None, None))

  /** The dummy of the group sums the members' thresholds: 2+3, 4+5 and 6+7. */
  lemma DummySumsGivenThresholds()
    ensures CapacityAt(GivenStore, OfGroup(TestGroup), Lowload, false) == 5.0
    ensures CapacityAt(GivenStore, OfGroup(TestGroup), Normalload, false) == 9.0
    ensures CapacityAt(GivenStore, OfGroup(TestGroup), Highload, false) == 13.0
  {
    var d := GroupUserDummy(TestGroup);
    var data := GivenStore.userData;
    assert data[..1] == [data[0]];
    assert MembersAmong(GivenStore, d, data[..1]) == [data[0]];
    assert data[..|data| - 1] == data[..1];
    assert GroupMembers(GivenStore, d) == data;
    assert Sum(data[..1], Lowload) == 2.0;
    assert Sum(data[..1], Normalload) == 4.0;
    assert Sum(data[..1], Highload) == 6.0;
  }

  /**
   * The same two users, whose records without thresholds fail the presence
   * validation and are never saved: the store holds no record for them.
   */
  const UnsetStore := Store([], map[10 := {1, 2}], Settings(None, None, None))

  /** Without member records the dummy has no members, and `sum_up` returns 0.0 before summing. */
  lemma DummySumsUnsetThresholds(key: ThresholdKey)
    ensures GroupMembers(UnsetStore, GroupUserDummy(TestGroup)) == []
    ensures CapacityAt(UnsetStore, OfGroup(TestGroup), key, false) == 0.0
  {
  }

  /** The settings 0.1 / 5.0 / 7.0 and 0.1 / 2.0 / 7.0 of the load class tests. */
  const Wide := Store([], map[], Settings(Some(0.1), Some(5.0), Some(7.0)))
  const Narrow := Store([], map[], Settings(Some(0.1), Some(2.0), Some(7.0)))

  /** 0.05 hours is 'none', 3.5 hours 'low' or 'normal', 10.5 hours 'high'; unset settings give 'high'. */
  lemma LoadClassExamples()
    ensures LoadClassForHours(Wide, Numeric(0.05), None) == Success(NoLoad)
    ensures LoadClassForHours(Wide, Numeric(3.5), None) == Success(Low)
    ensures LoadClassForHours(Narrow, Numeric(3.5), None) == Success(Normal)
    ensures LoadClassForHours(Narrow, Numeric(10.5), None) == Success(High)
    ensures LoadClassForHours(Store([], map[], Settings(None, None, None)), Numeric(0.05), None) == Success(High)
    ensures LoadClassForHours(Wide, NotNumeric, None) == Failure(ArgumentError)
  {
  }
}
