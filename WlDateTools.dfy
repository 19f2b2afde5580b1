/** `RedmineWorkload::WlDateTools`: the calendar of the current engine. */
module WlDateTools {
  import opened Dates
  import opened Calendar
  import opened DayCache

  /** Holidays and the vacations of users are taken out of a range. */
  const WlRule: Rule := HolidaysAndUserVacations

  /**
   * `working_days_in_time_span(time_span, assignee, no_cache:)`: clears the
   * whole cache when asked to, then returns the stored set for
   * (assignee, range) or computes and stores it.
   */
  method WorkingDaysInTimeSpan(cache: WorkingDayCache, cal: CalendarData, span: Span, key: AssigneeKey, noCache: bool)
    returns (result: set<Date>)
    modifies cache
    ensures noCache || CacheKey(key, span) !in old(cache.entries) ==>
      && result == WorkingDaySet(WlRule, cal, key, span)
      && cache.entries == (if noCache then map[] else old(cache.entries))[CacheKey(key, span) := result]
    ensures !noCache && CacheKey(key, span) in old(cache.entries) ==>
      result == old(cache.entries)[CacheKey(key, span)] && cache.entries == old(cache.entries)
    ensures old(cache.Consistent(WlRule, cal)) ==>
      cache.Consistent(WlRule, cal) && result == WorkingDaySet(WlRule, cal, key, span)
  {
    if noCache {
      cache.Clear();
    }
    var k := CacheKey(key, span);
    if k in cache.entries {
      result := cache.entries[k];
    } else {
      result := CollectWorkingDays(WlRule, cal, key, span);
      cache.Store(k, result);
    }
  }

  /** `real_distance_in_days`: the number of working days of the range. */
  method RealDistanceInDays(cache: WorkingDayCache, cal: CalendarData, span: Span, key: AssigneeKey)
    returns (n: nat)
    requires cache.Consistent(WlRule, cal)
    modifies cache
    ensures cache.Consistent(WlRule, cal)
    ensures n == |WorkingDaySet(WlRule, cal, key, span)| && n <= span.Length()
  {
    var days := WorkingDaysInTimeSpan(cache, cal, span, key, false);
    WorkingDayCountBound(WlRule, cal, key, span);
    n := |days|;
  }

  /** One entry of `months_in_time_span`: the part of the range inside one month. */
  datatype MonthPiece = MonthPiece(firstDay: Date, lastDay: Date)

  function Min(a: int, b: int): (m: int)
    ensures m <= a && m <= b && (m == a || m == b)
  {
    if a <= b then a else b
  }

  /** The pieces the loop of `months_in_time_span` pushes, from the day `first` on, for a range ending on `last`. */
  function PiecesFrom(first: Date, last: Date): seq<MonthPiece>
    decreases last - first
  {
    if last < first then []
    else [MonthPiece(first, Min(EndOfMonth(first), last))] + PiecesFrom(BeginningOfNextMonth(first), last)
  }

  /** The pieces follow each other without gap, from the first day of the range to its last. */
  ghost predicate Contiguous(span: Span, pieces: seq<MonthPiece>) {
    && |pieces| > 0
    && pieces[0].firstDay == span.first
    && pieces[|pieces| - 1].lastDay == span.last
    && (forall i :: 0 <= i < |pieces| ==> pieces[i].firstDay <= pieces[i].lastDay)
    && (forall i :: 0 <= i < |pieces| - 1 ==> pieces[i + 1].firstDay == pieces[i].lastDay + 1)
  }

  /**
   * Piece i lies inside the i-th month counted from the month of the first
   * day; every piece but the first starts its month and every piece but the
   * last ends it.
   */
  ghost predicate MonthAligned(m: int, pieces: seq<MonthPiece>) {
    && (forall i :: 0 <= i < |pieces| ==>
          MonthIndexOf(pieces[i].firstDay) == m + i && MonthIndexOf(pieces[i].lastDay) == m + i)
    && (forall i :: 0 < i < |pieces| ==> FirstOfMonth(pieces[i].firstDay) == pieces[i].firstDay)
    && (forall i :: 0 <= i < |pieces| - 1 ==> EndOfMonth(pieces[i].lastDay) == pieces[i].lastDay)
  }

  /** The month split of a non-empty range. */
  ghost predicate IsMonthSplit(span: Span, pieces: seq<MonthPiece>) {
    Contiguous(span, pieces) && MonthAligned(MonthIndexOf(span.first), pieces)
  }

  lemma {:induction false} PiecesFromContiguous(first: Date, last: Date)
    requires first <= last
    ensures Contiguous(Span(first, last), PiecesFrom(first, last))
    decreases last - first
  {
    var next := BeginningOfNextMonth(first);
    if next <= last {
      PiecesFromContiguous(next, last);
    }
  }

  /** The first day's month and the one of the last piece are the first and last month of the range. */
  lemma {:induction false} PiecesFromLength(first: Date, last: Date)
    requires first <= last
    ensures |PiecesFrom(first, last)| == MonthIndexOf(last) - MonthIndexOf(first) + 1
    decreases last - first
  {
    var next := BeginningOfNextMonth(first);
    if next <= last {
      PiecesFromLength(next, last);
    } else {
      MonthIndexUnique(last, MonthIndexOf(first));
    }
  }

  lemma {:induction false} PiecesFromAligned(first: Date, last: Date)
    requires first <= last
    ensures MonthAligned(MonthIndexOf(first), PiecesFrom(first, last))
    decreases last - first
  {
    var next := BeginningOfNextMonth(first);
    var head := MonthPiece(first, Min(EndOfMonth(first), last));
    var rest := PiecesFrom(next, last);
    var p := [head] + rest;
    assert PiecesFrom(first, last) == p;
    var m := MonthIndexOf(first);
    if next <= last {
      PiecesFromAligned(next, last);
      assert EndOfMonth(first) < last;
      forall i | 0 <= i < |p|
        ensures MonthIndexOf(p[i].firstDay) == m + i && MonthIndexOf(p[i].lastDay) == m + i
      {
        if i > 0 { assert p[i] == rest[i - 1]; }
      }
      forall i | 0 < i < |p| ensures FirstOfMonth(p[i].firstDay) == p[i].firstDay {
        assert p[i] == rest[i - 1];
      }
      forall i | 0 <= i < |p| - 1 ensures EndOfMonth(p[i].lastDay) == p[i].lastDay {
        if i > 0 { assert p[i] == rest[i - 1]; }
        else { EndOfMonthIdempotent(first); }
      }
    } else {
      assert p == [head];
      MonthIndexUnique(last, m);
    }
  }

  lemma EndOfMonthIdempotent(d: Date)
    ensures EndOfMonth(EndOfMonth(d)) == EndOfMonth(d)
  {
  }

  /**
   * `months_in_time_span`: [] for an empty range, otherwise its split into
   * month pieces.  `DateTools.months_in_timespan` and
   * `ListUser#months_in_timespan` have the same body.
   */
  method MonthsInTimeSpan(span: Span) returns (result: seq<MonthPiece>)
    ensures span.IsEmpty() ==> result == []
    ensures !span.IsEmpty() ==> IsMonthSplit(span, result)
    ensures !span.IsEmpty() ==> |result| == MonthIndexOf(span.last) - MonthIndexOf(span.first) + 1
  {
    if span.IsEmpty() {
      return [];
    }
    var first := span.first;
    var last := Min(EndOfMonth(first), span.last);
    result := [];
    while first <= span.last
      invariant last == Min(EndOfMonth(first), span.last)
      invariant result + PiecesFrom(first, span.last) == PiecesFrom(span.first, span.last)
      decreases span.last - first
    {
      ghost var rest := PiecesFrom(BeginningOfNextMonth(first), span.last);
      assert PiecesFrom(first, span.last) == [MonthPiece(first, last)] + rest;
      assert result + PiecesFrom(first, span.last) == (result + [MonthPiece(first, last)]) + rest;
      result := result + [MonthPiece(first, last)];
      first := BeginningOfNextMonth(first);
      last := Min(EndOfMonth(first), span.last);
    }
    assert result == PiecesFrom(span.first, span.last);
    assert span == Span(span.first, span.last);
    PiecesFromContiguous(span.first, span.last);
    PiecesFromAligned(span.first, span.last);
    PiecesFromLength(span.first, span.last);
  }

  /** Every day of the range lies in exactly one piece, and no piece holds a day outside it. */
  lemma {:induction false} MonthSplitCovers(span: Span, pieces: seq<MonthPiece>, d: Date)
    requires Contiguous(span, pieces)
    ensures span.Contains(d) <==> exists i :: 0 <= i < |pieces| && pieces[i].firstDay <= d <= pieces[i].lastDay
    ensures forall i, j :: 0 <= i < |pieces| && 0 <= j < |pieces|
              && pieces[i].firstDay <= d <= pieces[i].lastDay
              && pieces[j].firstDay <= d <= pieces[j].lastDay
              ==> i == j
  {
    PiecesOrdered(span, pieces);
    if span.Contains(d) {
      var i := 0;
      while pieces[i].lastDay < d
        invariant 0 <= i < |pieces| && pieces[i].firstDay <= d
        decreases |pieces| - i
      {
        i := i + 1;
      }
    }
  }

  lemma {:induction false} PiecesOrdered(span: Span, pieces: seq<MonthPiece>)
    requires Contiguous(span, pieces)
    ensures forall i, j :: 0 <= i < j < |pieces| ==> pieces[i].lastDay < pieces[j].firstDay
    ensures forall i :: 0 <= i < |pieces| ==> span.first <= pieces[i].firstDay && pieces[i].lastDay <= span.last
  {
    forall i, j | 0 <= i < j < |pieces| ensures pieces[i].lastDay < pieces[j].firstDay {
      var k := i + 1;
      while k < j
        invariant i < k <= j && pieces[i].lastDay < pieces[k].firstDay
        decreases j - k
      {
        k := k + 1;
      }
    }
    forall i | 0 <= i < |pieces| ensures span.first <= pieces[i].firstDay && pieces[i].lastDay <= span.last {
      if i > 0 { assert pieces[0].lastDay < pieces[i].firstDay; }
      if i < |pieces| - 1 { assert pieces[i].lastDay < pieces[|pieces| - 1].firstDay; }
    }
  }
}
