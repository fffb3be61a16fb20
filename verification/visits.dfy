/**
 Counting event occurrences over cached statistic rows: the period windows the services
 filter by, per-user and overall counts, and the facts that tie them together.
 Every entry of a row's `dates` is one occurrence; duplicates count separately.
 */
module Visits {
  import opened Wrappers
  import opened Calendar
  import opened CompactDate
  import opened Stored

  /**
   Which occurrences an aggregation keeps:
   - `SameRaw(m)`: the raw integer equals `m` (the "today" period);
   - `LastDays(n, maxDay)`: the entry decodes to a date between `n` days before day
     `maxDay` and that day, both ends included; undecodable entries are skipped;
   - `Unbounded`: every entry.
   */
  datatype Window = SameRaw(maxTimestamp: int) | LastDays(days: nat, maxDay: int) | Unbounded

  predicate InWindow(timestamp: int, w: Window) {
    match w
    case SameRaw(m) => timestamp == m
    case LastDays(n, maxDay) =>
      (match StatisticDate(timestamp)
       case None => false
       case Some(d) => maxDay - n <= DayNumber(d) <= maxDay)
    case Unbounded => true
  }

  /** The occurrences in `dates` that fall in the window, duplicates counted. */
  function CountInWindow(dates: seq<int>, w: Window): (c: nat)
    ensures c <= |dates|
    ensures w.Unbounded? ==> c == |dates|
  {
    if |dates| == 0 then 0
    else CountInWindow(dates[..|dates| - 1], w) + (if InWindow(dates[|dates| - 1], w) then 1 else 0)
  }

  /** The count reaches the length exactly when every entry is in the window, and is 0 exactly when none is. */
  lemma {:induction false} CountInWindowExtremes(dates: seq<int>, w: Window)
    ensures CountInWindow(dates, w) == |dates| <==> forall i :: 0 <= i < |dates| ==> InWindow(dates[i], w)
    ensures CountInWindow(dates, w) == 0 <==> forall i :: 0 <= i < |dates| ==> !InWindow(dates[i], w)
  {
    if |dates| > 0 {
      var init := dates[..|dates| - 1];
      CountInWindowExtremes(init, w);
      assert forall i :: 0 <= i < |init| ==> init[i] == dates[i];
    }
  }

  lemma {:induction false} CountInWindowAppend(a: seq<int>, b: seq<int>, w: Window)
    ensures CountInWindow(a + b, w) == CountInWindow(a, w) + CountInWindow(b, w)
    decreases |b|
  {
    if |b| == 0 {
      assert a + b == a;
    } else {
      var b' := b[..|b| - 1];
      assert (a + b)[..|a + b| - 1] == a + b';
      CountInWindowAppend(a, b', w);
    }
  }

  /** Every date entry of every row, row after row. */
  function AllDates(rows: seq<StoredStatisticItem>): (r: seq<int>)
    ensures forall t :: t in r <==> exists i :: 0 <= i < |rows| && t in rows[i].dates
  {
    if |rows| == 0 then []
    else
      var init := rows[..|rows| - 1];
      var r0 := AllDates(init);
      assert forall i :: 0 <= i < |init| ==> init[i] == rows[i];
      r0 + rows[|rows| - 1].dates
  }

  /** The largest raw integer in a non-empty list (Swift's `max()`). */
  function MaxOf(s: seq<int>): (m: int)
    requires |s| > 0
    ensures m in s
    ensures forall i :: 0 <= i < |s| ==> s[i] <= m
  {
    if |s| == 1 then s[0]
    else
      var m0 := MaxOf(s[..|s| - 1]);
      assert forall i :: 0 <= i < |s| - 1 ==> s[..|s| - 1][i] == s[i];
      if s[|s| - 1] > m0 then s[|s| - 1] else m0
  }

  /** The periods the dashboard offers, each ending at the latest date in the statistics. */
  datatype Period = Today | Week | Month | AllTime

  /**
   The window of a period ending at the latest view date: "today" is every entry equal to
   the largest raw integer, "week" and "month" the dates from 7 and 30 days before that
   date up to it, "all time" everything.
   */
  function PeriodWindow(period: Period, maxTimestamp: int, maxDate: Date): (w: Window)
    requires IsValid(maxDate)
    ensures period == Today ==> forall t :: InWindow(t, w) <==> t == maxTimestamp
    ensures period == Week ==> forall t :: InWindow(t, w) <==>
      StatisticDate(t).Some? && WithinDaysBefore(StatisticDate(t).value, 7, maxDate)
    ensures period == Month ==> forall t :: InWindow(t, w) <==>
      StatisticDate(t).Some? && WithinDaysBefore(StatisticDate(t).value, 30, maxDate)
    ensures period == AllTime ==> forall t :: InWindow(t, w)
  {
    match period
    case Today => SameRaw(maxTimestamp)
    case Week =>
      LastDaysMeaning(7, maxDate);
      LastDays(7, DayNumber(maxDate))
    case Month =>
      LastDaysMeaning(30, maxDate);
      LastDays(30, DayNumber(maxDate))
    case AllTime => Unbounded
  }

  /** The ordinal window of `n` days up to `maxDate` keeps the dates at most `n` days before it. */
  lemma LastDaysMeaning(n: nat, maxDate: Date)
    requires IsValid(maxDate)
    ensures forall t :: InWindow(t, LastDays(n, DayNumber(maxDate))) <==>
      StatisticDate(t).Some? && WithinDaysBefore(StatisticDate(t).value, n, maxDate)
  {
    forall t
      ensures InWindow(t, LastDays(n, DayNumber(maxDate))) <==>
        StatisticDate(t).Some? && WithinDaysBefore(StatisticDate(t).value, n, maxDate)
    {
      if StatisticDate(t).Some? {
        WithinDaysBeforeOrdinal(StatisticDate(t).value, n, maxDate);
      }
    }
  }

  /**
   The period's window over a set of rows, or nothing when there is no date entry or the
   largest raw integer does not decode.
   */
  function LatestWindow(rows: seq<StoredStatisticItem>, period: Period): (r: Option<Window>)
    ensures r.None? <==> |AllDates(rows)| == 0 || StatisticDate(MaxOf(AllDates(rows))).None?
    ensures r.Some? && period == Today ==> r.value == SameRaw(MaxOf(AllDates(rows)))
    ensures r.Some? && period == Week ==>
      r.value == LastDays(7, DayNumber(StatisticDate(MaxOf(AllDates(rows))).value))
    ensures r.Some? && period == Month ==>
      r.value == LastDays(30, DayNumber(StatisticDate(MaxOf(AllDates(rows))).value))
    ensures r.Some? && period == AllTime ==> r.value == Unbounded
  {
    var all := AllDates(rows);
    if |all| == 0 then None
    else
      var maxTimestamp := MaxOf(all);
      match StatisticDate(maxTimestamp)
      case None => None
      case Some(maxDate) => Some(PeriodWindow(period, maxTimestamp, maxDate))
  }

  /** The in-window occurrences of all rows together. */
  function PeriodTotal(rows: seq<StoredStatisticItem>, w: Window): (n: nat)
    ensures n == CountInWindow(AllDates(rows), w)
  {
    if |rows| == 0 then 0
    else
      var init := rows[..|rows| - 1];
      CountInWindowAppend(AllDates(init), rows[|rows| - 1].dates, w);
      PeriodTotal(init, w) + CountInWindow(rows[|rows| - 1].dates, w)
  }

  /** The in-window occurrences of one user, summed over all of that user's rows. */
  function UserVisits(rows: seq<StoredStatisticItem>, w: Window, userId: int): (n: nat)
    ensures n <= PeriodTotal(rows, w)
    ensures (forall i :: 0 <= i < |rows| ==> rows[i].userId != userId) ==> n == 0
  {
    if |rows| == 0 then 0
    else
      var init := rows[..|rows| - 1];
      var last := rows[|rows| - 1];
      assert forall i :: 0 <= i < |init| ==> init[i] == rows[i];
      UserVisits(init, w, userId) + (if last.userId == userId then CountInWindow(last.dates, w) else 0)
  }

  predicate Distinct(ids: seq<int>) {
    forall i, j :: 0 <= i < j < |ids| ==> ids[i] != ids[j]
  }

  /** The in-window occurrences of the users `ids`, each counted once per listing. */
  function SumUserVisits(ids: seq<int>, rows: seq<StoredStatisticItem>, w: Window): nat {
    if |ids| == 0 then 0
    else SumUserVisits(ids[..|ids| - 1], rows, w) + UserVisits(rows, w, ids[|ids| - 1])
  }

  /** Adding one row adds its count once for every listing of its user. */
  lemma {:induction false} SumUserVisitsSnoc(ids: seq<int>, rows: seq<StoredStatisticItem>, r: StoredStatisticItem, w: Window)
    requires Distinct(ids)
    ensures r.userId in ids ==>
      SumUserVisits(ids, rows + [r], w) == SumUserVisits(ids, rows, w) + CountInWindow(r.dates, w)
    ensures r.userId !in ids ==> SumUserVisits(ids, rows + [r], w) == SumUserVisits(ids, rows, w)
  {
    assert (rows + [r])[..|rows|] == rows;
    if |ids| > 0 {
      var init := ids[..|ids| - 1];
      assert ids == init + [ids[|ids| - 1]];
      SumUserVisitsSnoc(init, rows, r, w);
    }
  }

  /**
   Counting distinct users one by one never exceeds the period total, and reaches it
   when every row's user is listed.
   */
  lemma {:induction false} SumUserVisitsBound(ids: seq<int>, rows: seq<StoredStatisticItem>, w: Window)
    requires Distinct(ids)
    ensures SumUserVisits(ids, rows, w) <= PeriodTotal(rows, w)
    ensures (forall i :: 0 <= i < |rows| ==> rows[i].userId in ids) ==>
      SumUserVisits(ids, rows, w) == PeriodTotal(rows, w)
  {
    if |rows| == 0 {
      SumUserVisitsEmpty(ids, w);
    } else {
      var init := rows[..|rows| - 1];
      var last := rows[|rows| - 1];
      assert rows == init + [last];
      SumUserVisitsBound(ids, init, w);
      SumUserVisitsSnoc(ids, init, last, w);
    }
  }

  lemma {:induction false} SumUserVisitsEmpty(ids: seq<int>, w: Window)
    ensures SumUserVisits(ids, [], w) == 0
  {
    if |ids| > 0 {
      SumUserVisitsEmpty(ids[..|ids| - 1], w);
    }
  }

  /**
   The "today" window keys on the largest raw integer, not the latest date: of the view
   dates 1 January 2024 (1012024) and 31 December 2023 (31122023), "today" is the earlier.
   */
  lemma TodayIsLargestRawInteger()
    ensures MaxOf([1012024, 31122023]) == 31122023
    ensures StatisticDate(1012024) == Some(Date(1, 1, 2024))
    ensures StatisticDate(31122023) == Some(Date(31, 12, 2023))
    ensures Before(Date(31, 12, 2023), Date(1, 1, 2024))
  {
    LargerRawOfPair();
    DecodeKnown(Date(1, 1, 2024), 1012024);
    DecodeKnown(Date(31, 12, 2023), 31122023);
  }

  lemma LargerRawOfPair()
    ensures MaxOf([1012024, 31122023]) == 31122023
  {
    assert [1012024, 31122023][..1] == [1012024];
  }

  lemma DecodeKnown(d: Date, timestamp: int)
    requires IsValid(d) && d.year <= 9999 && Encode(d) == timestamp
    ensures StatisticDate(timestamp) == Some(d)
  {
    DecodeEncode(d);
  }
}
