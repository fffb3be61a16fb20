/**
 `RealmService.getFollowersCountsLastMonth`: how many subscription and unsubscription
 events fall in the 30 days up to the latest follower event. Every date entry is one
 event; nothing is de-duplicated.
 */
module Followers {
  import opened Wrappers
  import opened Calendar
  import opened CompactDate
  import opened Stored
  import opened Store
  import opened Visits
  import opened Seqs

  /** The `(new:, lost:)` pair. */
  datatype FollowerCounts = FollowerCounts(gained: nat, lost: nat)

  /** The rows of exactly one raw type. */
  function RowsOfType(rows: seq<StoredStatisticItem>, kind: string): seq<StoredStatisticItem> {
    RowsOfKind(rows, {kind})
  }

  /**
   The counts as a specification: the in-window events of the subscription rows and of the
   unsubscription rows, in the window that `LatestWindow` gives the follower rows for a month.
   Absent when there is no follower row, no date, or the largest raw integer does not decode.
   */
  function FollowersLastMonth(st: Store): (r: Option<FollowerCounts>)
    ensures r.None? <==> LatestWindow(FollowerRows(st.statistics), Month).None?
    ensures r.Some? ==>
      var rows := FollowerRows(st.statistics);
      var w := LatestWindow(rows, Month).value;
      && r.value.gained == PeriodTotal(RowsOfType(rows, "subscription"), w)
      && r.value.lost == PeriodTotal(RowsOfType(rows, "unsubscription"), w)
      && r.value.gained + r.value.lost == PeriodTotal(rows, w)
      && r.value.gained + r.value.lost <= |AllDates(rows)|
  {
    var rows := FollowerRows(st.statistics);
    if |rows| == 0 then None
    else match LatestWindow(rows, Month)
      case None => None
      case Some(w) =>
        TypesPartition(rows, w);
        Some(FollowerCounts(PeriodTotal(RowsOfType(rows, "subscription"), w),
                            PeriodTotal(RowsOfType(rows, "unsubscription"), w)))
  }

  lemma FollowersLastMonthValue(st: Store, w: Window)
    requires LatestWindow(FollowerRows(st.statistics), Month) == Some(w)
    ensures FollowersLastMonth(st) == Some(FollowerCounts(
      PeriodTotal(RowsOfType(FollowerRows(st.statistics), "subscription"), w),
      PeriodTotal(RowsOfType(FollowerRows(st.statistics), "unsubscription"), w)))
  {
  }

  /** Every follower row is a subscription row or an unsubscription row, so their totals add up. */
  lemma {:induction false} TypesPartition(rows: seq<StoredStatisticItem>, w: Window)
    requires forall i :: 0 <= i < |rows| ==> rows[i].kind == "subscription" || rows[i].kind == "unsubscription"
    ensures PeriodTotal(RowsOfType(rows, "subscription"), w) + PeriodTotal(RowsOfType(rows, "unsubscription"), w)
      == PeriodTotal(rows, w)
    ensures PeriodTotal(rows, w) <= |AllDates(rows)|
  {
    if |rows| > 0 {
      var init := rows[..|rows| - 1];
      var last := rows[|rows| - 1];
      InitAgrees(rows);
      TypesPartition(init, w);
      PeriodTotalSnoc(RowsOfType(init, "subscription"), last, w);
      PeriodTotalSnoc(RowsOfType(init, "unsubscription"), last, w);
      RowsOfKindSnoc(init, last, {"subscription"});
      RowsOfKindSnoc(init, last, {"unsubscription"});
      LastSplit(rows);
    }
  }

  lemma PeriodTotalSnoc(rows: seq<StoredStatisticItem>, r: StoredStatisticItem, w: Window)
    ensures PeriodTotal(rows + [r], w) == PeriodTotal(rows, w) + CountInWindow(r.dates, w)
  {
    assert (rows + [r])[..|rows|] == rows;
  }

  /** One more row adds its in-window dates to the total of its own type only. */
  lemma TypeTotalsSnoc(rows: seq<StoredStatisticItem>, stat: StoredStatisticItem, w: Window)
    ensures PeriodTotal(RowsOfType(rows + [stat], "subscription"), w) == PeriodTotal(RowsOfType(rows, "subscription"), w)
      + (if stat.kind == "subscription" then CountInWindow(stat.dates, w) else 0)
    ensures PeriodTotal(RowsOfType(rows + [stat], "unsubscription"), w) == PeriodTotal(RowsOfType(rows, "unsubscription"), w)
      + (if stat.kind == "unsubscription" then CountInWindow(stat.dates, w) else 0)
  {
    RowsOfKindSnoc(rows, stat, {"subscription"});
    RowsOfKindSnoc(rows, stat, {"unsubscription"});
    PeriodTotalSnoc(RowsOfType(rows, "subscription"), stat, w);
    PeriodTotalSnoc(RowsOfType(rows, "unsubscription"), stat, w);
  }

  lemma CountInWindowSnoc(dates: seq<int>, j: nat, w: Window)
    requires j < |dates|
    ensures CountInWindow(dates[..j + 1], w) == CountInWindow(dates[..j], w) + (if InWindow(dates[j], w) then 1 else 0)
  {
    assert dates[..j + 1][..j] == dates[..j];
  }

  /**
   The service's two nested loops: every date of every follower row that decodes to a day
   within 30 days up to the latest date adds one to the count of its row's type.
   */
  method FollowersCountsLastMonth(st: Store) returns (r: Option<FollowerCounts>)
    ensures r == FollowersLastMonth(st)
  {
    var rows := FollowerRows(st.statistics);
    if |rows| == 0 {
      return None;
    }
    var all := AllDates(rows);
    if |all| == 0 {
      return None;
    }
    var maxTimestamp := MaxOf(all);
    var decoded := StatisticDate(maxTimestamp);
    if decoded.None? {
      return None;
    }
    var maxDay := DayNumber(decoded.value);
    var newCount, lostCount := CountEvents(rows, maxDay);
    assert LatestWindow(rows, Month) == Some(LastDays(30, maxDay));
    FollowersLastMonthValue(st, LastDays(30, maxDay));
    return Some(FollowerCounts(newCount, lostCount));
  }

  /** The outer loop: every row in turn, both counts starting at 0. */
  method CountEvents(rows: seq<StoredStatisticItem>, maxDay: int) returns (newCount: nat, lostCount: nat)
    ensures newCount == PeriodTotal(RowsOfType(rows, "subscription"), LastDays(30, maxDay))
    ensures lostCount == PeriodTotal(RowsOfType(rows, "unsubscription"), LastDays(30, maxDay))
  {
    ghost var w := LastDays(30, maxDay);
    newCount, lostCount := 0, 0;
    var i := 0;
    while i < |rows|
      invariant 0 <= i <= |rows|
      invariant newCount == PeriodTotal(RowsOfType(rows[..i], "subscription"), w)
      invariant lostCount == PeriodTotal(RowsOfType(rows[..i], "unsubscription"), w)
    {
      var stat := rows[i];
      newCount, lostCount := CountRowEvents(stat, maxDay, newCount, lostCount);
      PrefixSnoc(rows, i);
      TypeTotalsSnoc(rows[..i], stat, w);
      i := i + 1;
    }
    assert rows[..|rows|] == rows;
  }

  /** The inner loop over one row's dates, adding to the running counts. */
  method CountRowEvents(stat: StoredStatisticItem, maxDay: int, newIn: nat, lostIn: nat)
    returns (newCount: nat, lostCount: nat)
    ensures newCount == newIn + (if stat.kind == "subscription" then CountInWindow(stat.dates, LastDays(30, maxDay)) else 0)
    ensures lostCount == lostIn + (if stat.kind == "unsubscription" then CountInWindow(stat.dates, LastDays(30, maxDay)) else 0)
  {
    var isNew := stat.kind == "subscription";
    var isLost := stat.kind == "unsubscription";
    KindsDiffer(stat.kind);
    newCount, lostCount := CountDatesOfType(stat.dates, maxDay, isNew, isLost, newIn, lostIn);
  }

  /** The date loop for a row whose type test gave `isNew` and `isLost`. */
  method CountDatesOfType(dates: seq<int>, maxDay: int, isNew: bool, isLost: bool, newIn: nat, lostIn: nat)
    returns (newCount: nat, lostCount: nat)
    requires !(isNew && isLost)
    ensures newCount == newIn + (if isNew then CountInWindow(dates, LastDays(30, maxDay)) else 0)
    ensures lostCount == lostIn + (if isLost then CountInWindow(dates, LastDays(30, maxDay)) else 0)
  {
    var w := LastDays(30, maxDay);
    ghost var inWindow := 0;
    newCount, lostCount := newIn, lostIn;
    var j := 0;
    while j < |dates|
      invariant 0 <= j <= |dates|
      invariant inWindow == CountInWindow(dates[..j], w)
      invariant newCount == newIn + (if isNew then inWindow else 0)
      invariant lostCount == lostIn + (if isLost then inWindow else 0)
    {
      CountInWindowSnoc(dates, j, w);
      // decodes, and lies between 30 days before the latest date and that date
      if InWindow(dates[j], w) {
        inWindow := inWindow + 1;
        if isNew {
          newCount := newCount + 1;
        } else if isLost {
          lostCount := lostCount + 1;
        }
      }
      j := j + 1;
    }
    assert dates[..j] == dates;
  }

  /** The two follower types are different strings. */
  lemma KindsDiffer(kind: string)
    ensures !(kind == "subscription" && kind == "unsubscription")
  {
    if kind == "subscription" {
      assert |kind| == 12;
    }
  }

  /** With a single subscription row, the gained count is that row's dates in the month and nothing is lost. */
  lemma OneSubscriptionRow(row: StoredStatisticItem)
    requires row.kind == "subscription" && |row.dates| > 0
    requires StatisticDate(MaxOf(row.dates)).Some?
    ensures FollowersLastMonth(Store([row], [])) == Some(FollowerCounts(
      CountInWindow(row.dates, LastDays(30, DayNumber(StatisticDate(MaxOf(row.dates)).value))), 0))
  {
    assert [row][..0] == [];
    SubscriptionIsFollowerType(row.kind);
    assert FollowerRows([row]) == [row];
    assert AllDates([row]) == row.dates;
    assert RowsOfType([row], "subscription") == [row];
    assert RowsOfType([row], "unsubscription") == [];
    FollowersLastMonthValue(Store([row], []), LatestWindow([row], Month).value);
  }

  lemma SubscriptionIsFollowerType(kind: string)
    requires kind == "subscription"
    ensures kind in {"subscription", "unsubscription"} && kind in {"subscription"} && kind !in {"unsubscription"}
  {
    assert |kind| == 12;
  }

  lemma MaxOfPair(a: int, b: int)
    ensures MaxOf([a, b]) == if a < b then b else a
  {
    assert [a, b][..1] == [a];
  }

  lemma CountPair(a: int, b: int, w: Window)
    ensures CountInWindow([a, b], w) == (if InWindow(a, w) then 1 else 0) + (if InWindow(b, w) then 1 else 0)
  {
    assert [a, b][..1] == [a];
  }

  /** A subscription date listed twice counts twice. */
  lemma RepeatedDateCountsTwice()
    ensures FollowersLastMonth(Store([StoredStatisticItem(7, "subscription", [1012024, 1012024], 0)], []))
      == Some(FollowerCounts(2, 0))
  {
    DecodeKnown(Date(1, 1, 2024), 1012024);
    MaxOfPair(1012024, 1012024);
    CountPair(1012024, 1012024, LastDays(30, DayNumber(Date(1, 1, 2024))));
    OneSubscriptionRow(StoredStatisticItem(7, "subscription", [1012024, 1012024], 0));
  }

  /**
   The month ends at the largest raw integer, not the latest date: with subscriptions on
   31 January 2023 (31012023) and 15 February 2024 (15022024), the month is January 2023 and
   the 2024 subscription is not counted.
   */
  lemma LaterDateOutsideMonth()
    ensures FollowersLastMonth(Store([StoredStatisticItem(7, "subscription", [31012023, 15022024], 0)], []))
      == Some(FollowerCounts(1, 0))
  {
    DecodeKnown(Date(31, 1, 2023), 31012023);
    DecodeKnown(Date(15, 2, 2024), 15022024);
    MaxOfPair(31012023, 15022024);
    DayNumberOrder(Date(31, 1, 2023), Date(15, 2, 2024));
    CountPair(31012023, 15022024, LastDays(30, DayNumber(Date(31, 1, 2023))));
    OneSubscriptionRow(StoredStatisticItem(7, "subscription", [31012023, 15022024], 0));
  }
}
