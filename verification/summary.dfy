/**
 `VisitorsSummaryCell.loadTotalVisitors`: the number shown as "visitors" is every date entry
 of every view statistic in the cache, duplicates included. It agrees with the other
 aggregations over the same rows: the per-user counts of the top-viewers ranking and the
 all-time period of the gender and age breakdown.
 */
module Summary {
  import opened Wrappers
  import opened Models
  import opened Stored
  import opened Store
  import opened Visits
  import opened TopViewers
  import opened Seqs

  /** Every date entry of a list of statistics, record after record. */
  function ItemDates(items: seq<StatisticItem>): (r: seq<int>)
    ensures forall t :: t in r <==> exists i :: 0 <= i < |items| && t in items[i].dates
  {
    if |items| == 0 then []
    else
      InitAgrees(items);
      ItemDates(items[..|items| - 1]) + items[|items| - 1].dates
  }

  /** `reduce(0) { $0 + $1.dates.count }`. */
  function DateCountSum(items: seq<StatisticItem>): (n: nat)
    ensures n == |ItemDates(items)|
  {
    if |items| == 0 then 0 else DateCountSum(items[..|items| - 1]) + |items[|items| - 1].dates|
  }

  /** Records carrying the same dates, in the same order, list the same entries. */
  lemma {:induction false} ItemDatesOfRows(items: seq<StatisticItem>, rows: seq<StoredStatisticItem>)
    requires |items| == |rows| && forall i :: 0 <= i < |items| ==> items[i].dates == rows[i].dates
    ensures ItemDates(items) == AllDates(rows)
  {
    if |items| > 0 {
      ItemDatesOfRows(items[..|items| - 1], rows[..|rows| - 1]);
    }
  }

  /** The view statistics read from the cache list exactly the dates of the view rows. */
  lemma ViewDates(st: Store)
    ensures ItemDates(GetViewStatistics(st)) == AllDates(ViewRows(st.statistics))
  {
    ItemDatesOfRows(GetViewStatistics(st), ViewRows(st.statistics));
  }

  /**
   `loadTotalVisitors`: the date entries of the view rows, counted with duplicates;
   0 when there is no view row.
   */
  function TotalVisitors(st: Store): (n: nat)
    ensures n == |AllDates(ViewRows(st.statistics))|
    ensures |ViewRows(st.statistics)| == 0 ==> n == 0
  {
    ViewDates(st);
    DateCountSum(GetViewStatistics(st))
  }

  /** Subscription and unsubscription rows (and rows of unknown type) leave the total unchanged. */
  lemma NonViewRowsIgnored(st: Store, row: StoredStatisticItem)
    requires row.kind != "view"
    ensures TotalVisitors(st.(statistics := st.statistics + [row])) == TotalVisitors(st)
  {
    RowsOfKindSnoc(st.statistics, row, {"view"});
  }

  /** A view row adds its number of dates to the total. */
  lemma ViewRowAdds(st: Store, row: StoredStatisticItem)
    requires row.kind == "view"
    ensures TotalVisitors(st.(statistics := st.statistics + [row])) == TotalVisitors(st) + |row.dates|
  {
    RowsOfKindSnoc(st.statistics, row, {"view"});
    var rows := ViewRows(st.statistics);
    LastSplit(rows + [row]);
    assert (rows + [row])[..|rows|] == rows;
  }

  /** The per-user counts behind the top-viewers ranking add up to the total. */
  lemma TotalMatchesTopViewers(st: Store, order: seq<int>)
    requires IsCountOrder(order, ViewsPerUser(ViewRows(st.statistics)))
    ensures SumUserVisits(order, ViewRows(st.statistics), Unbounded) == TotalVisitors(st)
  {
    CountOrderTotal(ViewRows(st.statistics), order);
  }

  /** The all-time period of the gender and age breakdown counts exactly the total. */
  lemma TotalMatchesAllTime(st: Store)
    requires LatestWindow(ViewRows(st.statistics), AllTime).Some?
    ensures PeriodTotal(ViewRows(st.statistics), LatestWindow(ViewRows(st.statistics), AllTime).value) == TotalVisitors(st)
  {
  }
}
