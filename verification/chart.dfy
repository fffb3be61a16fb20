/**
 `VisitorsChartCell.loadChartData`: the visitors chart plots, for every distinct date
 integer among the view statistics, how many times it occurs. The points are ordered by
 the raw integer, which for the ddMMyyyy encoding is not the calendar order.
 */
module Chart {
  import opened Wrappers
  import opened Calendar
  import opened CompactDate
  import opened Models
  import opened Stored
  import opened Store
  import opened Visits
  import opened Maxima
  import opened Seqs
  import opened Summary

  /** The series handed to the chart: x values and y values, index by index. */
  datatype Series = Series(timestamps: seq<int>, values: seq<nat>)

  /** The guard of `LineChartViewContainer.setData`: both lists non-empty and equally long. */
  predicate Drawable(s: Series) {
    |s.timestamps| > 0 && |s.values| > 0 && |s.timestamps| == |s.values|
  }

  predicate Increasing(s: seq<int>) {
    forall i, j :: 0 <= i < j < |s| ==> s[i] < s[j]
  }

  // ---------------------------------------------------------------------------------
  // Counting occurrences
  // ---------------------------------------------------------------------------------

  /** `m` maps exactly the integers present in `s`, each to its number of occurrences. */
  ghost predicate CountsOf(m: map<int, nat>, s: seq<int>) {
    && (forall t :: t in m <==> t in s)
    && (forall t :: t in m ==> m[t] == multiset(s)[t])
  }

  /** Counting one more occurrence of `x`. */
  lemma CountsSnoc(m: map<int, nat>, s: seq<int>, x: int)
    requires CountsOf(m, s)
    ensures CountsOf(m[x := (if x in m then m[x] else 0) + 1], s + [x])
  {
    assert multiset(s + [x]) == multiset(s) + multiset{x};
    if x !in m {
      assert multiset(s)[x] == 0;
    }
  }

  /** `dateCounts[timestamp, default: 0] += 1` for every date of one statistic. */
  method AddDates(counts: map<int, nat>, dates: seq<int>, ghost done: seq<int>) returns (r: map<int, nat>)
    requires CountsOf(counts, done)
    ensures CountsOf(r, done + dates)
  {
    r := counts;
    var j := 0;
    while j < |dates|
      invariant 0 <= j <= |dates|
      invariant CountsOf(r, done + dates[..j])
    {
      var timestamp := dates[j];
      CountsSnoc(r, done + dates[..j], timestamp);
      AppendPrefixSnoc(done, dates, j);
      r := r[timestamp := (if timestamp in r then r[timestamp] else 0) + 1];
      j := j + 1;
    }
    assert dates[..j] == dates;
  }

  /** The two nested loops that fill `dateCounts`. */
  method CountDates(items: seq<StatisticItem>) returns (counts: map<int, nat>)
    ensures CountsOf(counts, ItemDates(items))
  {
    counts := map[];
    var i := 0;
    while i < |items|
      invariant 0 <= i <= |items|
      invariant CountsOf(counts, ItemDates(items[..i]))
    {
      counts := AddDates(counts, items[i].dates, ItemDates(items[..i]));
      PrefixSnoc(items, i);
      assert ItemDates(items[..i + 1]) == ItemDates(items[..i]) + items[i].dates;
      i := i + 1;
    }
    assert items[..i] == items;
  }

  // ---------------------------------------------------------------------------------
  // Sorting the keys
  // ---------------------------------------------------------------------------------

  /**
   The selection loop's state: `sorted` is increasing, disjoint from `remaining`, below
   everything still remaining, and together with it holds exactly `keys`.
   */
  predicate SortState(sorted: seq<int>, remaining: set<int>, keys: set<int>) {
    && remaining <= keys
    && (forall i :: 0 <= i < |sorted| ==> sorted[i] in keys && sorted[i] !in remaining)
    && (forall t :: t in keys ==> t in sorted || t in remaining)
    && Increasing(sorted)
    && (forall i, t :: 0 <= i < |sorted| && t in remaining ==> sorted[i] < t)
  }

  lemma TakeSmallest(sorted: seq<int>, remaining: set<int>, keys: set<int>, m: int)
    requires SortState(sorted, remaining, keys)
    requires m in remaining && forall t :: t in remaining ==> m <= t
    ensures SortState(sorted + [m], remaining - {m}, keys)
  {
  }

  /** `dateCounts.keys.sorted()`: the keys in increasing order of the raw integer. */
  method SortKeys(keys: set<int>) returns (sorted: seq<int>)
    ensures Increasing(sorted)
    ensures forall t :: t in sorted <==> t in keys
  {
    sorted := [];
    var remaining := keys;
    while remaining != {}
      invariant SortState(sorted, remaining, keys)
      decreases |remaining|
    {
      ghost var smallest := MinElement(remaining);
      var m :| m in remaining && forall t :: t in remaining ==> m <= t;
      TakeSmallest(sorted, remaining, keys, m);
      sorted := sorted + [m];
      remaining := remaining - {m};
    }
  }

  // ---------------------------------------------------------------------------------
  // The series
  // ---------------------------------------------------------------------------------

  /** `sortedDates.map { dateCounts[$0] ?? 0 }`. */
  method ValuesOf(timestamps: seq<int>, counts: map<int, nat>) returns (values: seq<nat>)
    ensures |values| == |timestamps|
    ensures forall i :: 0 <= i < |timestamps| && timestamps[i] in counts ==> values[i] == counts[timestamps[i]]
    ensures forall i :: 0 <= i < |timestamps| && timestamps[i] !in counts ==> values[i] == 0
  {
    values := [];
    var i := 0;
    while i < |timestamps|
      invariant 0 <= i <= |timestamps| && |values| == i
      invariant forall k :: 0 <= k < i && timestamps[k] in counts ==> values[k] == counts[timestamps[k]]
      invariant forall k :: 0 <= k < i && timestamps[k] !in counts ==> values[k] == 0
    {
      var v := if timestamps[i] in counts then counts[timestamps[i]] else 0;
      values := values + [v];
      i := i + 1;
    }
  }

  /** The occurrence count in `s` of every entry of `ts`, in the order of `ts`. */
  function Tallies(ts: seq<int>, s: seq<int>): (r: seq<nat>)
    ensures |r| == |ts| && forall i :: 0 <= i < |ts| ==> r[i] == multiset(s)[ts[i]]
  {
    if |ts| == 0 then [] else Tallies(ts[..|ts| - 1], s) + [multiset(s)[ts[|ts| - 1]]]
  }

  /** One more occurrence of `x` raises the total by one exactly when `x` is listed. */
  lemma {:induction false} TalliesSnoc(ts: seq<int>, s: seq<int>, x: int)
    requires Distinct(ts)
    ensures Sum(Tallies(ts, s + [x])) == Sum(Tallies(ts, s)) + (if x in ts then 1 else 0)
  {
    if |ts| > 0 {
      var init := ts[..|ts| - 1];
      TalliesSnoc(init, s, x);
      LastSplit(ts);
      assert Tallies(ts, s + [x])[..|ts| - 1] == Tallies(init, s + [x]);
      assert Tallies(ts, s)[..|ts| - 1] == Tallies(init, s);
    }
  }

  lemma {:induction false} TalliesEmpty(ts: seq<int>)
    ensures Sum(Tallies(ts, [])) == 0
  {
    if |ts| > 0 {
      TalliesEmpty(ts[..|ts| - 1]);
      assert Tallies(ts, [])[..|ts| - 1] == Tallies(ts[..|ts| - 1], []);
    }
  }

  /** Counting every listed value once, the counts add up to the length: nothing is lost or counted twice. */
  lemma {:induction false} TalliesCoverAll(ts: seq<int>, s: seq<int>)
    requires Distinct(ts)
    requires forall x :: x in s ==> x in ts
    ensures Sum(Tallies(ts, s)) == |s|
  {
    if |s| == 0 {
      TalliesEmpty(ts);
    } else {
      var init := s[..|s| - 1];
      TalliesCoverAll(ts, init);
      TalliesSnoc(ts, init, s[|s| - 1]);
      LastSplit(s);
    }
  }

  /**
   `loadChartData` over the cache: absent when there is no view date. Otherwise the series
   passes the chart's guard, its x values are exactly the distinct view dates in increasing
   raw order, each y value is that date's number of occurrences, and the y values add up to
   the visitor total.
   */
  method LoadChartData(st: Store) returns (r: Option<Series>)
    ensures r.None? <==> |AllDates(ViewRows(st.statistics))| == 0
    ensures r.Some? ==> Drawable(r.value)
    ensures r.Some? ==> Increasing(r.value.timestamps)
    ensures r.Some? ==> forall t :: t in r.value.timestamps <==> t in AllDates(ViewRows(st.statistics))
    ensures r.Some? ==> forall i :: 0 <= i < |r.value.values| ==>
      r.value.values[i] == multiset(AllDates(ViewRows(st.statistics)))[r.value.timestamps[i]] >= 1
    ensures r.Some? ==> Sum(r.value.values) == TotalVisitors(st)
  {
    var viewStatistics := GetViewStatistics(st);
    r := ChartOf(viewStatistics);
    ViewDates(st);
  }

  /**
   The x axis follows the raw integers, not the calendar: in any series holding both,
   1012024 (1 January 2024) is plotted before 31122023 (31 December 2023), the earlier day.
   */
  lemma RawOrderIsNotCalendarOrder(s: Series, i: nat, j: nat)
    requires Increasing(s.timestamps) && i < |s.timestamps| && j < |s.timestamps|
    requires s.timestamps[i] == 1012024 && s.timestamps[j] == 31122023
    ensures i < j
    ensures StatisticDate(s.timestamps[i]) == Some(Date(1, 1, 2024))
    ensures StatisticDate(s.timestamps[j]) == Some(Date(31, 12, 2023))
    ensures Before(Date(31, 12, 2023), Date(1, 1, 2024))
  {
    TodayIsLargestRawInteger();
  }

  /** The chart of a list of statistics: one point per distinct date entry, with its count. */
  method ChartOf(items: seq<StatisticItem>) returns (r: Option<Series>)
    ensures r.None? <==> |ItemDates(items)| == 0
    ensures r.Some? ==> Drawable(r.value)
    ensures r.Some? ==> Increasing(r.value.timestamps)
    ensures r.Some? ==> forall t :: t in r.value.timestamps <==> t in ItemDates(items)
    ensures r.Some? ==> forall i :: 0 <= i < |r.value.values| ==>
      r.value.values[i] == multiset(ItemDates(items))[r.value.timestamps[i]] >= 1
    ensures r.Some? ==> Sum(r.value.values) == |ItemDates(items)|
  {
    var dateCounts := CountDates(items);
    var timestamps := SortKeys(dateCounts.Keys);
    var values := ValuesOf(timestamps, dateCounts);
    SeriesCounts(ItemDates(items), dateCounts, timestamps, values);
    if |timestamps| > 0 && |values| > 0 {
      r := Some(Series(timestamps, values));
    } else {
      r := None;
    }
  }

  /** What the three steps give together: one point per distinct date, with its count. */
  lemma SeriesCounts(all: seq<int>, counts: map<int, nat>, timestamps: seq<int>, values: seq<nat>)
    requires CountsOf(counts, all)
    requires Increasing(timestamps) && forall t :: t in timestamps <==> t in counts
    requires |values| == |timestamps|
    requires forall i :: 0 <= i < |timestamps| && timestamps[i] in counts ==> values[i] == counts[timestamps[i]]
    ensures |timestamps| == 0 <==> |all| == 0
    ensures forall t :: t in timestamps <==> t in all
    ensures forall i :: 0 <= i < |values| ==> values[i] == multiset(all)[timestamps[i]] >= 1
    ensures Sum(values) == |all|
  {
    if |all| > 0 {
      var first := all[0];
      assert first in all;
      assert first in counts;
      assert first in timestamps;
    }
    if |timestamps| > 0 {
      assert timestamps[0] in timestamps;
    }
    ValuesAreTallies(all, counts, timestamps, values);
    TalliesCoverAll(timestamps, all);
  }

  lemma ValuesAreTallies(all: seq<int>, counts: map<int, nat>, timestamps: seq<int>, values: seq<nat>)
    requires CountsOf(counts, all)
    requires forall t :: t in timestamps <==> t in counts
    requires |values| == |timestamps|
    requires forall i :: 0 <= i < |timestamps| && timestamps[i] in counts ==> values[i] == counts[timestamps[i]]
    ensures values == Tallies(timestamps, all)
    ensures forall i :: 0 <= i < |values| ==> values[i] >= 1
  {
    forall i | 0 <= i < |values|
      ensures values[i] == multiset(all)[timestamps[i]] >= 1
    {
      var t := timestamps[i];
      assert t in timestamps;
      assert t in counts;
      assert t in all;
      assert t in multiset(all);
    }
  }
}
