/**
 The local cache (RealmService) as one immutable value: a table of statistic rows and a
 table of user rows, in insertion order. A save builds a new value that replaces the
 old table wholesale, which is what the single write transaction guarantees readers.
 */
module Store {
  import opened Wrappers
  import opened Models
  import opened Stored
  import opened Seqs

  datatype Store = Store(statistics: seq<StoredStatisticItem>, users: seq<StoredUser>)

  /**
   No two user rows share an id. `Dictionary(uniqueKeysWithValues:)` over the user rows
   traps otherwise, so the services that build one demand it of the cache.
   */
  predicate UniqueIds(users: seq<StoredUser>) {
    forall i, j :: 0 <= i < j < |users| ==> users[i].id != users[j].id
  }

  /** The rows whose raw type string is one of `kinds`, in table order (a Realm `filter`). */
  function RowsOfKind(rows: seq<StoredStatisticItem>, kinds: set<string>): (r: seq<StoredStatisticItem>)
    ensures |r| <= |rows|
    ensures forall x :: x in r <==> x in rows && x.kind in kinds
  {
    if |rows| == 0 then []
    else
      var last := rows[|rows| - 1];
      var rest := RowsOfKind(rows[..|rows| - 1], kinds);
      assert rows == rows[..|rows| - 1] + [last];
      if last.kind in kinds then rest + [last] else rest
  }

  lemma RowsOfKindSnoc(rows: seq<StoredStatisticItem>, r: StoredStatisticItem, kinds: set<string>)
    ensures RowsOfKind(rows + [r], kinds) == RowsOfKind(rows, kinds) + (if r.kind in kinds then [r] else [])
  {
    assert (rows + [r])[..|rows|] == rows;
  }

  /** `filter("type == 'view'")`. */
  function ViewRows(rows: seq<StoredStatisticItem>): seq<StoredStatisticItem> {
    RowsOfKind(rows, {"view"})
  }

  /** `filter("type == 'subscription' OR type == 'unsubscription'")`. */
  function FollowerRows(rows: seq<StoredStatisticItem>): seq<StoredStatisticItem> {
    RowsOfKind(rows, {"subscription", "unsubscription"})
  }

  /** `compactMap { $0.toStatisticItem() }`: rows of an unknown type are dropped, order kept. */
  function ToStatisticItems(rows: seq<StoredStatisticItem>): seq<StatisticItem> {
    CompactMap(rows, ToStatisticItem)
  }

  function FromStatisticItems(items: seq<StatisticItem>, now: int): (r: seq<StoredStatisticItem>)
    ensures |r| == |items| && forall i :: 0 <= i < |items| ==> r[i] == FromStatisticItem(items[i], now)
  {
    seq(|items|, i requires 0 <= i < |items| => FromStatisticItem(items[i], now))
  }

  /** `compactMap { $0.toUser() }`: rows with an unknown sex are dropped, order kept. */
  function ToUsers(rows: seq<StoredUser>): seq<User> {
    CompactMap(rows, ToUser)
  }

  function FromUsers(users: seq<User>, now: int): (r: seq<StoredUser>)
    ensures |r| == |users| && forall i :: 0 <= i < |users| ==> r[i] == FromUser(users[i], now)
  {
    seq(|users|, i requires 0 <= i < |users| => FromUser(users[i], now))
  }

  /** `getCachedStatistics`: absent exactly when the table is empty, else every row that reads back. */
  function GetCachedStatistics(st: Store): (r: Option<seq<StatisticItem>>)
    ensures r.None? <==> |st.statistics| == 0
    ensures r.Some? ==> |r.value| <= |st.statistics|
    ensures r.Some? ==> forall x :: x in r.value ==>
      exists i :: 0 <= i < |st.statistics| && ToStatisticItem(st.statistics[i]) == Some(x)
    ensures r.Some? ==> forall i :: 0 <= i < |st.statistics| && ToStatisticItem(st.statistics[i]).Some? ==>
      ToStatisticItem(st.statistics[i]).value in r.value
    ensures r.Some? && (forall i :: 0 <= i < |st.statistics| ==> ToStatisticItem(st.statistics[i]).Some?) ==>
      |r.value| == |st.statistics| && forall i :: 0 <= i < |st.statistics| ==> Some(r.value[i]) == ToStatisticItem(st.statistics[i])
  {
    CompactMapKeeps(st.statistics, ToStatisticItem);
    if |st.statistics| == 0 then None else Some(ToStatisticItems(st.statistics))
  }

  /** `getCachedUsers`: absent exactly when the table is empty, else every row that reads back. */
  function GetCachedUsers(st: Store): (r: Option<seq<User>>)
    ensures r.None? <==> |st.users| == 0
    ensures r.Some? ==> |r.value| <= |st.users|
    ensures r.Some? ==> forall x :: x in r.value ==>
      exists i :: 0 <= i < |st.users| && ToUser(st.users[i]) == Some(x)
    ensures r.Some? ==> forall i :: 0 <= i < |st.users| && ToUser(st.users[i]).Some? ==>
      ToUser(st.users[i]).value in r.value
    ensures r.Some? && (forall i :: 0 <= i < |st.users| ==> ToUser(st.users[i]).Some?) ==>
      |r.value| == |st.users| && forall i :: 0 <= i < |st.users| ==> Some(r.value[i]) == ToUser(st.users[i])
  {
    CompactMapKeeps(st.users, ToUser);
    if |st.users| == 0 then None else Some(ToUsers(st.users))
  }

  /**
   One more statistic row extends what the cache reads back by that row's read-back, or by
   nothing when it does not read back: rows come back in table order, duplicates kept.
   */
  lemma CachedStatisticsSnoc(st: Store, row: StoredStatisticItem)
    ensures GetCachedStatistics(st.(statistics := st.statistics + [row])) ==
      Some((if |st.statistics| == 0 then [] else GetCachedStatistics(st).value)
        + (if ToStatisticItem(row).Some? then [ToStatisticItem(row).value] else []))
  {
    CompactMapSnoc(st.statistics, row, ToStatisticItem);
  }

  /** One more user row extends what the cache reads back by that row's read-back, if any. */
  lemma CachedUsersSnoc(st: Store, row: StoredUser)
    ensures GetCachedUsers(st.(users := st.users + [row])) ==
      Some((if |st.users| == 0 then [] else GetCachedUsers(st).value)
        + (if ToUser(row).Some? then [ToUser(row).value] else []))
  {
    CompactMapSnoc(st.users, row, ToUser);
  }

  /** Storing wire records and reading them back gives the same records, in order. */
  lemma StatisticItemsRoundTrip(items: seq<StatisticItem>, now: int)
    ensures ToStatisticItems(FromStatisticItems(items, now)) == items
  {
    CompactMapInverse(FromStatisticItems(items, now), items, ToStatisticItem);
  }

  /** Storing users and reading them back gives the same users, in order. */
  lemma UsersRoundTrip(users: seq<User>, now: int)
    ensures ToUsers(FromUsers(users, now)) == users
  {
    CompactMapInverse(FromUsers(users, now), users, ToUser);
  }

  /**
   `saveStatistics`: the statistics table becomes exactly the converted input (no old row
   survives), the users table is untouched, and the cache then reads back the input.
   */
  function SaveStatistics(st: Store, items: seq<StatisticItem>, now: int): (r: Store)
    ensures r.users == st.users
    ensures |r.statistics| == |items|
    ensures forall i :: 0 <= i < |items| ==> r.statistics[i] == FromStatisticItem(items[i], now)
    ensures GetCachedStatistics(r) == (if |items| == 0 then None else Some(items))
  {
    StatisticItemsRoundTrip(items, now);
    st.(statistics := FromStatisticItems(items, now))
  }

  /**
   `saveUsers`: the users table becomes exactly the converted input, the statistics table is
   untouched, and the cache then reads back the input.
   */
  function SaveUsers(st: Store, users: seq<User>, now: int): (r: Store)
    ensures r.statistics == st.statistics
    ensures |r.users| == |users|
    ensures forall i :: 0 <= i < |users| ==> r.users[i] == FromUser(users[i], now)
    ensures GetCachedUsers(r) == (if |users| == 0 then None else Some(users))
  {
    UsersRoundTrip(users, now);
    st.(users := FromUsers(users, now))
  }

  /** `getViewStatistics`: the "view" rows of the table, in table order, each read back. */
  function GetViewStatistics(st: Store): (r: seq<StatisticItem>)
    ensures |r| == |ViewRows(st.statistics)|
    ensures forall i :: 0 <= i < |r| ==>
      r[i] == StatisticItem(ViewRows(st.statistics)[i].userId, View, ViewRows(st.statistics)[i].dates)
  {
    var rows := ViewRows(st.statistics);
    assert forall i :: 0 <= i < |rows| ==> rows[i] in rows && rows[i].kind == "view";
    ToStatisticItems(rows)
  }

  /** The view events of a list of wire records, in order. */
  function ViewItems(items: seq<StatisticItem>): (r: seq<StatisticItem>)
    ensures forall x :: x in r <==> x in items && x.kind == View
  {
    if |items| == 0 then []
    else
      var last := items[|items| - 1];
      var rest := ViewItems(items[..|items| - 1]);
      assert items == items[..|items| - 1] + [last];
      if last.kind == View then rest + [last] else rest
  }

  /** After a save, the view statistics read from the cache are exactly the saved view events, in order. */
  lemma SavedViewStatistics(st: Store, items: seq<StatisticItem>, now: int)
    ensures GetViewStatistics(SaveStatistics(st, items, now)) == ViewItems(items)
  {
    assert SaveStatistics(st, items, now).statistics == FromStatisticItems(items, now);
    ViewRowsReadBack(items, now);
  }

  /** Filtering the stored form for "view" and reading it back keeps exactly the view records. */
  lemma {:induction false} ViewRowsReadBack(items: seq<StatisticItem>, now: int)
    ensures ToStatisticItems(ViewRows(FromStatisticItems(items, now))) == ViewItems(items)
  {
    if |items| > 0 {
      var init := items[..|items| - 1];
      var last := items[|items| - 1];
      ViewRowsReadBack(init, now);
      LastSplit(items);
      var row := FromStatisticItem(last, now);
      assert FromStatisticItems(items, now) == FromStatisticItems(init, now) + [row];
      RowsOfKindSnoc(FromStatisticItems(init, now), row, {"view"});
      ViewRaw(last.kind);
      if last.kind == View {
        CompactMapSnoc(ViewRows(FromStatisticItems(init, now)), row, ToStatisticItem);
      }
    }
  }

  /** Only the view type has the raw value "view". */
  lemma ViewRaw(t: StatisticType)
    ensures StatisticTypeRaw(t) == "view" <==> t == View
  {
    if t != View {
      assert |StatisticTypeRaw(t)| > 4;
    }
  }
}
