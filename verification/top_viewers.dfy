/**
 `DataService.getTopViewers(limit:)`: users ranked by how many view dates they have.
 The ranking sorts a dictionary's entries by count, so users with equal counts come out
 in whatever order the dictionary yields; the model takes that order as a parameter and
 demands only that it lists every counted user once, by non-increasing count.
 */
module TopViewers {
  import opened Wrappers
  import opened Models
  import opened Stored
  import opened Store
  import opened Visits
  import opened Seqs

  /** A user's number of view dates, duplicates counted. */
  function ViewCount(rows: seq<StoredStatisticItem>, userId: int): nat {
    UserVisits(rows, Unbounded, userId)
  }

  /** `m` holds exactly the user ids of `rows`, each with its number of dates. */
  ghost predicate CountsViews(m: map<int, nat>, rows: seq<StoredStatisticItem>) {
    && (forall id :: id in m <==> exists i :: 0 <= i < |rows| && rows[i].userId == id)
    && (forall id :: id in m ==> m[id] == ViewCount(rows, id))
  }

  /** `viewsPerUser`: for each user id with a view row, its number of view dates. */
  function ViewsPerUser(rows: seq<StoredStatisticItem>): (m: map<int, nat>)
    ensures CountsViews(m, rows)
  {
    if |rows| == 0 then map[]
    else
      var init := rows[..|rows| - 1];
      var last := rows[|rows| - 1];
      var m0 := ViewsPerUser(init);
      ViewsPerUserStep(init, last, m0);
      assert rows == init + [last];
      m0[last.userId := (if last.userId in m0 then m0[last.userId] else 0) + |last.dates|]
  }

  /** Adding one row's dates to its user's entry extends the dictionary of the rows before it. */
  lemma ViewsPerUserStep(init: seq<StoredStatisticItem>, last: StoredStatisticItem, m0: map<int, nat>)
    requires CountsViews(m0, init)
    ensures CountsViews(m0[last.userId := (if last.userId in m0 then m0[last.userId] else 0) + |last.dates|], init + [last])
  {
    var rows := init + [last];
    var m := m0[last.userId := (if last.userId in m0 then m0[last.userId] else 0) + |last.dates|];
    InitAgrees(rows);
    assert rows[..|rows| - 1] == init;
    assert rows[|rows| - 1] == last;
    assert CountInWindow(last.dates, Unbounded) == |last.dates|;
    forall id
      ensures id in m <==> exists i :: 0 <= i < |rows| && rows[i].userId == id
    {
      if id in m && id != last.userId {
        var i :| 0 <= i < |init| && init[i].userId == id;
        assert rows[i].userId == id;
      }
    }
    forall id | id in m
      ensures m[id] == ViewCount(rows, id)
    {
    }
  }

  predicate SortedByCount(ids: seq<int>, counts: map<int, nat>) {
    && (forall i :: 0 <= i < |ids| ==> ids[i] in counts)
    && (forall i, j :: 0 <= i < j < |ids| ==> counts[ids[i]] >= counts[ids[j]])
  }

  /** One outcome of sorting the dictionary's entries by descending count. */
  predicate IsCountOrder(order: seq<int>, counts: map<int, nat>) {
    && Distinct(order)
    && SortedByCount(order, counts)
    && (forall id :: id in counts ==> id in order)
  }

  /** `prefix(limit)` when a limit is given. */
  function TopIds(order: seq<int>, limit: Option<int>): (r: seq<int>)
    requires limit.Some? ==> limit.value >= 0
    ensures limit.Some? ==> |r| == if limit.value < |order| then limit.value else |order|
    ensures limit.None? ==> r == order
    ensures r <= order
  {
    if limit.Some? && limit.value < |order| then order[..limit.value] else order
  }

  /** The stored user with this id, read back; absent if there is none or it does not read back. */
  function LookupUser(users: seq<StoredUser>, id: int): (r: Option<User>)
    ensures r.Some? ==> r.value.id == id
    ensures r.Some? ==> exists k :: 0 <= k < |users| && users[k].id == id && ToUser(users[k]) == r
    ensures UniqueIds(users) ==> forall k :: 0 <= k < |users| && users[k].id == id ==> r == ToUser(users[k])
    ensures (forall k :: 0 <= k < |users| ==> users[k].id != id) ==> r.None?
  {
    if |users| == 0 then None
    else if users[0].id == id then ToUser(users[0])
    else
      var rest := users[1..];
      assert forall k :: 0 <= k < |rest| ==> rest[k] == users[k + 1];
      LookupUser(rest, id)
  }

  /** The ids that resolve to a stored, readable user, in their original order. */
  function KeepStored(ids: seq<int>, users: seq<StoredUser>): (r: seq<int>)
    ensures |r| <= |ids|
    ensures forall x :: x in r <==> x in ids && LookupUser(users, x).Some?
  {
    if |ids| == 0 then []
    else
      var init := ids[..|ids| - 1];
      var last := ids[|ids| - 1];
      assert ids == init + [last];
      KeepStored(init, users) + (if LookupUser(users, last).Some? then [last] else [])
  }

  /** Filtering keeps a count order sorted and free of repeats. */
  lemma {:induction false} KeepStoredPreservesOrder(ids: seq<int>, users: seq<StoredUser>, counts: map<int, nat>)
    requires SortedByCount(ids, counts) && Distinct(ids)
    ensures SortedByCount(KeepStored(ids, users), counts) && Distinct(KeepStored(ids, users))
  {
    if |ids| > 0 {
      var init := ids[..|ids| - 1];
      var last := ids[|ids| - 1];
      KeepStoredPreservesOrder(init, users, counts);
      var kept := KeepStored(init, users);
      assert forall x :: x in kept ==> x in init;
      if LookupUser(users, last).Some? {
        assert KeepStored(ids, users) == kept + [last];
        AppendKeepsOrder(kept, init, last, counts);
      } else {
        assert KeepStored(ids, users) == kept;
      }
    }
  }

  lemma AppendKeepsOrder(kept: seq<int>, init: seq<int>, last: int, counts: map<int, nat>)
    requires SortedByCount(kept, counts) && Distinct(kept)
    requires last in counts
    requires forall x :: x in kept ==> x in init
    requires forall x :: x in init ==> x in counts && counts[x] >= counts[last] && x != last
    ensures SortedByCount(kept + [last], counts) && Distinct(kept + [last])
  {
    var r := kept + [last];
    forall i, j | 0 <= i < j < |r|
      ensures r[i] != r[j] && counts[r[i]] >= counts[r[j]]
    {
      if j == |kept| {
        assert r[i] == kept[i] && kept[i] in kept;
      } else {
        assert r[i] == kept[i] && r[j] == kept[j];
      }
    }
  }

  function Ids(users: seq<User>): (r: seq<int>)
    ensures |r| == |users| && forall i :: 0 <= i < |users| ==> r[i] == users[i].id
  {
    seq(|users|, i requires 0 <= i < |users| => users[i].id)
  }

  /** `finalUserIds.compactMap { usersById[$0] }`. */
  function ResolveUsers(ids: seq<int>, users: seq<StoredUser>): (r: seq<User>)
    ensures Ids(r) == KeepStored(ids, users)
    ensures forall i :: 0 <= i < |r| ==> LookupUser(users, r[i].id) == Some(r[i])
  {
    if |ids| == 0 then []
    else
      var rest := ResolveUsers(ids[..|ids| - 1], users);
      match LookupUser(users, ids[|ids| - 1])
      case None => rest
      case Some(u) => IdsSnoc(rest, u); rest + [u]
  }

  lemma IdsSnoc(users: seq<User>, u: User)
    ensures Ids(users + [u]) == Ids(users) + [u.id]
  {
  }

  /** Each user has at least as many view dates as every user after it. */
  predicate RankedByViews(users: seq<User>, rows: seq<StoredStatisticItem>) {
    forall i, j :: 0 <= i < j < |users| ==> ViewCount(rows, users[i].id) >= ViewCount(rows, users[j].id)
  }

  /**
   `getTopViewers(limit:)` over the cache, with `order` the dictionary's sorted key order.
   */
  function TopViewers(st: Store, limit: Option<int>, order: seq<int>): (r: seq<User>)
    requires limit.Some? ==> limit.value >= 0
    requires UniqueIds(st.users)
    requires IsCountOrder(order, ViewsPerUser(ViewRows(st.statistics)))
    ensures |ViewRows(st.statistics)| == 0 ==> r == []
    ensures limit.Some? ==> |r| <= limit.value
    ensures forall i :: 0 <= i < |r| ==> LookupUser(st.users, r[i].id) == Some(r[i])
    ensures Distinct(Ids(r))
    ensures RankedByViews(r, ViewRows(st.statistics))
    ensures Ids(r) == KeepStored(TopIds(order, limit), st.users)
  {
    TopViewersRanked(ViewRows(st.statistics), st.users, limit, order);
    ResolveUsers(TopIds(order, limit), st.users)
  }

  lemma TopViewersRanked(rows: seq<StoredStatisticItem>, users: seq<StoredUser>, limit: Option<int>, order: seq<int>)
    requires limit.Some? ==> limit.value >= 0
    requires IsCountOrder(order, ViewsPerUser(rows))
    ensures var r := ResolveUsers(TopIds(order, limit), users);
      && (|rows| == 0 ==> r == [])
      && (limit.Some? ==> |r| <= limit.value)
      && Distinct(Ids(r))
      && RankedByViews(r, rows)
  {
    var counts := ViewsPerUser(rows);
    var finalIds := TopIds(order, limit);
    TopIdsInOrder(order, counts, limit);
    ResolvedInOrder(finalIds, users, counts);
    var r := ResolveUsers(finalIds, users);
    assert |r| == |KeepStored(finalIds, users)| <= |finalIds|;
  }

  /** A prefix of a count order is again sorted and free of repeats. */
  lemma TopIdsInOrder(order: seq<int>, counts: map<int, nat>, limit: Option<int>)
    requires limit.Some? ==> limit.value >= 0
    requires IsCountOrder(order, counts)
    ensures SortedByCount(TopIds(order, limit), counts) && Distinct(TopIds(order, limit))
  {
  }

  /** Resolving a count order to users keeps it sorted and free of repeats. */
  lemma ResolvedInOrder(ids: seq<int>, users: seq<StoredUser>, counts: map<int, nat>)
    requires SortedByCount(ids, counts) && Distinct(ids)
    ensures var r := ResolveUsers(ids, users);
      && (forall i :: 0 <= i < |r| ==> r[i].id in counts)
      && (forall i, j :: 0 <= i < j < |r| ==> r[i].id != r[j].id && counts[r[i].id] >= counts[r[j].id])
  {
    KeepStoredPreservesOrder(ids, users, counts);
    var r := ResolveUsers(ids, users);
    var kept := KeepStored(ids, users);
    assert forall i :: 0 <= i < |r| ==> r[i].id == kept[i];
  }

  /** The first `limit` ids of a count order are the users with the largest counts. */
  lemma TopIdsAreTop(order: seq<int>, counts: map<int, nat>, limit: Option<int>)
    requires limit.Some? ==> limit.value >= 0
    requires IsCountOrder(order, counts)
    ensures forall id, other :: id in TopIds(order, limit) && other in counts && other !in TopIds(order, limit) ==>
      counts[id] >= counts[other]
  {
    var top := TopIds(order, limit);
    forall id, other | id in top && other in counts && other !in top
      ensures counts[id] >= counts[other]
    {
      var i :| 0 <= i < |top| && top[i] == id;
      var j :| 0 <= j < |order| && order[j] == other;
      assert j >= |top|;
    }
  }

  /**
   With view counts 5, 3 and 5 for users 1, 2 and 3 and a limit of 2, the two users kept
   are 1 and 3, whichever way their tie falls.
   */
  lemma TieAtTheTop(order: seq<int>)
    requires IsCountOrder(order, map[1 := 5, 2 := 3, 3 := 5])
    ensures |TopIds(order, Some(2))| == 2
    ensures multiset(TopIds(order, Some(2))) == multiset{1, 3}
  {
    var counts := map[1 := 5, 2 := 3, 3 := 5];
    assert forall i :: 0 <= i < |order| ==> order[i] in counts.Keys;
    assert (set x | x in order) == {1, 2, 3};
    DistinctCardinality(order);
    assert |order| == 3;
    var i2 :| 0 <= i2 < |order| && order[i2] == 2;
    assert counts[order[0]] >= counts[order[1]] >= counts[order[2]];
    assert i2 == 2;
    assert order[..2] == [1, 3] || order[..2] == [3, 1];
  }

  /** A list without repeats has as many elements as its set. */
  lemma {:induction false} DistinctCardinality(s: seq<int>)
    requires Distinct(s)
    ensures |set x | x in s| == |s|
  {
    if |s| > 0 {
      var init := s[..|s| - 1];
      DistinctCardinality(init);
      assert (set x | x in s) == (set x | x in init) + {s[|s| - 1]};
      assert s[|s| - 1] !in init;
    }
  }

  /** The per-user counts of any count order add up to all view dates in the cache. */
  lemma CountOrderTotal(rows: seq<StoredStatisticItem>, order: seq<int>)
    requires IsCountOrder(order, ViewsPerUser(rows))
    ensures SumUserVisits(order, rows, Unbounded) == |AllDates(rows)|
  {
    var counts := ViewsPerUser(rows);
    assert forall i :: 0 <= i < |rows| ==> rows[i].userId in counts;
    SumUserVisitsBound(order, rows, Unbounded);
  }
}
