/**
 `DataService.getGenderAndAgeData(for:)`: the share of a period's visits made by men and
 by women, overall and per age group. Visits are counted per event (every date entry of
 a view row), not per user, and each share is taken of ALL visits of the period, so
 visits of users missing from the cache or of unknown sex lower both shares.
 */
module GenderAge {
  import opened Wrappers
  import opened Calendar
  import opened CompactDate
  import opened Stored
  import opened Store
  import opened Visits
  import opened Percent
  import opened Seqs

  /** One row of the age table: the group's label and its men's and women's shares in percent. */
  datatype AgeRow = AgeRow(range: string, men: nat, women: nat)

  datatype GenderAgeStats = GenderAgeStats(men: nat, women: nat, ageStats: seq<AgeRow>)

  // ---------------------------------------------------------------------------------
  // Age groups
  // ---------------------------------------------------------------------------------

  datatype AgeRange = AgeRange(name: string, low: int, high: int)

  /** `Int.max` on a 64-bit platform. */
  const IntMax: int := 0x7FFF_FFFF_FFFF_FFFF

  /** The age table in display order. The labels "36–40" and "40–50" share 40 on paper. */
  const AgeRanges: seq<AgeRange> := [
    AgeRange("18\U{2013}21", 18, 21),
    AgeRange("22\U{2013}25", 22, 25),
    AgeRange("26\U{2013}30", 26, 30),
    AgeRange("31\U{2013}35", 31, 35),
    AgeRange("36\U{2013}40", 36, 40),
    AgeRange("40\U{2013}50", 40, 50),
    AgeRange(">50", 51, IntMax)
  ]

  /**
   The membership test the service applies to one table entry: ">50" is `age > 50`,
   "36–40" is 36 to 40 and "40–50" is 41 to 50, so that 40 falls in one group only;
   every other entry uses its bounds.
   */
  predicate InRange(r: AgeRange, age: int) {
    if r.name == ">50" then age > 50
    else if r.name == "36\U{2013}40" then 36 <= age <= 40
    else if r.name == "40\U{2013}50" then 41 <= age <= 50
    else r.low <= age <= r.high
  }

  /** The first entry from index `from` on whose test the age passes (the loop stops at the first hit). */
  function FirstRange(age: int, from: nat): (r: Option<nat>)
    requires from <= |AgeRanges|
    ensures r.Some? ==> from <= r.value < |AgeRanges| && InRange(AgeRanges[r.value], age)
    ensures r.Some? ==> forall k :: from <= k < r.value ==> !InRange(AgeRanges[k], age)
    ensures r.None? ==> forall k :: from <= k < |AgeRanges| ==> !InRange(AgeRanges[k], age)
    decreases |AgeRanges| - from
  {
    if from == |AgeRanges| then None
    else if InRange(AgeRanges[from], age) then Some(from)
    else FirstRange(age, from + 1)
  }

  /** The age group a user's visits go to; users under 18 go to none. */
  function AgeBucket(age: int): (r: Option<nat>)
    ensures r.Some? ==> r.value < |AgeRanges|
    ensures r.Some? <==> age >= 18
  {
    if age < 18 then None
    else
      assert InRange(AgeRanges[0], age) || InRange(AgeRanges[1], age) || InRange(AgeRanges[2], age)
        || InRange(AgeRanges[3], age) || InRange(AgeRanges[4], age) || InRange(AgeRanges[5], age)
        || InRange(AgeRanges[6], age);
      FirstRange(age, 0)
  }

  /** The groups, written as plain intervals: every age from 18 on lands in exactly one. */
  lemma AgeBucketTable(age: int)
    ensures age < 18 <==> AgeBucket(age).None?
    ensures 18 <= age <= 21 <==> AgeBucket(age) == Some(0)
    ensures 22 <= age <= 25 <==> AgeBucket(age) == Some(1)
    ensures 26 <= age <= 30 <==> AgeBucket(age) == Some(2)
    ensures 31 <= age <= 35 <==> AgeBucket(age) == Some(3)
    ensures 36 <= age <= 40 <==> AgeBucket(age) == Some(4)
    ensures 41 <= age <= 50 <==> AgeBucket(age) == Some(5)
    ensures 50 < age <==> AgeBucket(age) == Some(6)
  {
    if age >= 18 {
      assert InRange(AgeRanges[0], age) || InRange(AgeRanges[1], age) || InRange(AgeRanges[2], age)
        || InRange(AgeRanges[3], age) || InRange(AgeRanges[4], age) || InRange(AgeRanges[5], age)
        || InRange(AgeRanges[6], age);
    }
  }

  /** 40 counts as "36–40", 41 as "40–50", 50 as "40–50" and 51 as ">50"; 17 counts nowhere. */
  lemma AgeBoundaries()
    ensures AgeBucket(17) == None && AgeBucket(18) == Some(0)
    ensures AgeBucket(40) == Some(4) && AgeBucket(41) == Some(5)
    ensures AgeBucket(50) == Some(5) && AgeBucket(51) == Some(6)
  {
    AgeBucketTable(17);
    AgeBucketTable(18);
    AgeBucketTable(40);
    AgeBucketTable(41);
    AgeBucketTable(50);
    AgeBucketTable(51);
  }

  // ---------------------------------------------------------------------------------
  // Tallying visits by sex and age group
  // ---------------------------------------------------------------------------------

  lemma {:induction false} SumUpdate(s: seq<nat>, i: nat, v: nat)
    requires i < |s|
    ensures Sum(s[i := s[i] + v]) == Sum(s) + v
    decreases |s|
  {
    var s' := s[i := s[i] + v];
    if i < |s| - 1 {
      assert s'[..|s| - 1] == s[..|s| - 1][i := s[i] + v];
      SumUpdate(s[..|s| - 1], i, v);
    } else {
      assert s'[..|s| - 1] == s[..|s| - 1];
    }
  }

  lemma {:induction false} ElementAtMostSum(s: seq<nat>, i: nat)
    requires i < |s|
    ensures s[i] <= Sum(s)
  {
    if i < |s| - 1 {
      ElementAtMostSum(s[..|s| - 1], i);
    }
  }

  /**
   The running totals of the counting loop: visits of men and of women, and per age
   group (indexed like `AgeRanges`).
   */
  datatype Tally = Tally(men: nat, women: nat, menByAge: seq<nat>, womenByAge: seq<nat>)

  predicate WellFormed(t: Tally) {
    |t.menByAge| == |AgeRanges| && |t.womenByAge| == |AgeRanges|
  }

  const EmptyTally: Tally := Tally(0, 0, [0, 0, 0, 0, 0, 0, 0], [0, 0, 0, 0, 0, 0, 0])

  lemma {:induction false} SumAllZero(s: seq<nat>)
    requires forall i :: 0 <= i < |s| ==> s[i] == 0
    ensures Sum(s) == 0
  {
    if |s| > 0 {
      SumAllZero(s[..|s| - 1]);
    }
  }

  function AddAt(s: seq<nat>, bucket: Option<nat>, v: nat): (r: seq<nat>)
    requires bucket.Some? ==> bucket.value < |s|
    ensures |r| == |s|
    ensures forall i :: 0 <= i < |s| ==> r[i] == s[i] + (if bucket.Some? && bucket.value == i then v else 0)
  {
    match bucket
    case None => s
    case Some(b) => s[b := s[b] + v]
  }

  lemma AddAtSum(s: seq<nat>, bucket: Option<nat>, v: nat)
    requires bucket.Some? ==> bucket.value < |s|
    ensures Sum(AddAt(s, bucket, v)) == Sum(s) + (if bucket.Some? then v else 0)
  {
    match bucket
    case None =>
    case Some(b) =>
      assert AddAt(s, bucket, v) == s[b := s[b] + v];
      SumUpdate(s, b, v);
  }

  /** The user's visits belong to age group `i` of sex `sex`: raw sex `sex` and age in that group. */
  predicate InGroup(u: StoredUser, sex: string, i: nat) {
    u.sex == sex && AgeBucket(u.age) == Some(i)
  }

  /** Every age group of `r` is that of `t` plus the user's visits when the user is in the group. */
  predicate GroupsAdded(t: Tally, r: Tally, u: StoredUser, visits: nat)
    requires WellFormed(t) && WellFormed(r)
  {
    forall i: nat :: i < |AgeRanges| ==>
      r.menByAge[i] == t.menByAge[i] + (if InGroup(u, "M", i) then visits else 0)
      && r.womenByAge[i] == t.womenByAge[i] + (if InGroup(u, "W", i) then visits else 0)
  }

  /**
   One user with `visits` visits in the period: counted towards the sex total when the raw
   sex is "M" or "W" (under-18s included) and towards the user's age group when 18 or older.
   */
  function Count(t: Tally, u: StoredUser, visits: nat): (r: Tally)
    requires WellFormed(t)
    ensures WellFormed(r)
    ensures r.men == t.men + (if u.sex == "M" then visits else 0)
    ensures r.women == t.women + (if u.sex == "W" then visits else 0)
    ensures u.age >= 18 ==> Sum(r.menByAge) == Sum(t.menByAge) + (r.men - t.men)
    ensures u.age >= 18 ==> Sum(r.womenByAge) == Sum(t.womenByAge) + (r.women - t.women)
    ensures u.age < 18 ==> r.menByAge == t.menByAge && r.womenByAge == t.womenByAge
    ensures GroupsAdded(t, r, u, visits)
  {
    var bucket := AgeBucket(u.age);
    AddAtSum(t.menByAge, bucket, visits);
    AddAtSum(t.womenByAge, bucket, visits);
    assert "M" != "W" by { assert "M"[0] != "W"[0]; }
    assert forall i: nat :: InGroup(u, u.sex, i) <==> bucket == Some(i);
    if visits == 0 then t
    else if u.sex == "M" then
      t.(men := t.men + visits, menByAge := AddAt(t.menByAge, bucket, visits))
    else if u.sex == "W" then
      t.(women := t.women + visits, womenByAge := AddAt(t.womenByAge, bucket, visits))
    else t
  }

  /** The ids of the cached users, in table order. */
  function StoredIds(users: seq<StoredUser>): (r: seq<int>)
    ensures |r| == |users| && forall k :: 0 <= k < |users| ==> r[k] == users[k].id
  {
    if |users| == 0 then [] else StoredIds(users[..|users| - 1]) + [users[|users| - 1].id]
  }

  /** The in-window visits of the cached users whose raw sex is `sex` (`menVisits` for "M", `womenVisits` for "W"). */
  function SexVisits(users: seq<StoredUser>, rows: seq<StoredStatisticItem>, w: Window, sex: string): nat {
    if |users| == 0 then 0
    else
      var u := users[|users| - 1];
      SexVisits(users[..|users| - 1], rows, w, sex) + (if u.sex == sex then UserVisits(rows, w, u.id) else 0)
  }

  /** The in-window visits of the cached users of sex `sex` in age group `i`. */
  function GroupVisits(users: seq<StoredUser>, rows: seq<StoredStatisticItem>, w: Window, sex: string, i: nat): nat {
    if |users| == 0 then 0
    else
      var u := users[|users| - 1];
      GroupVisits(users[..|users| - 1], rows, w, sex, i) + (if InGroup(u, sex, i) then UserVisits(rows, w, u.id) else 0)
  }

  /**
   The counting loop over the cached users that had visits in the window. Iterating the
   users instead of the visited ids gives the same totals when no two users share an id.
   The age groups never hold more than the sex totals, and the sex totals never more than
   the cached users' visits, which they reach when every cached user reads back (has sex "M" or "W").
   */
  function TallyUsers(users: seq<StoredUser>, rows: seq<StoredStatisticItem>, w: Window): (t: Tally)
    ensures WellFormed(t)
    ensures Tallied(t, users, rows, w)
    ensures TallyBounds(t, users, rows, w)
  {
    if |users| == 0 then
      SumAllZero(EmptyTally.menByAge);
      EmptyTally
    else
      var t0 := TallyUsers(users[..|users| - 1], rows, w);
      TallyStep(users, rows, w, t0);
      BoundsStep(users, rows, w, t0);
      Count(t0, users[|users| - 1], UserVisits(rows, w, users[|users| - 1].id))
  }

  /**
   The age groups never hold more than the sex totals, and the sex totals never more than
   the users' visits, which they reach when every user reads back (has sex "M" or "W").
   */
  predicate TallyBounds(t: Tally, users: seq<StoredUser>, rows: seq<StoredStatisticItem>, w: Window) {
    && WellFormed(t)
    && Sum(t.menByAge) <= t.men && Sum(t.womenByAge) <= t.women
    && t.men + t.women <= SumUserVisits(StoredIds(users), rows, w)
    && ((forall k :: 0 <= k < |users| ==> ToUser(users[k]).Some?) ==>
      t.men + t.women == SumUserVisits(StoredIds(users), rows, w))
  }

  /** Counting one more user keeps the bounds. */
  lemma BoundsStep(users: seq<StoredUser>, rows: seq<StoredStatisticItem>, w: Window, t0: Tally)
    requires |users| > 0 && TallyBounds(t0, users[..|users| - 1], rows, w)
    ensures TallyBounds(Count(t0, users[|users| - 1], UserVisits(rows, w, users[|users| - 1].id)), users, rows, w)
  {
    var init := users[..|users| - 1];
    assert StoredIds(users)[..|users| - 1] == StoredIds(init);
    InitAgrees(users);
  }

  /**
   The totals the counting loop keeps: per sex, the visits of the users of that raw sex,
   and per sex and age group, the visits of the users in that group.
   */
  predicate Tallied(t: Tally, users: seq<StoredUser>, rows: seq<StoredStatisticItem>, w: Window) {
    && WellFormed(t)
    && t.men == SexVisits(users, rows, w, "M")
    && t.women == SexVisits(users, rows, w, "W")
    && forall i: nat :: i < |AgeRanges| ==>
      t.menByAge[i] == GroupVisits(users, rows, w, "M", i) && t.womenByAge[i] == GroupVisits(users, rows, w, "W", i)
  }

  /** Counting one more user keeps the totals. */
  lemma TallyStep(users: seq<StoredUser>, rows: seq<StoredStatisticItem>, w: Window, t0: Tally)
    requires |users| > 0 && Tallied(t0, users[..|users| - 1], rows, w)
    ensures Tallied(Count(t0, users[|users| - 1], UserVisits(rows, w, users[|users| - 1].id)), users, rows, w)
  {
    var init, u := users[..|users| - 1], users[|users| - 1];
    var v := UserVisits(rows, w, u.id);
    var t := Count(t0, u, v);
    assert SexVisits(users, rows, w, "M") == SexVisits(init, rows, w, "M") + (if u.sex == "M" then v else 0);
    assert SexVisits(users, rows, w, "W") == SexVisits(init, rows, w, "W") + (if u.sex == "W" then v else 0);
    forall i: nat | i < |AgeRanges|
      ensures t.menByAge[i] == GroupVisits(users, rows, w, "M", i)
      ensures t.womenByAge[i] == GroupVisits(users, rows, w, "W", i)
    {
      assert GroupVisits(users, rows, w, "M", i) == GroupVisits(init, rows, w, "M", i) + (if InGroup(u, "M", i) then v else 0);
      assert GroupVisits(users, rows, w, "W", i) == GroupVisits(init, rows, w, "W", i) + (if InGroup(u, "W", i) then v else 0);
    }
  }

  /** The cached users aged 18 or more, in table order. */
  function Adults(users: seq<StoredUser>): (r: seq<StoredUser>)
    ensures forall u :: u in r <==> u in users && u.age >= 18
  {
    if |users| == 0 then []
    else
      var u := users[|users| - 1];
      assert users == users[..|users| - 1] + [u];
      Adults(users[..|users| - 1]) + (if u.age >= 18 then [u] else [])
  }

  /** The age groups together hold exactly the adults' visits, sex by sex: no adult is lost or counted twice. */
  lemma {:induction false} AgeGroupsCoverAdults(users: seq<StoredUser>, rows: seq<StoredStatisticItem>, w: Window)
    ensures Sum(TallyUsers(users, rows, w).menByAge) == TallyUsers(Adults(users), rows, w).men
    ensures Sum(TallyUsers(users, rows, w).womenByAge) == TallyUsers(Adults(users), rows, w).women
  {
    if |users| == 0 {
      SumAllZero(EmptyTally.menByAge);
    } else {
      var init := users[..|users| - 1];
      var u := users[|users| - 1];
      var v := UserVisits(rows, w, u.id);
      var t0, a0 := TallyUsers(init, rows, w), TallyUsers(Adults(init), rows, w);
      AgeGroupsCoverAdults(init, rows, w);
      CountKeepsCover(t0, a0, u, v);
      LastSplit(users);
      TallySnoc(init, u, rows, w);
      assert TallyUsers(users, rows, w) == Count(t0, u, v);
      AdultsSnoc(init, u);
      if u.age >= 18 {
        TallySnoc(Adults(init), u, rows, w);
        assert TallyUsers(Adults(users), rows, w) == Count(a0, u, v);
      } else {
        assert TallyUsers(Adults(users), rows, w) == a0;
      }
    }
  }

  lemma TallySnoc(users: seq<StoredUser>, u: StoredUser, rows: seq<StoredStatisticItem>, w: Window)
    ensures TallyUsers(users + [u], rows, w) == Count(TallyUsers(users, rows, w), u, UserVisits(rows, w, u.id))
  {
    assert (users + [u])[..|users|] == users;
  }

  lemma AdultsSnoc(users: seq<StoredUser>, u: StoredUser)
    ensures u.age >= 18 ==> Adults(users + [u]) == Adults(users) + [u]
    ensures u.age < 18 ==> Adults(users + [u]) == Adults(users)
  {
    assert (users + [u])[..|users|] == users;
  }

  /** One more user keeps the age groups equal to the adults' totals. */
  lemma CountKeepsCover(t: Tally, adults: Tally, u: StoredUser, v: nat)
    requires WellFormed(t) && WellFormed(adults)
    requires Sum(t.menByAge) == adults.men && Sum(t.womenByAge) == adults.women
    ensures u.age >= 18 ==> Sum(Count(t, u, v).menByAge) == Count(adults, u, v).men
    ensures u.age >= 18 ==> Sum(Count(t, u, v).womenByAge) == Count(adults, u, v).women
    ensures u.age < 18 ==> Sum(Count(t, u, v).menByAge) == adults.men
    ensures u.age < 18 ==> Sum(Count(t, u, v).womenByAge) == adults.women
  {
  }

  // ---------------------------------------------------------------------------------
  // The service
  // ---------------------------------------------------------------------------------

  /** Some cached user has a visit in the window (the `id IN` query is not empty). */
  predicate AnyVisitorCached(users: seq<StoredUser>, rows: seq<StoredStatisticItem>, w: Window) {
    exists k :: 0 <= k < |users| && UserVisits(rows, w, users[k].id) > 0
  }

  function AgeRows(t: Tally, total: nat): (r: seq<AgeRow>)
    requires WellFormed(t) && total > 0
    ensures |r| == |AgeRanges|
    ensures forall i :: 0 <= i < |r| ==> r[i].range == AgeRanges[i].name
    ensures forall i :: 0 <= i < |r| ==>
      r[i].men == Pct(t.menByAge[i], total) && r[i].women == Pct(t.womenByAge[i], total)
  {
    seq(|AgeRanges|, i requires 0 <= i < |AgeRanges| => AgeRowOf(t, total, i))
  }

  /** The row of group `i`: both shares 0 when the group has no visit, else each sex's share of the period. */
  function AgeRowOf(t: Tally, total: nat, i: nat): AgeRow
    requires WellFormed(t) && total > 0 && i < |AgeRanges|
  {
    var men := t.menByAge[i];
    var women := t.womenByAge[i];
    if men + women == 0 then AgeRow(AgeRanges[i].name, 0, 0)
    else AgeRow(AgeRanges[i].name, Pct(men, total), Pct(women, total))
  }

  /**
   `getGenderAndAgeData(for:)` over the cache. Absent when there are no view rows, no date,
   an undecodable latest date, or when the period's breakdown is absent.
   */
  function GenderAndAge(st: Store, period: Period): (r: Option<GenderAgeStats>)
    requires UniqueIds(st.users)
    ensures LatestWindow(ViewRows(st.statistics), period).None? ==> r.None?
    ensures LatestWindow(ViewRows(st.statistics), period).Some? ==>
      r == Breakdown(st.users, ViewRows(st.statistics), LatestWindow(ViewRows(st.statistics), period).value)
  {
    var rows := ViewRows(st.statistics);
    if |rows| == 0 then None
    else match LatestWindow(rows, period)
      case None => None
      case Some(w) => Breakdown(st.users, rows, w)
  }

  /**
   The breakdown of the visits in window `w`. Absent exactly when the window holds no visit,
   no cached user is among the visitors, or no visit is by a cached man or woman. Otherwise
   each share is the percentage of ALL the period's visits made by the cached users of that
   sex, overall and per age group. The shares never add up to more than 100, and no age
   group's share exceeds its sex's share.
   */
  function Breakdown(users: seq<StoredUser>, rows: seq<StoredStatisticItem>, w: Window): (r: Option<GenderAgeStats>)
    requires UniqueIds(users)
    ensures r.Some? <==> (PeriodTotal(rows, w) > 0 && AnyVisitorCached(users, rows, w)
      && SexVisits(users, rows, w, "M") + SexVisits(users, rows, w, "W") > 0)
    ensures r.Some? ==> (r.value.men == Pct(SexVisits(users, rows, w, "M"), PeriodTotal(rows, w))
      && r.value.women == Pct(SexVisits(users, rows, w, "W"), PeriodTotal(rows, w)))
    ensures r.Some? ==> |r.value.ageStats| == |AgeRanges| && forall i: nat :: i < |AgeRanges| ==>
      r.value.ageStats[i] == AgeRow(AgeRanges[i].name,
        Pct(GroupVisits(users, rows, w, "M", i), PeriodTotal(rows, w)),
        Pct(GroupVisits(users, rows, w, "W", i), PeriodTotal(rows, w)))
    ensures r.Some? ==> r.value.men + r.value.women <= 100
    ensures r.Some? ==> |r.value.ageStats| == |AgeRanges|
    ensures r.Some? ==> forall i :: 0 <= i < |r.value.ageStats| ==>
      r.value.ageStats[i].range == AgeRanges[i].name
      && r.value.ageStats[i].men <= r.value.men && r.value.ageStats[i].women <= r.value.women
  {
    var total := PeriodTotal(rows, w);
    if total == 0 || !AnyVisitorCached(users, rows, w) then None
    else
      var t := TallyUsers(users, rows, w);
      if t.men + t.women == 0 then None
      else
        SharesBounded(users, rows, w, t);
        Some(GenderAgeStats(Pct(t.men, total), Pct(t.women, total), AgeRows(t, total)))
  }

  /** The arithmetic behind the shares' bounds. */
  lemma SharesBounded(users: seq<StoredUser>, rows: seq<StoredStatisticItem>, w: Window, t: Tally)
    requires UniqueIds(users) && PeriodTotal(rows, w) > 0
    requires t == TallyUsers(users, rows, w)
    ensures Pct(t.men, PeriodTotal(rows, w)) + Pct(t.women, PeriodTotal(rows, w)) <= 100
    ensures forall i :: 0 <= i < |AgeRanges| ==>
      Pct(t.menByAge[i], PeriodTotal(rows, w)) <= Pct(t.men, PeriodTotal(rows, w))
      && Pct(t.womenByAge[i], PeriodTotal(rows, w)) <= Pct(t.women, PeriodTotal(rows, w))
  {
    var total := PeriodTotal(rows, w);
    SumUserVisitsBound(StoredIds(users), rows, w);
    TotalShare(t.men, t.women, total);
    forall i | 0 <= i < |AgeRanges|
      ensures Pct(t.menByAge[i], total) <= Pct(t.men, total)
      ensures Pct(t.womenByAge[i], total) <= Pct(t.women, total)
    {
      GroupShare(t.menByAge, i, t.men, total);
      GroupShare(t.womenByAge, i, t.women, total);
    }
  }

  lemma TotalShare(men: nat, women: nat, total: nat)
    requires 0 < total && men + women <= total
    ensures Pct(men, total) + Pct(women, total) <= 100
  {
    PctAdd(men, women, total);
    PctMonotone(men + women, total, total);
    PctBounds(total, total);
  }

  lemma GroupShare(groups: seq<nat>, i: nat, sexTotal: nat, total: nat)
    requires i < |groups| && Sum(groups) <= sexTotal && 0 < total
    ensures Pct(groups[i], total) <= Pct(sexTotal, total)
  {
    ElementAtMostSum(groups, i);
    PctMonotone(groups[i], sexTotal, total);
  }

  /** `getGenderAndAgeData()`: the breakdown for the latest day. */
  function GenderAndAgeToday(st: Store): (r: Option<GenderAgeStats>)
    requires UniqueIds(st.users)
    ensures |AllDates(ViewRows(st.statistics))| == 0 || StatisticDate(MaxOf(AllDates(ViewRows(st.statistics)))).None?
      ==> r.None?
    ensures |AllDates(ViewRows(st.statistics))| > 0 && StatisticDate(MaxOf(AllDates(ViewRows(st.statistics)))).Some?
      ==> r == Breakdown(st.users, ViewRows(st.statistics), SameRaw(MaxOf(AllDates(ViewRows(st.statistics)))))
  {
    GenderAndAge(st, Today)
  }

  /**
   When every cached user reads back (its sex is "M" or "W") and every visitor is cached, the two shares add up to
   99 or 100: only rounding is lost.
   */
  lemma SharesComplete(st: Store, period: Period)
    requires UniqueIds(st.users)
    requires GenderAndAge(st, period).Some?
    requires forall k :: 0 <= k < |st.users| ==> ToUser(st.users[k]).Some?
    requires forall i :: 0 <= i < |ViewRows(st.statistics)| ==> ViewRows(st.statistics)[i].userId in StoredIds(st.users)
    ensures 99 <= GenderAndAge(st, period).value.men + GenderAndAge(st, period).value.women <= 100
  {
    var rows := ViewRows(st.statistics);
    var w := LatestWindow(rows, period).value;
    var total := PeriodTotal(rows, w);
    var t := TallyUsers(st.users, rows, w);
    SumUserVisitsBound(StoredIds(st.users), rows, w);
    PctComplement(t.men, t.women, total);
  }
}
