# RikApp analytics core in Dafny

This project models the analytics engine behind the RikApp dashboard and proves properties of it. It covers:
- the compact-date codec;
- the aggregations over the cached statistic and user records;
- the cache layer that stores and reads those records back.

A statistic record is `(userId, type ∈ {view, subscription, unsubscription}, dates)`. Every entry of `dates` is one event. An entry is an integer `DDMMYYYY`, which loses the day's leading zero because it is an integer.

The cache (Realm) is modelled as an immutable value, `Store.Store`. A save replaces a table wholesale. Every service is a pure function or method over one such value.

Modules, following the program's structure:
- `Models` holds the wire records.
- `Stored` holds the Realm records and the conversions both ways.
- `Store` holds the cache, with its save and load operations.
- `Calendar`, `Decimal` and `CompactDate` form the date codec. Dates are `(day, month, year)` triples in the proleptic Gregorian calendar, with a day ordinal. The "−7 / −30 days, then compare `Date`s" windows of the services therefore become comparisons of ordinals.
- `Visits` holds the period windows and counting.
- `TopViewers` and `Ranking` model `getTopViewers`.
- `GenderAge` models `getGenderAndAgeData`.
- `Followers` models `getFollowersCountsLastMonth`.
- `Chart` models `VisitorsChartCell.loadChartData`.
- `Summary` models `VisitorsSummaryCell.loadTotalVisitors`.
- `Seqs`, `Maxima`, `Percent` and `Wrappers` are small shared helpers.

Three behaviours of the code follow from the integer encoding, and the model keeps them:
- **Chart series.** The visitors chart plots every distinct raw date integer with its occurrence count, sorted by the raw integer (VisitorsChartCell.swift). That raw order is not calendar order. The segmented control's delegate only logs, so there is no daily, weekly or monthly series.
- **Reference date.** The reference date of every period is the largest *raw integer*, not the chronologically latest date.
- **"Today".** The "today" period compares raw integers.

A lemma exhibits each of them on concrete dates:
- `Chart.RawOrderIsNotCalendarOrder` for the chart order;
- `Followers.LaterDateOutsideMonth` for the reference date;
- `Visits.TodayIsLargestRawInteger` for "today".

`statisticDate` appears twice in the source, with identical code: in `DataService` and in `RealmService`. It is modelled once, in two forms:
- `CompactDate.StatisticDateByFormatter` follows the code: it pads and then parses.
- `CompactDate.StatisticDate` computes the same result arithmetically.

`CompactDate.StatisticDateFields` proves the two forms equal for every integer. The aggregations use the arithmetic form.

## Model

| member | source | states |
|---|---|---|
| Stored.ToFileItem | BusinessLogicFramework/Models/RealmFileItem.swift:24-29 | reading a stored file back fails exactly when its type string is not "avatar"; id and url come back verbatim |
| Stored.FromFileItem | BusinessLogicFramework/Models/RealmFileItem.swift:17-22 | copies id, url and the type's raw string, and the row reads back as the same file |
| Stored.ToStatisticItem | BusinessLogicFramework/Models/RealmStatisticItem.swift:26-35 | fails exactly when the stored type string is no statistic type; otherwise user id and dates come back unchanged and the type is the one whose raw value was stored |
| Stored.FromStatisticItem | BusinessLogicFramework/Models/RealmStatisticItem.swift:18-24 | copies user id, type raw string and dates (order and duplicates kept), and the row reads back as the same record |
| Stored.FileItemsRoundTrip | BusinessLogicFramework/Models/RealmUser.swift:28-36 | storing a list of files and reading it back gives the same list |
| Stored.ToUser | BusinessLogicFramework/Models/RealmUser.swift:32-45 | fails exactly when the sex string is neither "M" nor "W"; every other field comes back, files through `compactMap` |
| Stored.FromUser | BusinessLogicFramework/Models/RealmUser.swift:21-30 | copies every field, files in order, and the row reads back as the same user |
| Stored.UnknownFileDropped | BusinessLogicFramework/Models/RealmUser.swift:36 | a stored file of an unknown type is dropped while the user still reads back unchanged |
| Stored.CachedAtIgnored | BusinessLogicFramework/Models/RealmStatisticItem.swift:16-35 | the cache timestamp has no effect on reading a statistic or a user back |
| Seqs.CompactMap | BusinessLogicFramework/Services/RealmService.swift:41 | `compactMap` never lengthens; when every element converts it keeps all of them in order, and every result comes from some element |
| Seqs.CompactMapKeeps | BusinessLogicFramework/Services/RealmService.swift:41 | every element that converts has its value in the result |
| Seqs.CompactMapSnoc | BusinessLogicFramework/Models/RealmUser.swift:36 | one more element adds its converted value when there is one and nothing otherwise |
| Models.ParseStatisticType | NetworkLayerFramework/Statistic.swift:30-34 | `StatisticType(rawValue:)` accepts exactly the three raw values and inverts `rawValue` |
| Models.ParseSex | NetworkLayerFramework/User.swift:36-39 | `Sex(rawValue:)` accepts exactly "M" and "W" and inverts `rawValue` |
| Models.ParseFileType | NetworkLayerFramework/User.swift:53-55 | `FileType(rawValue:)` accepts exactly "avatar" |
| Store.GetCachedStatistics | BusinessLogicFramework/Services/RealmService.swift:31-48 | absent exactly when the statistics table is empty; otherwise every item is the read-back of some row and every row that reads back is among the items; when every row reads back, the items are the rows' read-backs index by index |
| Store.GetCachedUsers | BusinessLogicFramework/Services/RealmService.swift:152-169 | absent exactly when the users table is empty; otherwise every user is the read-back of some row and every row that reads back is among the users; when every row reads back, the users are the rows' read-backs index by index |
| Store.CachedStatisticsSnoc | BusinessLogicFramework/Services/RealmService.swift:33-42 | one more statistic row appends its read-back, or nothing when it does not read back, so rows come back in table order with duplicates kept |
| Store.CachedUsersSnoc | BusinessLogicFramework/Services/RealmService.swift:154-163 | one more user row appends its read-back, or nothing when its sex is unknown, so users come back in table order with duplicates kept |
| Store.StatisticItemsRoundTrip | BusinessLogicFramework/Services/RealmService.swift:41-57 | converting records for storage and reading them back returns the same records in order |
| Store.UsersRoundTrip | BusinessLogicFramework/Services/RealmService.swift:162-178 | converting users for storage and reading them back returns the same users in order |
| Store.SaveStatistics | BusinessLogicFramework/Services/RealmService.swift:50-63 | afterwards the table holds exactly the converted input and no old row, users are untouched, and loading gives back the input (absent when it was empty) |
| Store.SaveUsers | BusinessLogicFramework/Services/RealmService.swift:171-184 | afterwards the users table holds exactly the converted input, statistics are untouched, and loading gives back the input (absent when it was empty) |
| Store.RowsOfKind | BusinessLogicFramework/Services/RealmService.swift:86-87 | a type filter keeps exactly the rows of the given types |
| Store.RowsOfKindSnoc | BusinessLogicFramework/Services/RealmService.swift:140-141 | the filter keeps table order: a new row is appended when its type matches and ignored otherwise |
| Store.GetViewStatistics | BusinessLogicFramework/Services/RealmService.swift:137-148 | exactly the "view" rows, in table order, each read back as a view record with its user and dates |
| Store.ViewItems | BusinessLogicFramework/Services/RealmService.swift:137-143 | the view records of a list are the records of type view and nothing else |
| Store.ViewRowsReadBack | BusinessLogicFramework/Services/RealmService.swift:137-143 | filtering the stored form of a list for "view" and reading it back keeps exactly its view records, in order |
| Store.SavedViewStatistics | BusinessLogicFramework/Services/RealmService.swift:50-58 | after a save, the view statistics read from the cache are the saved view records, in order |
| Decimal.IntString | RikApp/Extensions/IntExtension.swift:13 | `String(n)` is all digits exactly when n is non-negative |
| Decimal.Digits | BusinessLogicFramework/Services/DataService.swift:203 | the decimal text of a natural number denotes that number and has no leading zero |
| Decimal.DigitsLength | BusinessLogicFramework/Services/DataService.swift:203-206 | the text is at most k characters long exactly when the number is below 10^k |
| Decimal.ParseInt | RikApp/Extensions/IntExtension.swift:23-30 | `Int(s)` reads any non-empty digit string as its value and rejects the empty string and a lone non-digit |
| Decimal.ValueLeftPadded | BusinessLogicFramework/Services/DataService.swift:204-206 | padding with '0' on the left does not change the value |
| Decimal.SplitEight | BusinessLogicFramework/Services/DataService.swift:200-208 | the `dd`, `MM` and `yyyy` fields of eight digits are the value's /10^6, /10^4 mod 100 and mod 10^4 |
| Decimal.SplitSeven | RikApp/Extensions/IntExtension.swift:21-25 | the first digit, digits 2-3 and the last four of seven digits are the same arithmetic fields |
| Calendar.DaysInMonth | BusinessLogicFramework/Services/DataService.swift:237-239 | Gregorian month lengths lie between 28 and 31 |
| Calendar.DaysBeforeMonthStep | BusinessLogicFramework/Services/DataService.swift:237-239 | the cumulative month table agrees with adding up month lengths |
| Calendar.DayNumberOrder | BusinessLogicFramework/Services/DataService.swift:258 | day ordinals order valid dates exactly as the calendar does and tell them apart, so `d >= weekAgo && d <= maxDate` is an ordinal comparison |
| Calendar.NextDayNumber | BusinessLogicFramework/Services/DataService.swift:237-239 | the next calendar day is valid, later, and has the next ordinal, so "n days earlier" is "ordinal minus n" |
| Calendar.Advance | BusinessLogicFramework/Services/DataService.swift:237-239 | n steps of `NextDay` give a real date whose ordinal is n larger |
| Calendar.WithinDaysBeforeOrdinal | BusinessLogicFramework/Services/DataService.swift:237-258 | a date reaches another within n `NextDay` steps exactly when the ordinals differ by 0 to n, so `d >= weekAgo && d <= maxDate` is an ordinal range |
| CompactDate.PaddedText | BusinessLogicFramework/Services/DataService.swift:203-206 | a shorter text becomes eight characters: zeros in front of the unchanged `String(n)`; a longer one is left alone; for n ≥ 0 the result is all digits with value n |
| CompactDate.ZeroPadded | BusinessLogicFramework/Services/DataService.swift:204-206 | zeros in front keep the original text at the end and, for digits, the value |
| CompactDate.ParseDayMonthYear | BusinessLogicFramework/Services/DataService.swift:200-208 | only a real calendar date is ever produced |
| CompactDate.StatisticDateByFormatter | BusinessLogicFramework/Services/DataService.swift:199-209 | padding then parsing `ddMMyyyy` only yields real dates |
| CompactDate.StatisticDate | BusinessLogicFramework/Services/RealmService.swift:67-77 | the decoder used by the aggregations yields only real dates |
| CompactDate.StatisticDateFields | BusinessLogicFramework/Services/DataService.swift:199-209 | for every integer, the formatter pipeline equals the arithmetic split day = n/10^6, month = n/10^4 mod 100, year = n mod 10^4 when 0 ≤ n < 10^8 and that is a real date; otherwise nothing |
| CompactDate.DecodeEncode | BusinessLogicFramework/Services/DataService.swift:199-209 | every real date with a year of at most four digits encodes to an integer that decodes back to it |
| CompactDate.EncodeDecode | BusinessLogicFramework/Services/DataService.swift:199-209 | every decoded integer is the encoding of its date, year at most 9999 |
| CompactDate.StatisticDateInjective | BusinessLogicFramework/Services/DataService.swift:199-209 | two integers that decode to the same day are equal |
| CompactDate.ToDate | RikApp/Extensions/IntExtension.swift:12-33 | a split exists exactly when `String(n)` has 7 or 8 characters |
| CompactDate.ToDateDefined | RikApp/Extensions/IntExtension.swift:20-32 | those are the integers from 10^6 to below 10^8, and the negative ones whose text has 7 or 8 characters |
| CompactDate.ToDateFields | RikApp/Extensions/IntExtension.swift:21-30 | for 10^6 ≤ n < 10^8 both layouts give the arithmetic fields, so the `?? 1` / `?? 1970` fallbacks never fire |
| CompactDate.ToDateAgreesWithStatisticDate | RikApp/Extensions/IntExtension.swift:20-40 | for n ≥ 0, whatever the padded decoder accepts the splitter gives identically, and a split that is a real date is what the decoder gives |
| CompactDate.NegativeInputUsesDayFallback | RikApp/Extensions/IntExtension.swift:21-25 | −109202 splits into 1 October 9202 through the day fallback, a real date that the padded decoder rejects |
| CompactDate.PadNumber | BusinessLogicFramework/Services/DataService.swift:204-206 | the padded text is digits of the same value and exactly the width when the number fits |
| CompactDate.ToDateString | RikApp/Extensions/IntExtension.swift:44-49 | the display text is absent exactly when `toDate` is |
| CompactDate.FormatDateReadsBack | RikApp/Extensions/IntExtension.swift:46-48 | `dd.MM.yyyy` text of a real date is ten characters with dots at 2 and 5, and its fields read back as day, month and year |
| Visits.CountInWindow | BusinessLogicFramework/Services/DataService.swift:249-276 | a record's in-period events never outnumber its dates, and the all-time period counts every date |
| Visits.CountInWindowExtremes | BusinessLogicFramework/Services/DataService.swift:252-272 | the count is the number of dates exactly when every date is in the period, and 0 exactly when none is |
| Visits.CountInWindowAppend | BusinessLogicFramework/Services/DataService.swift:246-283 | counting is additive over concatenated date lists |
| Visits.AllDates | BusinessLogicFramework/Services/DataService.swift:226-229 | the collected timestamps are exactly the dates of the rows |
| Visits.MaxOf | BusinessLogicFramework/Services/DataService.swift:231 | `max()` is an entry of the list and at least every entry |
| Visits.PeriodWindow | BusinessLogicFramework/Services/DataService.swift:237-276 | today keeps exactly the entries equal to the largest raw integer; week and month keep exactly the entries that decode to a day from which at most 7 or 30 `NextDay` steps reach the latest date; all time keeps everything |
| Visits.LastDaysMeaning | BusinessLogicFramework/Services/DataService.swift:252-272 | the ordinal window of n days keeps exactly the decodable dates at most n calendar days before the reference date |
| Visits.LatestWindow | BusinessLogicFramework/Services/DataService.swift:226-235 | absent exactly when there is no date or the largest raw integer does not decode, even if other dates would; otherwise today, 7 days, 30 days or everything up to the decoded largest integer, by period |
| Visits.PeriodTotal | BusinessLogicFramework/Services/DataService.swift:244-283 | `totalVisitsAll` is the in-period count of all collected dates |
| Visits.UserVisits | BusinessLogicFramework/Services/DataService.swift:281 | a user's visits never exceed the period total and are 0 for a user without rows |
| Visits.SumUserVisitsSnoc | BusinessLogicFramework/Services/DataService.swift:281 | a new row adds its count once to the listed users' sum when its user is listed, and nothing otherwise |
| Visits.SumUserVisitsBound | BusinessLogicFramework/Services/DataService.swift:280-282 | per-user visits of distinct users add up to at most the total, and to exactly the total when every row's user is listed |
| Visits.TodayIsLargestRawInteger | BusinessLogicFramework/Services/DataService.swift:231-252 | with 1 January 2024 and 31 December 2023, "today" is 31 December 2023, the earlier date with the larger integer |
| TopViewers.ViewsPerUser | BusinessLogicFramework/Services/DataService.swift:121-125 | the dictionary holds exactly the users with a view row, each with the sum of its rows' date counts, duplicates included |
| TopViewers.TopIds | BusinessLogicFramework/Services/DataService.swift:132-137 | `prefix(limit)` keeps min(limit, count) leading ids and no limit keeps all |
| TopViewers.LookupUser | BusinessLogicFramework/Services/DataService.swift:145-152 | a found user has the requested id and comes from the stored row of that id; with unique ids it is that row's read-back; no row, no user |
| TopViewers.KeepStored | BusinessLogicFramework/Services/DataService.swift:153 | the surviving ids are exactly the requested ids that resolve to a readable stored user |
| TopViewers.KeepStoredPreservesOrder | BusinessLogicFramework/Services/DataService.swift:151-153 | dropping unresolved ids keeps the count order and introduces no repeat |
| TopViewers.ResolveUsers | BusinessLogicFramework/Services/DataService.swift:153 | the resolved users are the surviving ids in order, each the stored user of its id |
| TopViewers.TopViewers | BusinessLogicFramework/Services/DataService.swift:108-160 | [] without view rows; at most `limit` users; no user twice; non-increasing view counts; exactly the readable users among the first `limit` ranked ids, in rank order |
| TopViewers.TopIdsAreTop | BusinessLogicFramework/Services/DataService.swift:128-137 | every id kept by the limit has at least the count of every id cut off |
| TopViewers.TieAtTheTop | BusinessLogicFramework/Services/DataService.swift:128-130 | with counts 5, 3, 5 and limit 2 the two users kept are the two with count 5, whichever way the tie falls |
| TopViewers.CountOrderTotal | BusinessLogicFramework/Services/DataService.swift:121-130 | the per-user counts of any ranking add up to all view dates |
| Ranking.RankUserIds | BusinessLogicFramework/Services/DataService.swift:128-130 | sorting by descending count produces an order that lists every counted user exactly once, by non-increasing count |
| GenderAge.AgeBucket | BusinessLogicFramework/Services/DataService.swift:337-384 | a user gets an age group exactly when 18 or older |
| GenderAge.FirstRange | BusinessLogicFramework/Services/DataService.swift:340-384 | the loop stops at the first entry whose test passes; no earlier entry passes |
| GenderAge.AgeBucketTable | BusinessLogicFramework/Services/DataService.swift:310-384 | every age from 18 falls in exactly one of 18–21, 22–25, 26–30, 31–35, 36–40, 41–50, 51 and up |
| GenderAge.AgeBoundaries | BusinessLogicFramework/Services/DataService.swift:355-366 | 40 counts as "36–40", 41 and 50 as "40–50", 51 as ">50", 17 nowhere |
| GenderAge.Count | BusinessLogicFramework/Services/DataService.swift:326-385 | a user's visits go to the men's total for raw sex "M" and the women's for "W" (under-18s included), and to exactly the age group `AgeBucket` gives of that sex, no other group changing |
| GenderAge.TallyUsers | BusinessLogicFramework/Services/DataService.swift:305-385 | the men's and women's totals are the visits of the users of raw sex "M" and "W", each age group the visits of that sex's users in the group; groups never exceed their sex total, and the totals reach the users' visits when every user reads back |
| GenderAge.TallyStep | BusinessLogicFramework/Services/DataService.swift:326-385 | counting one more user keeps every sex and group total equal to the sums over the users counted so far |
| GenderAge.BoundsStep | BusinessLogicFramework/Services/DataService.swift:326-385 | counting one more user keeps the groups within the sex totals and the sex totals within the users' visits |
| GenderAge.AgeGroupsCoverAdults | BusinessLogicFramework/Services/DataService.swift:337-384 | the age groups together hold exactly the visits of the adult users, sex by sex |
| GenderAge.AgeRows | BusinessLogicFramework/Services/DataService.swift:398-411 | seven rows in the fixed order, each with its share of the period's visits |
| GenderAge.GenderAndAge | BusinessLogicFramework/Services/DataService.swift:212-235 | absent when there is no view date or the largest raw integer does not decode; otherwise exactly the breakdown of the period window ending there |
| GenderAge.Breakdown | BusinessLogicFramework/Services/DataService.swift:278-414 | present exactly when the period has visits, a visitor is cached and some visit is by a cached "M" or "W" user; then men% and women% are the floor of 100 · that sex's visits / all the period's visits, each age row that share for the group's users, men% + women% ≤ 100, and no group share above its sex share |
| GenderAge.GenderAndAgeToday | BusinessLogicFramework/Services/DataService.swift:423-425 | absent when there is no view date or the largest raw integer does not decode; otherwise the breakdown of the entries equal to that integer |
| GenderAge.SharesComplete | BusinessLogicFramework/Services/DataService.swift:393-395 | when every visitor is cached with sex "M" or "W", the two shares add up to 99 or 100 |
| Percent.Pct | BusinessLogicFramework/Services/DataService.swift:394-395 | the percentage is 100·part/total rounded down |
| Percent.PctAdd | BusinessLogicFramework/Services/DataService.swift:394-395 | rounding two parts separately never gives more than rounding their sum |
| Percent.PctComplement | BusinessLogicFramework/Services/DataService.swift:394-395 | two parts making up the whole get 99 or 100 percent together |
| Followers.FollowersLastMonth | BusinessLogicFramework/Services/RealmService.swift:83-134 | absent exactly when there is no follower date or the largest raw integer over both types does not decode; otherwise new is the in-window events of the subscription rows and lost those of the unsubscription rows, together the in-window total and at most the number of dates |
| Followers.TypesPartition | BusinessLogicFramework/Services/RealmService.swift:116-127 | subscription and unsubscription totals add up to the follower total, which is at most the number of dates |
| Followers.FollowersCountsLastMonth | BusinessLogicFramework/Services/RealmService.swift:83-134 | the service's loops compute exactly the counts the specification function defines |
| Followers.CountEvents | BusinessLogicFramework/Services/RealmService.swift:112-127 | `new` is the in-window events of the subscription rows and `lost` those of the unsubscription rows |
| Followers.CountDatesOfType | BusinessLogicFramework/Services/RealmService.swift:117-125 | every in-window date adds one to the count of its row's type and no other |
| Followers.OneSubscriptionRow | BusinessLogicFramework/Services/RealmService.swift:100-127 | a single subscription row gains its dates in the month up to its largest date and loses nothing |
| Followers.RepeatedDateCountsTwice | BusinessLogicFramework/Services/RealmService.swift:116-123 | a date listed twice counts as two new followers |
| Followers.LaterDateOutsideMonth | BusinessLogicFramework/Services/RealmService.swift:100-119 | with 31 January 2023 and 15 February 2024 the month ends at the larger integer, 31012023, so the 2024 event is not counted |
| Summary.ItemDates | RikApp/Views/Cells/VisitorsChartCell.swift:74-75 | the dates walked are exactly the dates of the records |
| Summary.DateCountSum | RikApp/Views/Cells/VisitorsSummaryCell.swift:115 | the `reduce` sum is the number of date entries |
| Summary.TotalVisitors | RikApp/Views/Cells/VisitorsSummaryCell.swift:113-117 | the total is the number of date entries of the view rows, duplicates counted, and 0 without view rows |
| Summary.NonViewRowsIgnored | RikApp/Views/Cells/VisitorsSummaryCell.swift:114 | a row of any other type leaves the total unchanged |
| Summary.ViewRowAdds | RikApp/Views/Cells/VisitorsSummaryCell.swift:114-115 | a view row adds its number of dates |
| Summary.TotalMatchesTopViewers | RikApp/Views/Cells/VisitorsSummaryCell.swift:115 | the per-user counts behind the top-viewers ranking add up to the total |
| Summary.TotalMatchesAllTime | RikApp/Views/Cells/VisitorsSummaryCell.swift:115 | the all-time `totalVisitsAll` of the gender and age breakdown is the total |
| Chart.CountDates | RikApp/Views/Cells/VisitorsChartCell.swift:72-79 | `dateCounts` maps exactly the dates present, each to its number of occurrences |
| Chart.AddDates | RikApp/Views/Cells/VisitorsChartCell.swift:75-78 | the inner loop adds one occurrence per date entry |
| Chart.SortKeys | RikApp/Views/Cells/VisitorsChartCell.swift:82 | the sorted keys are strictly increasing by raw integer and are exactly the keys |
| Chart.RawOrderIsNotCalendarOrder | RikApp/Views/Cells/VisitorsChartCell.swift:82 | in an increasing series, 1012024 (1 January 2024) comes before 31122023 (31 December 2023), the earlier day |
| Chart.ValuesOf | RikApp/Views/Cells/VisitorsChartCell.swift:84 | one value per key, the count when present and 0 otherwise |
| Chart.TalliesCoverAll | RikApp/Views/Cells/VisitorsChartCell.swift:72-84 | occurrence counts over distinct keys that cover every entry add up to the number of entries |
| Chart.ChartOf | RikApp/Views/Cells/VisitorsChartCell.swift:72-87 | no series without dates; otherwise equal-length non-empty lists, increasing keys that are exactly the distinct dates, each value its occurrence count ≥ 1, values summing to the number of entries |
| Chart.LoadChartData | RikApp/Views/Cells/VisitorsChartCell.swift:67-93 | the series is handed over exactly when there is a view date, then passes `setData`'s guard (RikApp/Views/Charts/LineChartViewContainer.swift:64-68), and its values add up to the visitors total |

## Left out

- Realm access errors and `getRealm` are not modelled. The cache is always readable and writable. In the source, the `catch` paths of the readers return `nil` or `[]`; those of `saveStatistics` and `saveUsers` only log, leaving the tables as they were.
- Write transactions and their atomicity are not modelled. A save simply replaces the value.
- Logging (`print`) is not modelled.
- The clock is a parameter. `cachedAt` is written as the `now` argument of `FromStatisticItem` and `FromUser`, because reading the clock is I/O.
- The network and JSON decoding are not modelled, nor the cache-or-fetch and `async let` orchestration in `DataService`. They are I/O and concurrency.
- The UI is not modelled: all cells except the two computations, the image cache, and the dispatch to the main queue and the drawing in `loadChartData`.
- The segmented control of the visitors chart is not modelled. Its delegate only logs the selected item, so the series does not depend on the segment. `Chart.LoadChartData` takes no segment input.
- Percent.Pct: the source computes `Int(Double(part) / Double(total) * 100)` in floating point. The model uses exact integer division, so floating-point rounding can make the source one lower, e.g. 29/100 gives 28.
- `Calendar.current` is taken to be the proleptic Gregorian calendar. Time zones and daylight-saving shifts are not modelled, because every parsed date is a local midnight.
- Calendar.DaysInMonth: the model is the proleptic Gregorian calendar at every year, while Foundation's Gregorian calendar follows Julian rules before 15 October 1582. Dates before then can therefore decode differently; for example, 29021500 decodes in the source (1500 is a Julian leap year) but not in the model.
- `date(byAdding:)` is taken never to fail. In the source, its `nil` branches leave week and month counts at 0 or make the follower counts `nil`; the model cannot reach them.
- CompactDate.StatisticDateByFormatter: `DateFormatter` is modelled as a strict fixed-width `ddMMyyyy` reader. Its behaviour on text that is not eight digits (negative numbers, nine or more digits) is taken to be failure, and year 0 is rejected.
- CompactDate.ToDate: only the component split is modelled. The normalisation of out-of-range components by `calendar.date(from:)` is not.
- CompactDate.ToDateString: only its `nil`-ness and the text of real dates are stated. For a split that is not a real date, the model formats the raw components instead of the normalised date.
- Integer overflow is not modelled. Counts are unbounded, while Swift traps on overflow; overflow needs more than 2^63 events.
- TopViewers.TopViewers: requires a given `limit` to be non-negative, as does TopViewers.TopIds. In the source, `prefix(limit)` traps on a negative limit only after the empty-view guard, so with no view rows a negative limit returns `[]`; the model does not cover that case.
- TopViewers.TopViewers: requires every stored user id to be unique. The source traps only when a duplicate is among the ids it queries.
- GenderAge.GenderAndAge: requires every stored user id to be unique. The source traps only when a duplicate is among the ids it queries.
- GenderAge.GenderAndAge: the model tallies over the cached users rather than over the visited ids. When ids are unique this gives the same sums, but that equivalence is argued here and not proved.
- TopViewers.TopViewers: the tie order of the dictionary sort is a parameter, `order`, constrained only to be a count order. `Ranking.RankUserIds` shows that such an order always exists.
