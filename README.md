# Crypto recommendation service: verified model

The service loads one CSV file of price observations per cryptocurrency.
The files are named `<SYMBOL>_values.csv`, and each row holds an epoch-millisecond
timestamp, a symbol and a price. The service keeps the resulting map from
symbol to series for its whole life and answers four kinds of query over it:

- the normalized range `(max - min) / min` of one symbol;
- the ranking of all symbols by normalized range;
- the oldest, newest, minimum and maximum price of a symbol, over its whole
  series or over an inclusive date window;
- the symbol with the highest normalized range among those traded on a given day.

A small gate turns optional `yyyy-MM-dd` request parameters into an optional
date range whose start is not after its end.

The model is a set of Dafny modules:

| module | file | models |
|---|---|---|
| Results | results.dfy | the exceptions each operation can end with, as an error value; the all-or-nothing mapping of a stream |
| Decimals | decimals.dfy | `java.math.BigDecimal` as (unscaled, scale): compareTo, subtract, divide with HALF_UP |
| Streams | streams.dfy | `filter`, `min`/`max` with a comparator (the first extreme wins), `sorted` |
| Numerals | numerals.dfy | `Long.parseLong` and `new BigDecimal(String)` for plain decimals |
| Dates | dates.dfy | calendar days, the UTC date of a timestamp, `DateRange` |
| DateUtils | date_utils.dfy | `DateUtils.getDatefromString` and `getTimeRangeFromString` |
| CsvLoader | csv_loader.dfy | `CSVLoaderService`: row parsing, header skipping, symbol from file name, assembly of the map |
| Recommendation | service.dfy | `CryptoRecommendationService`: the queries |
| Scenarios | scenarios.dfy | the unit-test and integration-test expectations, as lemmas |

A few representation choices:

- A timestamp is its epoch-millisecond value. `LocalDateTime` is always
  built in UTC, so a calendar date is the day index `millis / 86400000`.
  `Dates.EpochDay` turns a year, month and day into the same index.
- A decimal is compared numerically by cross-multiplying. `1.0` and `1.00`
  are therefore the same value but different decimals, as in Java.
- `HashMap` iteration order is not computed. Wherever it decides an outcome,
  the functions take an explicit `order` parameter. That order is any
  duplicate-free list of the map's keys (`Recommendation.IsKeyOrder`). It
  decides which failing symbol is reported and how equal ranges are ordered.
  Every property is proved for all such orders.
- The loader receives the directory listing as a sequence of file names,
  each paired with the records its CSV reader returns. The concurrent
  per-file tasks are run one after another. Every file is examined in
  listing order, and the first failure is the load's failure.

The code has no secondary key for equal ranges; the model leaves tie order
to `order` and promises nothing about it.

## Model

| member | source | states |
|---|---|---|
| Results.MapAll | src/main/java/com/xm/crypto/recommendation/service/CSVLoaderService.java:83-86 | mapping a stream element by element succeeds exactly when every element succeeds. The results are aligned with the inputs, and a failure is the error of the first failing element |
| Decimals.Cmp | src/main/java/com/xm/crypto/recommendation/service/CryptoRecommendationService.java:42-50 | compareTo is in -1..1, and its sign agrees with the numerical order in both directions |
| Decimals.LeTransitive | src/main/java/com/xm/crypto/recommendation/service/CryptoRecommendationService.java:42-50 | the numerical order that the price comparator uses is transitive |
| Decimals.Sub | src/main/java/com/xm/crypto/recommendation/service/CryptoRecommendationService.java:52 | subtract has the larger of the two scales, and the difference is non-negative exactly when the subtrahend is at most the minuend |
| Decimals.SubExact | src/main/java/com/xm/crypto/recommendation/service/CryptoRecommendationService.java:52 | subtract is exact: cross-multiplied by both scales, its unscaled value is the exact difference |
| Decimals.RoundHalfUp | src/main/java/com/xm/crypto/recommendation/service/CryptoRecommendationService.java:52 | HALF_UP rounding of n / d: the result is within one half of the exact quotient, ties go away from zero, and its sign is the quotient's |
| Decimals.HalfUpUnique | src/main/java/com/xm/crypto/recommendation/service/CryptoRecommendationService.java:52 | at most one integer is the half-up rounding of a given quotient |
| Decimals.DivideHalfUp | src/main/java/com/xm/crypto/recommendation/service/CryptoRecommendationService.java:52 | divide(b, HALF_UP) fails exactly when b is zero and keeps the dividend's scale. For every sign of the operands, the result is the exact quotient rounded half away from zero, with the quotient's sign |
| Streams.Filter | src/main/java/com/xm/crypto/recommendation/service/CryptoRecommendationService.java:62-65 | filter keeps exactly the elements satisfying the predicate, each as often as in the input, and never lengthens the stream |
| Streams.FilterConcat | src/main/java/com/xm/crypto/recommendation/service/CryptoRecommendationService.java:62-65 | filter keeps encounter order: filtering a + b gives the kept elements of a followed by those of b |
| Streams.MinBy | src/main/java/com/xm/crypto/recommendation/service/CryptoRecommendationService.java:42-45 | min(comparator) on a non-empty stream is the first element that is at most every element |
| Streams.MaxBy | src/main/java/com/xm/crypto/recommendation/service/CryptoRecommendationService.java:47-50 | max(comparator) on a non-empty stream is the first element that is at least every element |
| Streams.FirstLeastUnique | src/main/java/com/xm/crypto/recommendation/service/CryptoRecommendationService.java:118-121 | the first least element of a stream is determined by the stream and the comparator |
| Streams.FirstGreatestUnique | src/main/java/com/xm/crypto/recommendation/service/CryptoRecommendationService.java:123-126 | the first greatest element of a stream is determined by the stream and the comparator |
| Streams.Sorted | src/main/java/com/xm/crypto/recommendation/service/CryptoRecommendationService.java:87 | sorted(comparator) returns a permutation of its input that is ordered by the comparator |
| Numerals.ParseLong | src/main/java/com/xm/crypto/recommendation/service/CSVLoaderService.java:101 | Long.parseLong accepts exactly an optional sign followed by at least one ASCII digit whose signed value lies within the 64-bit range, and returns that value. A value outside the range, empty input and a bare sign fail |
| Numerals.ParseShowLong | src/main/java/com/xm/crypto/recommendation/service/CSVLoaderService.java:101 | every 64-bit value, printed in decimal, parses back to itself |
| Numerals.ParseDecimal | src/main/java/com/xm/crypto/recommendation/service/CSVLoaderService.java:102 | new BigDecimal(String) accepts exactly an optional sign followed by digits and at most one point, with at least one digit. The unscaled value is the signed value of all the digits, and the scale is the number of characters after the point |
| Numerals.DecimalForms | src/main/java/com/xm/crypto/recommendation/service/CSVLoaderService.java:102 | "+1", ".5" and "5." are accepted, as 1, 0.5 and 5 |
| Numerals.TwoPointsRejected | src/main/java/com/xm/crypto/recommendation/service/CSVLoaderService.java:102 | "1.2.3" is rejected |
| Numerals.ParsePlainString | src/main/java/com/xm/crypto/recommendation/service/CSVLoaderService.java:102 | every decimal, printed in plain notation, parses back to the same unscaled value and scale |
| Numerals.ParseDecimalParts | src/main/java/com/xm/crypto/recommendation/service/CSVLoaderService.java:102 | an optional minus, integer digits and optional fraction digits parse to the signed digit value, with the fraction's length as scale |
| Dates.DayOf | src/main/java/com/xm/crypto/recommendation/service/CSVLoaderService.java:103 | the UTC date of an epoch-millisecond timestamp is the day whose 86400000 ms interval contains it |
| Dates.NewDateRange | src/main/java/com/xm/crypto/recommendation/model/DateRange.java:10-16 | the constructor fails exactly when start is after end, and then with "Start date must be before end date!". Equal dates are accepted, and getStart/getEnd return the arguments |
| Dates.NewDateRangeOrdered | src/main/java/com/xm/crypto/recommendation/model/DateRange.java:10-24 | every constructed range has start at most end |
| Dates.DaysInMonth | src/main/java/com/xm/crypto/recommendation/utils/DateUtils.java:17 | a month has 28 to 31 days |
| Dates.EpochDayAnchors | src/main/java/com/xm/crypto/recommendation/utils/DateUtils.java:17 | 1970-01-01 is day 0 and 2022-01-01 is day 18993, the UTC date of the first test observation |
| Dates.EpochDayWithinMonth | src/main/java/com/xm/crypto/recommendation/utils/DateUtils.java:17 | consecutive days of one month have consecutive day indices |
| Dates.EpochDayMonthEnd | src/main/java/com/xm/crypto/recommendation/utils/DateUtils.java:17 | the day after a month's last day (28, 29, 30 or 31 as the calendar has it) is the first of the next month |
| Dates.FebruaryEnd | src/main/java/com/xm/crypto/recommendation/utils/DateUtils.java:17 | March 1 follows February 29 in leap years and February 28 otherwise |
| Dates.EpochDayYearEnd | src/main/java/com/xm/crypto/recommendation/utils/DateUtils.java:17 | January 1 follows December 31 of the previous year |
| DateUtils.GetDateFromString | src/main/java/com/xm/crypto/recommendation/utils/DateUtils.java:15-21 | a string not of the yyyy-MM-dd shape fails. A shaped string succeeds exactly when its year is at least 1, its month 1 to 12 and its day 1 to 31; the date is that day, moved back to the month's last day when past it. Every failure is "Invalid date format. Please use yyyy-MM-dd." |
| DateUtils.ClampedDates | src/main/java/com/xm/crypto/recommendation/utils/DateUtils.java:15-21 | "2022-02-30" parses to February 28; month 13, day 0 and year 0 are rejected with the date-format message |
| DateUtils.IsEmpty | src/main/java/com/xm/crypto/recommendation/utils/DateUtils.java:24-30 | StringUtils.isEmpty holds exactly for a missing (null) or empty parameter |
| DateUtils.ParseFormattedDate | src/main/java/com/xm/crypto/recommendation/utils/DateUtils.java:15-21 | every valid date of years 1 to 9999, printed as yyyy-MM-dd, parses back to its day |
| DateUtils.GetTimeRangeFromString | src/main/java/com/xm/crypto/recommendation/utils/DateUtils.java:23-36 | there is no range exactly when both parameters are empty. Exactly one empty parameter fails with "A valid time range needs to be provided!". Otherwise the start and end are parsed in that order, and the range is built from exactly the parsed dates or fails because start is after end |
| DateUtils.MalformedDates | src/test/java/com/xm/crypto/recommendation/integration/IntegrationTests.java:73-77 | "202255-03-01" and "2023-10-011" are rejected with the date-format message |
| DateUtils.InvertedRange | src/test/java/com/xm/crypto/recommendation/integration/IntegrationTests.java:64-68 | a start after the end, or one missing parameter, is rejected with the matching message |
| CsvLoader.ParseCryptoLine | src/main/java/com/xm/crypto/recommendation/service/CSVLoaderService.java:95-108 | a row without three fields fails as malformed. A three-field row succeeds exactly when its first field is a long and its third a decimal, and fails otherwise with the parse message. On success the observation holds those values and the unchecked second field as symbol |
| CsvLoader.ParsePrintedLine | src/main/java/com/xm/crypto/recommendation/service/CSVLoaderService.java:100-103 | a row printed from an observation with a 64-bit timestamp parses back to that observation |
| CsvLoader.Join | src/main/java/com/xm/crypto/recommendation/service/CSVLoaderService.java:97-98 | String.join of no fields is empty, of one field is that field, and otherwise as long as the fields and the separators between them |
| CsvLoader.JoinThree | src/main/java/com/xm/crypto/recommendation/service/CSVLoaderService.java:105-106 | three fields are joined as field, separator, field, separator, field |
| CsvLoader.LoadCryptoData | src/main/java/com/xm/crypto/recommendation/service/CSVLoaderService.java:79-93 | the first record is skipped as header. Loading succeeds exactly when every later record parses, and the series is those records' observations in file order, one fewer than the records. Otherwise it fails with the error of the first record after the header that does not parse |
| CsvLoader.ExtractSymbolFromFileName | src/main/java/com/xm/crypto/recommendation/service/CSVLoaderService.java:110-117 | an accepted name is a non-empty run of ASCII letters, the symbol, followed by "_values.csv". Any other name fails with "Invalid file name format: " and the name |
| CsvLoader.ExtractSymbolAccepts | src/main/java/com/xm/crypto/recommendation/service/CSVLoaderService.java:110-117 | every name made of letters and "_values.csv" is accepted, with the letters as its symbol |
| CsvLoader.SymbolsDistinct | src/main/java/com/xm/crypto/recommendation/service/CSVLoaderService.java:110-117 | distinct accepted file names have distinct symbols |
| CsvLoader.RejectsTrailingSuffix | src/test/java/com/xm/crypto/recommendation/service/CSVLoaderServiceTest.java:60-67 | "BTC_values_1232.csv" is rejected, because the pattern must match the whole name |
| CsvLoader.AcceptsTestName | src/test/java/com/xm/crypto/recommendation/service/CSVLoaderServiceTest.java:32-55 | "BTC_values.csv" yields the symbol "BTC" |
| CsvLoader.CsvGlob | src/main/java/com/xm/crypto/recommendation/service/CSVLoaderService.java:42 | the glob *.csv accepts every name of the form stem + ".csv", and only those |
| CsvLoader.LoadAll | src/main/java/com/xm/crypto/recommendation/service/CSVLoaderService.java:40-58 | a load fails only with an invalid-name error, a malformed-record error wrapped as a completion failure, or a duplicate key |
| CsvLoader.JoinedSeries | src/main/java/com/xm/crypto/recommendation/service/CSVLoaderService.java:64-77 | joining a file's task gives its series, or its parse error wrapped as a completion failure |
| CsvLoader.ToMapMeaning | src/main/java/com/xm/crypto/recommendation/service/CSVLoaderService.java:52-53 | Collectors.toMap succeeds exactly when the keys are distinct. The map then has exactly those keys, each bound to its own value; otherwise it fails on a duplicate key |
| CsvLoader.CsvSymbolsDistinct | src/main/java/com/xm/crypto/recommendation/service/CSVLoaderService.java:52-53 | the *.csv files of a listing get pairwise distinct symbols, so toMap's duplicate-key failure cannot occur |
| CsvLoader.LoadAllSucceeds | src/main/java/com/xm/crypto/recommendation/service/CSVLoaderService.java:40-58 | the load succeeds exactly when every *.csv file has a valid name and loadable records |
| CsvLoader.LoadAllEntries | src/main/java/com/xm/crypto/recommendation/service/CSVLoaderService.java:40-58 | after a successful load, every *.csv file's symbol is a key bound to that file's series, which has one fewer observation than the file's records |
| CsvLoader.LoadAllKeys | src/main/java/com/xm/crypto/recommendation/service/CSVLoaderService.java:42-53 | every key of a loaded map is the symbol of some *.csv file of the listing |
| CsvLoader.LoadAllBadName | src/main/java/com/xm/crypto/recommendation/service/CSVLoaderService.java:43-45 | one *.csv file with an invalid name makes the whole load fail. The error is the invalid-name error of the first *.csv file in listing order whose name is invalid, raised directly |
| CsvLoader.LoadAllSeriesFails | src/main/java/com/xm/crypto/recommendation/service/CSVLoaderService.java:47-49 | when every name is valid, a failed load is a failed join |
| CsvLoader.LoadAllBadRecords | src/main/java/com/xm/crypto/recommendation/service/CSVLoaderService.java:65-76 | when every name is valid, a failed load is the record error of the first *.csv file in listing order whose records do not load, wrapped as a completion failure |
| CsvLoader.CsvNamesWellFormed | src/main/java/com/xm/crypto/recommendation/service/CSVLoaderService.java:43-45 | when every *.csv name is valid, extracting all symbols succeeds |
| CsvLoader.MapInOrder | src/main/java/com/xm/crypto/recommendation/service/CSVLoaderService.java:47-49 | the step-by-step collection of per-file results equals the all-or-nothing mapping `Results.MapAll` |
| CsvLoader.CollectToMap | src/main/java/com/xm/crypto/recommendation/service/CSVLoaderService.java:52-53 | inserting key after key into a map, failing on a repeated key, equals `CsvLoader.ToMap` |
| CsvLoader.LoadAllCryptos | src/main/java/com/xm/crypto/recommendation/service/CSVLoaderService.java:40-58 | the sequential load equals `CsvLoader.LoadAll`, whose meaning the LoadAll lemmas state |
| CsvLoader.MapAllPrefixFails | src/main/java/com/xm/crypto/recommendation/service/CSVLoaderService.java:47-49 | once a prefix of the files fails, the whole mapping fails with that error |
| CsvLoader.ToMapPrefixFails | src/main/java/com/xm/crypto/recommendation/service/CSVLoaderService.java:52-53 | once a prefix of the entries repeats a key, the whole collection fails the same way |
| Recommendation.PriceOrder | src/main/java/com/xm/crypto/recommendation/service/CryptoRecommendationService.java:43 | comparing by price is a total preorder |
| Recommendation.TimeOrder | src/main/java/com/xm/crypto/recommendation/service/CryptoRecommendationService.java:118-126 | comparing by timestamp is a total preorder |
| Recommendation.RangeOrders | src/main/java/com/xm/crypto/recommendation/service/CryptoRecommendationService.java:87 | comparing by normalized range, and its reversal, are total preorders |
| Recommendation.CheapestIndex | src/main/java/com/xm/crypto/recommendation/service/CryptoRecommendationService.java:42-45 | the minimum-price observation is the first one whose price is at most every price |
| Recommendation.DearestIndex | src/main/java/com/xm/crypto/recommendation/service/CryptoRecommendationService.java:47-50 | the maximum-price observation is the first one whose price is at least every price |
| Recommendation.DivideRange | src/main/java/com/xm/crypto/recommendation/service/CryptoRecommendationService.java:52 | for a positive minimum at most the maximum, (max - min) / min succeeds. It is non-negative, has the larger scale of the two prices, and is the exact ratio rounded half up |
| Recommendation.RoundsRatioUnique | src/main/java/com/xm/crypto/recommendation/service/CryptoRecommendationService.java:52 | for a positive minimum, only one decimal of a given scale rounds the ratio half up |
| Recommendation.NormalizedRangeOf | src/main/java/com/xm/crypto/recommendation/service/CryptoRecommendationService.java:42-54 | an empty series fails with "No minimum price found". A non-empty series fails exactly when its minimum price is zero, and then with a division error. The range has the larger scale of the extreme prices, and for a positive minimum it is non-negative and equals (max - min) / min rounded half up |
| Recommendation.GetNormalizedRangeForSymbol | src/main/java/com/xm/crypto/recommendation/service/CryptoRecommendationService.java:37-55 | an unknown symbol fails with "No data found for symbol: " and the symbol. Otherwise the result is the range of its series |
| Recommendation.GetCryptoStats | src/main/java/com/xm/crypto/recommendation/service/CryptoRecommendationService.java:116-139 | the statistics fail exactly on an empty series, at the bare orElseThrow. Otherwise oldest and newest are the prices of the first observations with the least and greatest timestamp, and min and max are the first cheapest and first dearest prices |
| Recommendation.StatsBound | src/main/java/com/xm/crypto/recommendation/service/CryptoRecommendationService.java:128-138 | the minimum is at most every price of the series, and the maximum at least every price |
| Recommendation.StatsIgnoreOrder | src/main/java/com/xm/crypto/recommendation/service/CryptoRecommendationService.java:118-126 | for a series with distinct timestamps, every rearrangement has the same oldest and newest price |
| Recommendation.ExtremePricesIgnoreOrder | src/main/java/com/xm/crypto/recommendation/service/CryptoRecommendationService.java:128-136 | every rearrangement of a series has numerically the same minimum and maximum price |
| Recommendation.LeastAgree | src/main/java/com/xm/crypto/recommendation/service/CryptoRecommendationService.java:118-121 | the least elements of a stream and of a rearrangement of it are equivalent under the comparator |
| Recommendation.GreatestAgree | src/main/java/com/xm/crypto/recommendation/service/CryptoRecommendationService.java:123-126 | the greatest elements of a stream and of a rearrangement of it are equivalent under the comparator |
| Recommendation.GetCryptoStatsForSymbol | src/main/java/com/xm/crypto/recommendation/service/CryptoRecommendationService.java:75-81 | an unknown symbol fails with the not-found message. Otherwise the result is the statistics of its whole series |
| Recommendation.ObservationsIn | src/main/java/com/xm/crypto/recommendation/service/CryptoRecommendationService.java:62-65 | the window keeps exactly the observations whose UTC date lies between start and end, both ends included |
| Recommendation.GetCryptoStatsForSymbolAndDateRange | src/main/java/com/xm/crypto/recommendation/service/CryptoRecommendationService.java:57-73 | an unknown symbol fails with the not-found message. A known symbol fails with the "in the specified time range" message exactly when no observation is dated within the window. Otherwise the result is the statistics of exactly the windowed observations |
| Recommendation.WindowStatsBound | src/main/java/com/xm/crypto/recommendation/service/CryptoRecommendationService.java:57-73 | the windowed minimum and maximum bound every price dated within the window |
| Recommendation.FilterCryptosByDate | src/main/java/com/xm/crypto/recommendation/service/CryptoRecommendationService.java:109-114 | keeps exactly the observations dated on the given day, with their multiplicities |
| Recommendation.DayIsOneDayWindow | src/main/java/com/xm/crypto/recommendation/service/CryptoRecommendationService.java:109-114 | one day's observations are those of the date window from that day to itself |
| Recommendation.AllCryptoInfoForDate | src/main/java/com/xm/crypto/recommendation/service/CryptoRecommendationService.java:100-107 | every symbol is kept, mapped to exactly its observations on the day, possibly none |
| Recommendation.EntryFor | src/main/java/com/xm/crypto/recommendation/service/CryptoRecommendationService.java:86 | the entry of a symbol succeeds exactly when its range does, and pairs the symbol with that range |
| Recommendation.KeyOrderSize | src/main/java/com/xm/crypto/recommendation/service/CryptoRecommendationService.java:85 | a duplicate-free enumeration of the keys is as long as the key set |
| Recommendation.Ranking | src/main/java/com/xm/crypto/recommendation/service/CryptoRecommendationService.java:83-89 | the ranking succeeds exactly when every symbol's range does, and otherwise fails with some symbol's range error. It has exactly one entry per symbol, each holding that symbol's range, by non-increasing range |
| Recommendation.EntriesResult | src/main/java/com/xm/crypto/recommendation/service/CryptoRecommendationService.java:85-86 | mapping every key to its entry succeeds exactly when every range does, and fails with one symbol's range error |
| Recommendation.SortedEntriesRank | src/main/java/com/xm/crypto/recommendation/service/CryptoRecommendationService.java:85-88 | sorting the entries of all keys by descending range gives a ranking |
| Recommendation.EntriesBySymbol | src/main/java/com/xm/crypto/recommendation/service/CryptoRecommendationService.java:85-86 | the entries follow the key order, one per key, each with its symbol's range |
| Recommendation.HasDataOnMeaning | src/main/java/com/xm/crypto/recommendation/service/CryptoRecommendationService.java:94 | a symbol has data on a day exactly when one of its observations is dated that day |
| Recommendation.Candidates | src/main/java/com/xm/crypto/recommendation/service/CryptoRecommendationService.java:93-94 | the candidates are exactly the symbols with data on the day |
| Recommendation.HighestNormalizedRangeForDate | src/main/java/com/xm/crypto/recommendation/service/CryptoRecommendationService.java:91-98 | fails with the no-data-for-date error exactly when no symbol has data on the day. It succeeds exactly when some symbol does and every such symbol's range succeeds, and otherwise fails with a candidate's range error. The winner is a candidate, its value is its whole-series range, and that value is at least every candidate's range |
| Recommendation.CandidateEntries | src/main/java/com/xm/crypto/recommendation/service/CryptoRecommendationService.java:93-95 | mapping the candidates to entries succeeds exactly when every candidate's range does, and is empty exactly when there is no candidate |
| Scenarios.BtcRange | src/test/java/com/xm/crypto/recommendation/service/CryptoRecommendationServiceTest.java:57-63 | the BTC test series has normalized range 0.08 |
| Scenarios.EthRange | src/test/java/com/xm/crypto/recommendation/service/CryptoRecommendationServiceTest.java:87-98 | the ETH test series has normalized range 0.31 |
| Scenarios.UnknownSymbol | src/test/java/com/xm/crypto/recommendation/service/CryptoRecommendationServiceTest.java:67-71 | all three per-symbol queries fail for DOGE with "No data found for symbol: DOGE" |
| Scenarios.StatsAt | src/main/java/com/xm/crypto/recommendation/service/CryptoRecommendationService.java:116-139 | the statistics are the prices at the first least and first greatest timestamp and price |
| Scenarios.BtcStats | src/test/java/com/xm/crypto/recommendation/service/CryptoRecommendationServiceTest.java:75-83 | BTC's statistics are oldest 36823.19, newest 35201.17, min 35201.17, max 38161.69 |
| Scenarios.RankingOfTwo | src/main/java/com/xm/crypto/recommendation/service/CryptoRecommendationService.java:83-89 | with two symbols of different ranges, the ranking lists the larger first, whatever the map order |
| Scenarios.TestRanking | src/test/java/com/xm/crypto/recommendation/service/CryptoRecommendationServiceTest.java:87-98 | the test data ranks ETH 0.31 before BTC 0.08 |
| Scenarios.HighestOfTwo | src/main/java/com/xm/crypto/recommendation/service/CryptoRecommendationService.java:91-98 | with two symbols traded on the day, the one with the larger range wins, whatever the map order |
| Scenarios.TestHighestForDate | src/test/java/com/xm/crypto/recommendation/service/CryptoRecommendationServiceTest.java:102-108 | on 2022-01-01, ETH wins with 0.31 |
| Scenarios.TestNoDataForDate | src/test/java/com/xm/crypto/recommendation/service/CryptoRecommendationServiceTest.java:112-116 | on 2025-01-01 no symbol has data, and the query fails with the no-data-for-date error |

## Left out

- File and directory I/O are not modelled, and neither are the `IOException`s
  of reading: the listing and each file's records are inputs.
- opencsv tokenisation is not modelled: records arrive already split into fields.
- The `CompletableFuture` fan-out is not modelled: the per-file tasks run
  sequentially in listing order. The futures are joined in that same order,
  so the failure reported is the same one.
- Logging, Spring configuration and wiring, the delegate, the command classes,
  the controllers and the HTTP status mapping are not modelled.
- The file-name pattern is not configurable: it is fixed to
  `([A-Za-z]+)_values\.csv$` under whole-name matching.
- Numerals.ParseDecimal: exponent notation (`1E+3`) and non-ASCII digits are
  rejected, where `new BigDecimal(String)` accepts them.
- Numerals.ParseLong: non-ASCII digits are rejected, where `Long.parseLong` accepts them.
- DateUtils.GetDateFromString: it accepts exactly four-digit years.
  `DateTimeFormatter`'s sign rules for longer years are not modelled; day
  clamping is the only resolver rule modelled.
- Recommendation.HighestNormalizedRangeForDate: its not-found error holds the
  day index, not the date rendered into the message.
- Recommendation.NormalizedRangeOf: the meaning of the quotient is stated
  only for a positive minimum price. For a negative minimum, only the scale is
  stated; CSV prices of the data set are never negative.
- Recommendation.Ranking: the order of entries with equal ranges follows
  the map's iteration order and is not stated. The model's sort is stable.
- Recommendation.HighestNormalizedRangeForDate: which of several tied winners
  is returned follows the map's iteration order and is not stated.
- `HashMap` iteration order itself is not computed: the callers pass it as `order`.
- The test classes call `getSortedByNormalizedRange()` and
  `getHighestNormalizedRangeForDate(...)`. The service itself names these
  operations `getSortedByNormalizedRangedForAllCryptos` and
  `getCryptoHighestNormalizedRangeForDate`; the model treats them as one.
