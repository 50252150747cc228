/**
 * CryptoRecommendationService: the queries answered over the dataset the
 * loader built (symbol -> series of observations), which the service holds
 * read-only for its whole life. Every query is a function of that dataset.
 *
 * Java's HashMap iterates its keys in an order the model does not compute;
 * where that order decides an outcome (which failing symbol is reported
 * first, the order of ties), it is an explicit parameter `order` listing the
 * dataset's keys once each.
 */
module Recommendation {
  import opened Results
  import opened Decimals
  import opened Streams
  import opened Dates
  import opened CsvLoader

  /** CryptoStats: oldest, newest, minimum and maximum price of a series. */
  datatype CryptoStats = CryptoStats(oldestPrice: Decimal, newestPrice: Decimal, minPrice: Decimal, maxPrice: Decimal)

  /** CryptoNormalizedRange: a symbol and its normalized range. */
  datatype NormalizedRange = NormalizedRange(symbol: string, range: Decimal)

  const NoDataForSymbol: string := "No data found for symbol: "
  const InTimeRange: string := " in the specified time range"
  const NoMinimumPrice: string := "No minimum price found"

  // The comparators, as "at most" relations.

  /** Comparator.comparing(Crypto::getPrice). */
  predicate PriceAtMost(a: Crypto, b: Crypto) {
    Le(a.price, b.price)
  }

  /** Comparator.comparing(Crypto::getTimestamp). */
  predicate TimeAtMost(a: Crypto, b: Crypto) {
    a.timestamp <= b.timestamp
  }

  /** Comparator.comparing(CryptoNormalizedRange::getNormalizedRange). */
  predicate RangeAtMost(a: NormalizedRange, b: NormalizedRange) {
    Le(a.range, b.range)
  }

  /** The same comparator, reversed(). */
  predicate RangeAtLeast(a: NormalizedRange, b: NormalizedRange) {
    Le(b.range, a.range)
  }

  lemma PriceOrder()
    ensures TotalPreorder(PriceAtMost)
  {
    forall a: Crypto, b: Crypto ensures PriceAtMost(a, b) || PriceAtMost(b, a) {
      LeTotal(a.price, b.price);
    }
    forall a: Crypto, b: Crypto, c: Crypto | PriceAtMost(a, b) && PriceAtMost(b, c) ensures PriceAtMost(a, c) {
      LeTransitive(a.price, b.price, c.price);
    }
  }

  lemma TimeOrder()
    ensures TotalPreorder(TimeAtMost)
  {
  }

  lemma RangeOrders()
    ensures TotalPreorder(RangeAtMost)
    ensures TotalPreorder(RangeAtLeast)
  {
    forall a: NormalizedRange, b: NormalizedRange ensures RangeAtMost(a, b) || RangeAtMost(b, a) {
      LeTotal(a.range, b.range);
    }
    forall a: NormalizedRange, b: NormalizedRange, c: NormalizedRange | RangeAtMost(a, b) && RangeAtMost(b, c)
      ensures RangeAtMost(a, c)
    {
      LeTransitive(a.range, b.range, c.range);
    }
    forall a: NormalizedRange, b: NormalizedRange, c: NormalizedRange | RangeAtLeast(a, b) && RangeAtLeast(b, c)
      ensures RangeAtLeast(a, c)
    {
      LeTransitive(c.range, b.range, a.range);
    }
  }

  /** Position of stream().min(comparing(getPrice)). */
  function CheapestIndex(s: seq<Crypto>): (k: nat)
    requires |s| > 0
    ensures IsFirstLeast(s, k, PriceAtMost)
  {
    PriceOrder();
    MinBy(s, PriceAtMost)
  }

  /** Position of stream().max(comparing(getPrice)). */
  function DearestIndex(s: seq<Crypto>): (k: nat)
    requires |s| > 0
    ensures IsFirstGreatest(s, k, PriceAtMost)
  {
    PriceOrder();
    MaxBy(s, PriceAtMost)
  }

  // Normalized range.

  /**
   * q is (max - min) / min rounded half up to q's scale: the exact ratio,
   * cross-multiplied by both operands' scales, is
   * (max.unscaled * 10^min.scale - min.unscaled * 10^max.scale)
   *   / (10^max.scale * min.unscaled).
   */
  ghost predicate RoundsRatio(q: Decimal, max: Decimal, min: Decimal) {
    var pa, pb := Pow10(max.scale), Pow10(min.scale);
    IsHalfUp((max.unscaled * pb - min.unscaled * pa) * Pow10(q.scale), pa * min.unscaled, q.unscaled)
  }

  function MaxScale(a: Decimal, b: Decimal): nat {
    if a.scale >= b.scale then a.scale else b.scale
  }

  /**
   * maxPrice.subtract(minPrice).divide(minPrice, HALF_UP) for a positive
   * minimum at most the maximum: a non-negative quotient at the larger of
   * the two scales, rounding the exact ratio half up.
   */
  lemma DivideRange(max: Decimal, min: Decimal)
    requires Le(min, max) && min.unscaled > 0
    ensures DivideHalfUp(Sub(max, min), min).Quotient?
    ensures var q := DivideHalfUp(Sub(max, min), min).value;
      q.unscaled >= 0 && q.scale == MaxScale(max, min) && RoundsRatio(q, max, min)
  {
    var d := Sub(max, min);
    var q := DivideHalfUp(d, min).value;
    SubExact(max, min);
    ScaledRatio(d.unscaled, max.unscaled, min.unscaled, Pow10(max.scale), Pow10(min.scale), Pow10(q.scale), q.unscaled);
  }

  /** The integer core of DivideRange: rounding d * pb / bu is rounding d * pa * pb / (pa * bu). */
  lemma ScaledRatio(du: int, au: int, bu: int, pa: int, pb: int, ps: int, q: int)
    requires pa > 0
    requires du * (pa * pb) == (au * pb - bu * pa) * ps
    requires IsHalfUp(du * pb, bu, q)
    ensures IsHalfUp((au * pb - bu * pa) * ps, pa * bu, q)
  {
    HalfUpScale(du * pb, bu, q, pa);
    assert (du * pb) * pa == du * (pa * pb);
    assert bu * pa == pa * bu;
  }

  /** The half-up rounding of the ratio at a given scale is unique. */
  lemma RoundsRatioUnique(q1: Decimal, q2: Decimal, max: Decimal, min: Decimal)
    requires min.unscaled > 0 && q1.scale == q2.scale
    requires RoundsRatio(q1, max, min) && RoundsRatio(q2, max, min)
    ensures q1 == q2
  {
    var pa := Pow10(max.scale);
    assert pa * min.unscaled > 0;
    HalfUpUnique((max.unscaled * Pow10(min.scale) - min.unscaled * pa) * Pow10(q1.scale), pa * min.unscaled, q1.unscaled, q2.unscaled);
  }

  /**
   * The normalized range of a series (lines 42-52): (max - min) / min at the
   * larger scale of the two extreme prices, rounded half up. An empty series
   * has no minimum; a zero minimum price makes the division fail.
   */
  function NormalizedRangeOf(series: seq<Crypto>): (r: Result<Decimal>)
    ensures series == [] ==> r == Err(ResourceNotFound(NoMinimumPrice))
    ensures series != [] ==> r.Ok? || r == Err(DivisionByZero)
    ensures series != [] ==> (r.Err? <==> series[CheapestIndex(series)].price.unscaled == 0)
    ensures r.Ok? ==> r.value.scale == MaxScale(series[DearestIndex(series)].price, series[CheapestIndex(series)].price)
    ensures r.Ok? && series[CheapestIndex(series)].price.unscaled > 0 ==>
      r.value.unscaled >= 0 && RoundsRatio(r.value, series[DearestIndex(series)].price, series[CheapestIndex(series)].price)
  {
    if series == [] then Err(ResourceNotFound(NoMinimumPrice))
    else
      var min := series[CheapestIndex(series)].price;
      var max := series[DearestIndex(series)].price;
      match DivideHalfUp(Sub(max, min), min)
      case ZeroDivisor => Err(DivisionByZero)
      case Quotient(q) =>
        if min.unscaled > 0 then
          DivideRange(max, min);
          Ok(q)
        else
          Ok(q)
  }

  /** getNormalizedRangeForSymbol: a symbol without data is not found. */
  function GetNormalizedRangeForSymbol(data: Dataset, symbol: string): (r: Result<Decimal>)
    ensures symbol !in data ==> r == Err(ResourceNotFound(NoDataForSymbol + symbol))
    ensures symbol in data ==> r == NormalizedRangeOf(data[symbol])
  {
    if symbol !in data then Err(ResourceNotFound(NoDataForSymbol + symbol))
    else NormalizedRangeOf(data[symbol])
  }

  // Statistics.

  /**
   * getCryptoStats: the oldest and newest prices are those of the first
   * observation with the least and the greatest timestamp, the minimum and
   * maximum those of the first cheapest and first dearest observation. An
   * empty series fails at the first bare orElseThrow().
   */
  function GetCryptoStats(s: seq<Crypto>): (r: Result<CryptoStats>)
    ensures r.Err? <==> s == []
    ensures r.Err? ==> r.error == NoSuchElement
    ensures r.Ok? ==> exists k :: IsFirstLeast(s, k, TimeAtMost) && r.value.oldestPrice == s[k].price
    ensures r.Ok? ==> exists k :: IsFirstGreatest(s, k, TimeAtMost) && r.value.newestPrice == s[k].price
    ensures r.Ok? ==> exists k :: IsFirstLeast(s, k, PriceAtMost) && r.value.minPrice == s[k].price
    ensures r.Ok? ==> exists k :: IsFirstGreatest(s, k, PriceAtMost) && r.value.maxPrice == s[k].price
  {
    if s == [] then Err(NoSuchElement)
    else
      TimeOrder();
      var oldest, newest := MinBy(s, TimeAtMost), MaxBy(s, TimeAtMost);
      var min, max := CheapestIndex(s), DearestIndex(s);
      Ok(CryptoStats(s[oldest].price, s[newest].price, s[min].price, s[max].price))
  }

  /** The statistics bound every price of the series: min <= price <= max. */
  lemma StatsBound(s: seq<Crypto>)
    requires GetCryptoStats(s).Ok?
    ensures var st := GetCryptoStats(s).value;
      forall c :: c in s ==> Le(st.minPrice, c.price) && Le(c.price, st.maxPrice)
  {
    var st := GetCryptoStats(s).value;
    var lo :| IsFirstLeast(s, lo, PriceAtMost) && st.minPrice == s[lo].price;
    var hi :| IsFirstGreatest(s, hi, PriceAtMost) && st.maxPrice == s[hi].price;
    forall c | c in s ensures Le(st.minPrice, c.price) && Le(c.price, st.maxPrice) {
      var j :| 0 <= j < |s| && s[j] == c;
      assert PriceAtMost(s[lo], s[j]) && PriceAtMost(s[j], s[hi]);
    }
  }

  ghost predicate DistinctTimes(s: seq<Crypto>) {
    forall i, j :: 0 <= i < j < |s| ==> s[i].timestamp != s[j].timestamp
  }

  /**
   * When no two observations share a timestamp, the oldest and newest
   * prices do not depend on the order of the series.
   */
  lemma StatsIgnoreOrder(s: seq<Crypto>, t: seq<Crypto>)
    requires multiset(s) == multiset(t) && DistinctTimes(s) && s != []
    ensures GetCryptoStats(t).Ok?
    ensures GetCryptoStats(s).value.oldestPrice == GetCryptoStats(t).value.oldestPrice
    ensures GetCryptoStats(s).value.newestPrice == GetCryptoStats(t).value.newestPrice
  {
    assert |t| == |multiset(t)| == |multiset(s)| == |s|;
    var a, b := GetCryptoStats(s).value, GetCryptoStats(t).value;
    var so :| IsFirstLeast(s, so, TimeAtMost) && a.oldestPrice == s[so].price;
    var to :| IsFirstLeast(t, to, TimeAtMost) && b.oldestPrice == t[to].price;
    LeastAgree(s, t, so, to, TimeAtMost);
    SameTimeSameObservation(s, t, so, to);
    var sn :| IsFirstGreatest(s, sn, TimeAtMost) && a.newestPrice == s[sn].price;
    var tn :| IsFirstGreatest(t, tn, TimeAtMost) && b.newestPrice == t[tn].price;
    GreatestAgree(s, t, sn, tn, TimeAtMost);
    SameTimeSameObservation(s, t, sn, tn);
  }

  /** Whatever the order of the series, the minimum and maximum prices are numerically the same. */
  lemma ExtremePricesIgnoreOrder(s: seq<Crypto>, t: seq<Crypto>)
    requires multiset(s) == multiset(t) && s != []
    ensures GetCryptoStats(t).Ok?
    ensures SameValue(GetCryptoStats(s).value.minPrice, GetCryptoStats(t).value.minPrice)
    ensures SameValue(GetCryptoStats(s).value.maxPrice, GetCryptoStats(t).value.maxPrice)
  {
    assert |t| == |multiset(t)| == |multiset(s)| == |s|;
    var a, b := GetCryptoStats(s).value, GetCryptoStats(t).value;
    var sl :| IsFirstLeast(s, sl, PriceAtMost) && a.minPrice == s[sl].price;
    var tl :| IsFirstLeast(t, tl, PriceAtMost) && b.minPrice == t[tl].price;
    LeastAgree(s, t, sl, tl, PriceAtMost);
    var sh :| IsFirstGreatest(s, sh, PriceAtMost) && a.maxPrice == s[sh].price;
    var th :| IsFirstGreatest(t, th, PriceAtMost) && b.maxPrice == t[th].price;
    GreatestAgree(s, t, sh, th, PriceAtMost);
  }

  /** The least elements of a sequence and of a rearrangement of it are each at most the other. */
  lemma LeastAgree<T>(s: seq<T>, t: seq<T>, i: int, j: int, le: (T, T) -> bool)
    requires multiset(s) == multiset(t)
    requires IsFirstLeast(s, i, le) && IsFirstLeast(t, j, le)
    ensures le(s[i], t[j]) && le(t[j], s[i])
  {
    PermutedIndex(s, t, i);
    PermutedIndex(t, s, j);
  }

  /** The greatest elements of a sequence and of a rearrangement of it are each at most the other. */
  lemma GreatestAgree<T>(s: seq<T>, t: seq<T>, i: int, j: int, le: (T, T) -> bool)
    requires multiset(s) == multiset(t)
    requires IsFirstGreatest(s, i, le) && IsFirstGreatest(t, j, le)
    ensures le(s[i], t[j]) && le(t[j], s[i])
  {
    PermutedIndex(s, t, i);
    PermutedIndex(t, s, j);
  }

  lemma PermutedIndex<T>(s: seq<T>, t: seq<T>, i: int)
    requires multiset(s) == multiset(t) && 0 <= i < |s|
    ensures exists j :: 0 <= j < |t| && t[j] == s[i]
  {
    assert s[i] in multiset(s);
    assert s[i] in t;
  }

  /** In a rearrangement of a series with distinct timestamps, equal timestamps mean the same observation. */
  lemma SameTimeSameObservation(s: seq<Crypto>, t: seq<Crypto>, i: int, j: int)
    requires multiset(s) == multiset(t) && DistinctTimes(s)
    requires 0 <= i < |s| && 0 <= j < |t| && s[i].timestamp == t[j].timestamp
    ensures s[i] == t[j]
  {
    PermutedIndex(t, s, j);
    var i' :| 0 <= i' < |s| && s[i'] == t[j];
  }

  /** getCryptoStatsForSymbol: a symbol without data is not found. */
  function GetCryptoStatsForSymbol(data: Dataset, symbol: string): (r: Result<CryptoStats>)
    ensures symbol !in data ==> r == Err(ResourceNotFound(NoDataForSymbol + symbol))
    ensures symbol in data ==> r == GetCryptoStats(data[symbol])
  {
    if symbol !in data then Err(ResourceNotFound(NoDataForSymbol + symbol))
    else GetCryptoStats(data[symbol])
  }

  /** The UTC date of an observation lies in the range, both ends included. */
  predicate InWindow(c: Crypto, range: DateRange) {
    range.start <= DayOf(c.timestamp) <= range.end
  }

  /** The observations of a series inside a date range, in series order. */
  function ObservationsIn(s: seq<Crypto>, range: DateRange): (r: seq<Crypto>)
    ensures forall c :: multiset(r)[c] == if InWindow(c, range) then multiset(s)[c] else 0
    ensures forall c :: c in r <==> c in s && InWindow(c, range)
  {
    Filter(s, (c: Crypto) => InWindow(c, range))
  }

  /**
   * getCryptoStatsForSymbolAndDateRange: the statistics of exactly the
   * observations dated within the range; not found when the symbol has no
   * data, or has none within the range.
   */
  function GetCryptoStatsForSymbolAndDateRange(data: Dataset, symbol: string, range: DateRange): (r: Result<CryptoStats>)
    ensures symbol !in data ==> r == Err(ResourceNotFound(NoDataForSymbol + symbol))
    ensures symbol in data ==>
      (r == Err(ResourceNotFound(NoDataForSymbol + symbol + InTimeRange)) <==> forall c :: c in data[symbol] ==> !InWindow(c, range))
    ensures symbol in data ==> r.Ok? || r == Err(ResourceNotFound(NoDataForSymbol + symbol + InTimeRange))
    ensures r.Ok? ==> r == GetCryptoStats(ObservationsIn(data[symbol], range))
  {
    if symbol !in data then Err(ResourceNotFound(NoDataForSymbol + symbol))
    else
      var within := ObservationsIn(data[symbol], range);
      if within == [] then Err(ResourceNotFound(NoDataForSymbol + symbol + InTimeRange))
      else
        assert within[0] in within;
        GetCryptoStats(within)
  }

  /** Windowed statistics bound exactly the prices dated within the window. */
  lemma WindowStatsBound(data: Dataset, symbol: string, range: DateRange)
    requires GetCryptoStatsForSymbolAndDateRange(data, symbol, range).Ok?
    ensures var st := GetCryptoStatsForSymbolAndDateRange(data, symbol, range).value;
      forall c :: c in data[symbol] && InWindow(c, range) ==> Le(st.minPrice, c.price) && Le(c.price, st.maxPrice)
  {
    StatsBound(ObservationsIn(data[symbol], range));
  }

  // Per-date views.

  /** filterCryptosByDate: the observations whose UTC date is the given day, in series order. */
  function FilterCryptosByDate(s: seq<Crypto>, day: Day): (r: seq<Crypto>)
    ensures forall c :: multiset(r)[c] == if DayOf(c.timestamp) == day then multiset(s)[c] else 0
    ensures forall c :: c in r <==> c in s && DayOf(c.timestamp) == day
  {
    Filter(s, (c: Crypto) => DayOf(c.timestamp) == day)
  }

  /** A day's observations are those of the one-day window [day, day]. */
  lemma DayIsOneDayWindow(s: seq<Crypto>, day: Day)
    ensures FilterCryptosByDate(s, day) == ObservationsIn(s, Period(day, day))
  {
    FilterSame(s, (c: Crypto) => DayOf(c.timestamp) == day, (c: Crypto) => InWindow(c, Period(day, day)));
  }

  /** getAllCryptoInfoForDate: every symbol, mapped to its observations on the day (possibly none). */
  function AllCryptoInfoForDate(data: Dataset, day: Day): (r: Dataset)
    ensures r.Keys == data.Keys
    ensures forall k :: k in r ==> forall c :: c in r[k] <==> c in data[k] && DayOf(c.timestamp) == day
  {
    map k | k in data :: FilterCryptosByDate(data[k], day)
  }

  // Ranking and highest range for a date.

  /** The keys of a dataset, each once: the order of the map's keySet(). */
  ghost predicate IsKeyOrder(order: seq<string>, data: Dataset) {
    Distinct(order) && forall k :: k in order <==> k in data
  }

  /** new CryptoNormalizedRange(symbol, getNormalizedRangeForSymbol(symbol)). */
  function EntryFor(data: Dataset, symbol: string): (r: Result<NormalizedRange>)
    ensures r.Ok? <==> GetNormalizedRangeForSymbol(data, symbol).Ok?
    ensures r.Ok? ==> r.value == NormalizedRange(symbol, GetNormalizedRangeForSymbol(data, symbol).value)
    ensures r.Err? ==> r.error == GetNormalizedRangeForSymbol(data, symbol).error
  {
    var v :- GetNormalizedRangeForSymbol(data, symbol);
    Ok(NormalizedRange(symbol, v))
  }

  /** A list of keys each given once has as many entries as the dataset. */
  lemma {:induction false} KeyOrderSize(order: seq<string>, keys: set<string>)
    requires Distinct(order) && forall k :: k in order <==> k in keys
    ensures |order| == |keys|
  {
    if order != [] {
      var rest := keys - {order[0]};
      forall k ensures k in order[1..] <==> k in rest {
        if k in order[1..] {
          var j :| 1 <= j < |order| && order[j] == k;
        }
        if k in rest {
          var j :| 0 <= j < |order| && order[j] == k;
        }
      }
      KeyOrderSize(order[1..], rest);
    }
  }

  /**
   * A ranking of a dataset: one entry per symbol, holding that symbol's
   * normalized range, by descending range.
   */
  ghost predicate IsRanking(ranks: seq<NormalizedRange>, data: Dataset) {
    && |ranks| == |data|
    && (forall e :: e in ranks ==> e.symbol in data && NormalizedRangeOf(data[e.symbol]) == Ok(e.range))
    && (forall k :: k in data ==> exists i :: 0 <= i < |ranks| && ranks[i].symbol == k)
    && (forall i, j :: 0 <= i < j < |ranks| ==> ranks[i].symbol != ranks[j].symbol)
    && (forall i, j :: 0 <= i < j < |ranks| ==> Le(ranks[j].range, ranks[i].range))
  }

  /**
   * getSortedByNormalizedRangedForAllCryptos: the ranking of the dataset.
   * It fails when any symbol's range fails; with several failing, the first
   * in map order is reported.
   */
  function Ranking(data: Dataset, order: seq<string>): (r: Result<seq<NormalizedRange>>)
    requires IsKeyOrder(order, data)
    ensures r.Ok? <==> forall k :: k in data ==> NormalizedRangeOf(data[k]).Ok?
    ensures r.Err? ==> exists k :: k in data && NormalizedRangeOf(data[k]) == Err(r.error)
    ensures r.Ok? ==> IsRanking(r.value, data)
  {
    EntriesResult(data, order);
    var entries :- MapAll(order, k => EntryFor(data, k));
    RangeOrders();
    var sorted := Sorted(entries, RangeAtLeast);
    SortedEntriesRank(data, order, entries, sorted);
    Ok(sorted)
  }

  /** Mapping the keys to entries succeeds when every symbol's range does, and fails with one of their errors. */
  lemma EntriesResult(data: Dataset, order: seq<string>)
    requires IsKeyOrder(order, data)
    ensures MapAll(order, k => EntryFor(data, k)).Ok? <==> forall k :: k in data ==> NormalizedRangeOf(data[k]).Ok?
    ensures MapAll(order, k => EntryFor(data, k)).Err? ==>
      exists k :: k in data && NormalizedRangeOf(data[k]) == Err(MapAll(order, k => EntryFor(data, k)).error)
  {
    var m := MapAll(order, k => EntryFor(data, k));
    if m.Ok? {
      forall k | k in data ensures NormalizedRangeOf(data[k]).Ok? {
        var i :| 0 <= i < |order| && order[i] == k;
        assert EntryFor(data, order[i]).Ok?;
      }
    } else {
      var i :| 0 <= i < |order| && EntryFor(data, order[i]) == Err(m.error);
      assert order[i] in data;
    }
  }

  /** Sorting the entries of every key by descending range gives a ranking. */
  lemma SortedEntriesRank(data: Dataset, order: seq<string>, entries: seq<NormalizedRange>, sorted: seq<NormalizedRange>)
    requires IsKeyOrder(order, data)
    requires MapAll(order, k => EntryFor(data, k)) == Ok(entries)
    requires multiset(sorted) == multiset(entries) && SortedBy(sorted, RangeAtLeast)
    ensures IsRanking(sorted, data)
  {
    KeyOrderSize(order, data.Keys);
    EntriesBySymbol(data, order, entries);
    RankedSymbols(entries, sorted);
    assert |sorted| == |multiset(sorted)| == |multiset(entries)| == |entries|;
    forall k | k in data ensures exists i :: 0 <= i < |sorted| && sorted[i].symbol == k {
      var p :| 0 <= p < |order| && order[p] == k;
      assert entries[p] in entries;
      var i :| 0 <= i < |sorted| && sorted[i] == entries[p];
    }
    forall i, j | 0 <= i < j < |sorted| ensures Le(sorted[j].range, sorted[i].range) {
      assert RangeAtLeast(sorted[i], sorted[j]);
    }
  }

  /** The entries mapped from a key order carry those keys, in that order. */
  lemma EntriesBySymbol(data: Dataset, order: seq<string>, entries: seq<NormalizedRange>)
    requires IsKeyOrder(order, data)
    requires MapAll(order, k => EntryFor(data, k)) == Ok(entries)
    ensures |entries| == |order|
    ensures forall i :: 0 <= i < |entries| ==> entries[i].symbol == order[i]
    ensures forall e :: e in entries ==> e.symbol in data && NormalizedRangeOf(data[e.symbol]) == Ok(e.range)
    ensures forall i, j :: 0 <= i < j < |entries| ==> entries[i].symbol != entries[j].symbol
  {
    assert |entries| == |order|;
    forall i | 0 <= i < |entries| ensures entries[i].symbol == order[i] {
      assert EntryFor(data, order[i]) == Ok(entries[i]);
    }
    forall e | e in entries ensures e.symbol in data && NormalizedRangeOf(data[e.symbol]) == Ok(e.range) {
      var i :| 0 <= i < |entries| && entries[i] == e;
      assert EntryFor(data, order[i]) == Ok(e);
    }
    forall i, j | 0 <= i < j < |entries| ensures entries[i].symbol != entries[j].symbol {
      assert order[i] != order[j];
    }
  }

  /** A rearrangement keeps the symbols present and, when they were distinct, distinct. */
  lemma RankedSymbols(entries: seq<NormalizedRange>, sorted: seq<NormalizedRange>)
    requires multiset(entries) == multiset(sorted)
    requires forall i, j :: 0 <= i < j < |entries| ==> entries[i].symbol != entries[j].symbol
    ensures forall e :: e in sorted <==> e in entries
    ensures forall i, j :: 0 <= i < j < |sorted| ==> sorted[i].symbol != sorted[j].symbol
  {
    forall e ensures e in sorted <==> e in entries {
      assert e in sorted <==> e in multiset(sorted);
      assert e in entries <==> e in multiset(entries);
    }
    assert Distinct(entries);
    DistinctPermutation(entries, sorted);
    forall i, j | 0 <= i < j < |sorted| ensures sorted[i].symbol != sorted[j].symbol {
      assert sorted[i] in sorted && sorted[j] in sorted;
      var p :| 0 <= p < |entries| && entries[p] == sorted[i];
      var q :| 0 <= q < |entries| && entries[q] == sorted[j];
      assert p != q;
    }
  }

  /** A symbol has data on a day when its observations on that day are not empty. */
  predicate HasDataOn(data: Dataset, symbol: string, day: Day) {
    symbol in data && FilterCryptosByDate(data[symbol], day) != []
  }

  /** Having data on a day is having at least one observation dated that day. */
  lemma HasDataOnMeaning(data: Dataset, symbol: string, day: Day)
    ensures HasDataOn(data, symbol, day) <==> symbol in data && exists c :: c in data[symbol] && DayOf(c.timestamp) == day
  {
    if symbol in data {
      var r := FilterCryptosByDate(data[symbol], day);
      if r != [] {
        assert r[0] in r;
      }
    }
  }

  /** The symbols, in map order, whose observations on the day are not empty (lines 93-94). */
  function Candidates(data: Dataset, order: seq<string>, day: Day): (r: seq<string>)
    requires IsKeyOrder(order, data)
    ensures forall k :: k in r <==> HasDataOn(data, k, day)
  {
    var info := AllCryptoInfoForDate(data, day);
    Filter(order, (k: string) => k in info && info[k] != [])
  }

  /**
   * getCryptoHighestNormalizedRangeForDate: among the symbols with data on
   * the day, the one whose normalized range, taken over its whole series
   * and not only that day, is greatest (the first in map order on a tie).
   * No candidate is a not-found error naming the day; a candidate whose
   * range fails makes the query fail.
   */
  function HighestNormalizedRangeForDate(data: Dataset, order: seq<string>, day: Day): (r: Result<NormalizedRange>)
    requires IsKeyOrder(order, data)
    ensures r == Err(NoCryptoForDate(day)) <==> forall k :: !HasDataOn(data, k, day)
    ensures r.Ok? <==> (exists k :: HasDataOn(data, k, day)) && forall k :: HasDataOn(data, k, day) ==> NormalizedRangeOf(data[k]).Ok?
    ensures r.Err? && r != Err(NoCryptoForDate(day)) ==> exists k :: HasDataOn(data, k, day) && NormalizedRangeOf(data[k]) == Err(r.error)
    ensures r.Ok? ==> HasDataOn(data, r.value.symbol, day) && NormalizedRangeOf(data[r.value.symbol]) == Ok(r.value.range)
    ensures r.Ok? ==> forall k :: HasDataOn(data, k, day) ==> Le(NormalizedRangeOf(data[k]).value, r.value.range)
  {
    var candidates := Candidates(data, order, day);
    CandidateEntries(data, order, day);
    var entries :- MapAll(candidates, k => EntryFor(data, k));
    if entries == [] then Err(NoCryptoForDate(day))
    else
      RangeOrders();
      var top := MaxBy(entries, RangeAtMost);
      HighestEntry(data, order, day, entries, top);
      Ok(entries[top])
  }

  /** Mapping the candidates to entries: the results and errors of their ranges, one entry per candidate. */
  lemma CandidateEntries(data: Dataset, order: seq<string>, day: Day)
    requires IsKeyOrder(order, data)
    ensures var m := MapAll(Candidates(data, order, day), k => EntryFor(data, k));
      && (m.Ok? <==> forall k :: HasDataOn(data, k, day) ==> NormalizedRangeOf(data[k]).Ok?)
      && (m.Err? ==> m.error != NoCryptoForDate(day) && exists k :: HasDataOn(data, k, day) && NormalizedRangeOf(data[k]) == Err(m.error))
      && (m.Ok? ==> (m.value == [] <==> forall k :: !HasDataOn(data, k, day)))
  {
    var cand := Candidates(data, order, day);
    var m := MapAll(cand, k => EntryFor(data, k));
    if m.Ok? {
      forall k | HasDataOn(data, k, day) ensures NormalizedRangeOf(data[k]).Ok? {
        var i :| 0 <= i < |cand| && cand[i] == k;
        assert EntryFor(data, cand[i]).Ok?;
      }
      if m.value == [] {
        forall k ensures !HasDataOn(data, k, day) {
          assert k !in cand;
        }
      } else {
        assert cand[0] in cand;
      }
    } else {
      var i :| 0 <= i < |cand| && EntryFor(data, cand[i]) == Err(m.error);
      var k := cand[i];
      assert k in cand;
      var c := FilterCryptosByDate(data[k], day)[0];
      assert c in FilterCryptosByDate(data[k], day);
    }
  }

  /** The greatest entry among the candidates is the answer the contract describes. */
  lemma HighestEntry(data: Dataset, order: seq<string>, day: Day, entries: seq<NormalizedRange>, top: int)
    requires IsKeyOrder(order, data)
    requires MapAll(Candidates(data, order, day), k => EntryFor(data, k)) == Ok(entries)
    requires IsFirstGreatest(entries, top, RangeAtMost)
    ensures HasDataOn(data, entries[top].symbol, day)
    ensures NormalizedRangeOf(data[entries[top].symbol]) == Ok(entries[top].range)
    ensures forall k :: HasDataOn(data, k, day) ==> NormalizedRangeOf(data[k]).Ok? && Le(NormalizedRangeOf(data[k]).value, entries[top].range)
  {
    var cand := Candidates(data, order, day);
    CandidateEntries(data, order, day);
    assert EntryFor(data, cand[top]) == Ok(entries[top]);
    assert cand[top] in cand;
    forall k | HasDataOn(data, k, day) ensures Le(NormalizedRangeOf(data[k]).value, entries[top].range) {
      var i :| 0 <= i < |cand| && cand[i] == k;
      assert EntryFor(data, cand[i]) == Ok(entries[i]);
      assert RangeAtMost(entries[i], entries[top]);
    }
  }
}
