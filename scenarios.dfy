/**
 * The data of the service's unit tests: three BTC and three ETH
 * observations on 2022-01-01, and what the queries answer over them.
 */
module Scenarios {
  import opened Results
  import opened Decimals
  import opened Streams
  import opened Dates
  import opened CsvLoader
  import opened Recommendation

  const Btc: seq<Crypto> := [
    Crypto("BTC", 1641013200000, Decimal(3682319, 2)),
    Crypto("BTC", 1641016200000, Decimal(3816169, 2)),
    Crypto("BTC", 1641017200000, Decimal(3520117, 2))]

  const Eth: seq<Crypto> := [
    Crypto("ETH", 1641013200000, Decimal(3985649, 2)),
    Crypto("ETH", 1641016200000, Decimal(4563634, 2)),
    Crypto("ETH", 1641017200000, Decimal(3485767, 2))]

  const TestData: Dataset := map["BTC" := Btc, "ETH" := Eth]

  /** Prices of one scale compare as their unscaled values. */
  lemma PricesByUnscaled(s: seq<Crypto>, scale: nat)
    requires forall c :: c in s ==> c.price.scale == scale
    ensures forall x, y :: x in s && y in s ==> (PriceAtMost(x, y) <==> x.price.unscaled <= y.price.unscaled)
  {
    forall x, y | x in s && y in s ensures PriceAtMost(x, y) <==> x.price.unscaled <= y.price.unscaled {
      SameScaleLe(x.price, y.price);
    }
  }

  /** BTC is cheapest last (35201.17) and dearest second (38161.69); its first and last observations are the oldest and newest. */
  lemma BtcExtremes()
    ensures IsFirstLeast(Btc, 2, PriceAtMost) && IsFirstGreatest(Btc, 1, PriceAtMost)
    ensures IsFirstLeast(Btc, 0, TimeAtMost) && IsFirstGreatest(Btc, 2, TimeAtMost)
  {
    PricesByUnscaled(Btc, 2);
    assert Btc[0] in Btc && Btc[1] in Btc && Btc[2] in Btc;
  }

  /** ETH is cheapest last (34857.67) and dearest second (45636.34). */
  lemma EthExtremes()
    ensures IsFirstLeast(Eth, 2, PriceAtMost) && IsFirstGreatest(Eth, 1, PriceAtMost)
  {
    PricesByUnscaled(Eth, 2);
    assert Eth[0] in Eth && Eth[1] in Eth && Eth[2] in Eth;
  }

  /** The normalized range of a series is the quotient of its extreme prices at the positions given. */
  lemma RangeAt(s: seq<Crypto>, lo: int, hi: int, q: Decimal)
    requires IsFirstLeast(s, lo, PriceAtMost) && IsFirstGreatest(s, hi, PriceAtMost)
    requires DivideHalfUp(Sub(s[hi].price, s[lo].price), s[lo].price) == Quotient(q)
    ensures NormalizedRangeOf(s) == Ok(q)
  {
    FirstLeastUnique(s, CheapestIndex(s), lo, PriceAtMost);
    FirstGreatestUnique(s, DearestIndex(s), hi, PriceAtMost);
  }

  /** (38161.69 - 35201.17) / 35201.17 = 0.0841..., which is 0.08 at scale 2. */
  lemma BtcQuotient()
    ensures DivideHalfUp(Sub(Decimal(3816169, 2), Decimal(3520117, 2)), Decimal(3520117, 2)) == Quotient(Decimal(8, 2))
  {
    assert Sub(Decimal(3816169, 2), Decimal(3520117, 2)) == Decimal(296052, 2);
    assert RoundHalfUpNat(29605200, 3520117) == 8;
  }

  /** (45636.34 - 34857.67) / 34857.67 = 0.3092..., which is 0.31 at scale 2. */
  lemma EthQuotient()
    ensures DivideHalfUp(Sub(Decimal(4563634, 2), Decimal(3485767, 2)), Decimal(3485767, 2)) == Quotient(Decimal(31, 2))
  {
    assert Sub(Decimal(4563634, 2), Decimal(3485767, 2)) == Decimal(1077867, 2);
    assert RoundHalfUpNat(107786700, 3485767) == 31;
  }

  /** BTC's prices span 35201.17 to 38161.69: a normalized range of 0.08. */
  lemma BtcRange()
    ensures NormalizedRangeOf(Btc) == Ok(Decimal(8, 2))
  {
    BtcExtremes();
    BtcQuotient();
    RangeAt(Btc, 2, 1, Decimal(8, 2));
  }

  /** ETH's prices span 34857.67 to 45636.34: a normalized range of 0.31. */
  lemma EthRange()
    ensures NormalizedRangeOf(Eth) == Ok(Decimal(31, 2))
  {
    EthExtremes();
    EthQuotient();
    RangeAt(Eth, 2, 1, Decimal(31, 2));
  }

  /** An unknown symbol is not found, by every per-symbol query. */
  lemma UnknownSymbol(range: DateRange)
    ensures GetNormalizedRangeForSymbol(TestData, "DOGE") == Err(ResourceNotFound("No data found for symbol: DOGE"))
    ensures GetCryptoStatsForSymbol(TestData, "DOGE") == Err(ResourceNotFound("No data found for symbol: DOGE"))
    ensures GetCryptoStatsForSymbolAndDateRange(TestData, "DOGE", range) == Err(ResourceNotFound("No data found for symbol: DOGE"))
  {
    assert "DOGE" != "BTC" && "DOGE" != "ETH";
    assert "DOGE" !in TestData;
    assert NoDataForSymbol + "DOGE" == "No data found for symbol: DOGE";
  }

  /** The statistics are the prices at the four extreme positions. */
  lemma StatsAt(s: seq<Crypto>, o: int, n: int, lo: int, hi: int)
    requires IsFirstLeast(s, o, TimeAtMost) && IsFirstGreatest(s, n, TimeAtMost)
    requires IsFirstLeast(s, lo, PriceAtMost) && IsFirstGreatest(s, hi, PriceAtMost)
    ensures GetCryptoStats(s) == Ok(CryptoStats(s[o].price, s[n].price, s[lo].price, s[hi].price))
  {
    var st := GetCryptoStats(s).value;
    var o' :| IsFirstLeast(s, o', TimeAtMost) && st.oldestPrice == s[o'].price;
    FirstLeastUnique(s, o, o', TimeAtMost);
    var n' :| IsFirstGreatest(s, n', TimeAtMost) && st.newestPrice == s[n'].price;
    FirstGreatestUnique(s, n, n', TimeAtMost);
    var lo' :| IsFirstLeast(s, lo', PriceAtMost) && st.minPrice == s[lo'].price;
    FirstLeastUnique(s, lo, lo', PriceAtMost);
    var hi' :| IsFirstGreatest(s, hi', PriceAtMost) && st.maxPrice == s[hi'].price;
    FirstGreatestUnique(s, hi, hi', PriceAtMost);
  }

  /** BTC: oldest 36823.19, newest 35201.17, minimum 35201.17, maximum 38161.69. */
  lemma BtcStats()
    ensures GetCryptoStatsForSymbol(TestData, "BTC")
      == Ok(CryptoStats(Decimal(3682319, 2), Decimal(3520117, 2), Decimal(3520117, 2), Decimal(3816169, 2)))
  {
    BtcExtremes();
    StatsAt(Btc, 0, 2, 2, 1);
    assert TestData["BTC"] == Btc;
  }

  /** A ranking of two symbols with ranges ra > rb lists a first. */
  lemma RanksOfTwo(ranks: seq<NormalizedRange>, data: Dataset, a: string, b: string, ra: Decimal, rb: Decimal)
    requires IsRanking(ranks, data) && data.Keys == {a, b} && a != b
    requires NormalizedRangeOf(data[a]) == Ok(ra) && NormalizedRangeOf(data[b]) == Ok(rb) && Lt(rb, ra)
    ensures ranks == [NormalizedRange(a, ra), NormalizedRange(b, rb)]
  {
    TwoKeys(data, a, b);
    assert a in data && b in data;
    var i :| 0 <= i < |ranks| && ranks[i].symbol == a;
    var j :| 0 <= j < |ranks| && ranks[j].symbol == b;
    assert ranks[i] in ranks && ranks[j] in ranks;
    assert ranks[i] == NormalizedRange(a, ra) && ranks[j] == NormalizedRange(b, rb);
    assert Le(ranks[1].range, ranks[0].range);
  }

  /** A map with exactly two distinct keys has two entries. */
  lemma TwoKeys<V>(m: map<string, V>, a: string, b: string)
    requires m.Keys == {a, b} && a != b
    ensures |m| == 2
  {
    assert |m.Keys| == |{a, b}|;
  }

  /** Two symbols with ranges ra > rb are ranked a first, whatever the map's order. */
  lemma RankingOfTwo(data: Dataset, order: seq<string>, a: string, b: string, ra: Decimal, rb: Decimal)
    requires IsKeyOrder(order, data) && data.Keys == {a, b} && a != b
    requires NormalizedRangeOf(data[a]) == Ok(ra) && NormalizedRangeOf(data[b]) == Ok(rb) && Lt(rb, ra)
    ensures Ranking(data, order) == Ok([NormalizedRange(a, ra), NormalizedRange(b, rb)])
  {
    forall k | k in data ensures NormalizedRangeOf(data[k]).Ok? {
      assert k == a || k == b;
    }
    var r := Ranking(data, order);
    RanksOfTwo(r.value, data, a, b, ra, rb);
  }

  /** Whatever the map's order, ETH (0.31) is ranked before BTC (0.08). */
  lemma TestRanking(order: seq<string>)
    requires IsKeyOrder(order, TestData)
    ensures Ranking(TestData, order) == Ok([NormalizedRange("ETH", Decimal(31, 2)), NormalizedRange("BTC", Decimal(8, 2))])
  {
    BtcRange();
    EthRange();
    assert TestData.Keys == {"ETH", "BTC"};
    RankingOfTwo(TestData, order, "ETH", "BTC", Decimal(31, 2), Decimal(8, 2));
  }

  /** Of two symbols both with data on a day, the one with the strictly larger range is the highest. */
  lemma HighestOfTwo(data: Dataset, order: seq<string>, day: Day, a: string, b: string, ra: Decimal, rb: Decimal)
    requires IsKeyOrder(order, data) && data.Keys == {a, b}
    requires HasDataOn(data, a, day) && HasDataOn(data, b, day)
    requires NormalizedRangeOf(data[a]) == Ok(ra) && NormalizedRangeOf(data[b]) == Ok(rb) && Lt(rb, ra)
    ensures HighestNormalizedRangeForDate(data, order, day) == Ok(NormalizedRange(a, ra))
  {
    HighestOfTwoOk(data, order, day, a, b);
    var e := HighestNormalizedRangeForDate(data, order, day).value;
    assert e.symbol in data && NormalizedRangeOf(data[e.symbol]) == Ok(e.range);
    assert Le(ra, e.range);
    GreatestOfTwo(data, a, b, ra, rb, e);
  }

  /** With both ranges defined and one symbol traded on the day, the query succeeds. */
  lemma HighestOfTwoOk(data: Dataset, order: seq<string>, day: Day, a: string, b: string)
    requires IsKeyOrder(order, data) && data.Keys == {a, b} && HasDataOn(data, a, day)
    requires NormalizedRangeOf(data[a]).Ok? && NormalizedRangeOf(data[b]).Ok?
    ensures HighestNormalizedRangeForDate(data, order, day).Ok?
  {
    forall k | k in data ensures NormalizedRangeOf(data[k]).Ok? {
      assert k == a || k == b;
    }
    HighestOk(data, order, day, a);
  }

  /** With every range defined and some symbol traded on the day, the query succeeds. */
  lemma HighestOk(data: Dataset, order: seq<string>, day: Day, a: string)
    requires IsKeyOrder(order, data) && HasDataOn(data, a, day)
    requires forall k :: k in data ==> NormalizedRangeOf(data[k]).Ok?
    ensures HighestNormalizedRangeForDate(data, order, day).Ok?
  {
    assert forall k :: HasDataOn(data, k, day) ==> NormalizedRangeOf(data[k]).Ok?;
  }

  /** An entry of one of two symbols, at least the larger of their ranges, is that symbol's. */
  lemma GreatestOfTwo(data: Dataset, a: string, b: string, ra: Decimal, rb: Decimal, e: NormalizedRange)
    requires data.Keys == {a, b}
    requires NormalizedRangeOf(data[a]) == Ok(ra) && NormalizedRangeOf(data[b]) == Ok(rb) && Lt(rb, ra)
    requires e.symbol in data && NormalizedRangeOf(data[e.symbol]) == Ok(e.range) && Le(ra, e.range)
    ensures e == NormalizedRange(a, ra)
  {
    assert e.symbol == a || e.symbol == b;
  }

  /** Both symbols have observations on 2022-01-01. */
  lemma BothTradedOnFirstDay(day: Day)
    requires day == EpochDay(2022, 1, 1)
    ensures HasDataOn(TestData, "BTC", day) && HasDataOn(TestData, "ETH", day)
  {
    EpochDayAnchors();
    assert DayOf(Btc[0].timestamp) == day && DayOf(Eth[0].timestamp) == day;
    assert Btc[0] in TestData["BTC"] && Eth[0] in TestData["ETH"];
    HasDataOnMeaning(TestData, "BTC", day);
    HasDataOnMeaning(TestData, "ETH", day);
  }

  /** On 2022-01-01 both symbols have data, and ETH has the larger range. */
  lemma TestHighestForDate(order: seq<string>, day: Day)
    requires IsKeyOrder(order, TestData) && day == EpochDay(2022, 1, 1)
    ensures HighestNormalizedRangeForDate(TestData, order, day) == Ok(NormalizedRange("ETH", Decimal(31, 2)))
  {
    BtcRange();
    EthRange();
    assert TestData.Keys == {"ETH", "BTC"};
    assert NormalizedRangeOf(TestData["ETH"]) == Ok(Decimal(31, 2)) && NormalizedRangeOf(TestData["BTC"]) == Ok(Decimal(8, 2));
    assert Lt(Decimal(8, 2), Decimal(31, 2));
    BothTradedOnFirstDay(day);
    HighestOfTwo(TestData, order, day, "ETH", "BTC", Decimal(31, 2), Decimal(8, 2));
  }

  /** An instant within a day's bounds falls on that day. */
  lemma DayOfWithin(millis: int, d: int)
    requires d * MillisPerDay <= millis < (d + 1) * MillisPerDay
    ensures DayOf(millis) == d
  {
    var e := DayOf(millis);
    if e < d {
      MulMonotone(e + 1, d, MillisPerDay);
    } else if e > d {
      MulMonotone(d + 1, e, MillisPerDay);
    }
  }

  /** Every observation of the test data is dated 2022-01-01 (day 18993). */
  lemma TestDataOnFirstDay()
    ensures forall k, c :: k in TestData && c in TestData[k] ==> DayOf(c.timestamp) == 18993
  {
    forall k, c | k in TestData && c in TestData[k] ensures DayOf(c.timestamp) == 18993 {
      assert c in Btc || c in Eth;
      assert 1641013200000 <= c.timestamp <= 1641017200000;
      DayOfWithin(c.timestamp, 18993);
    }
  }

  /** No symbol of the test data has observations on a later day. */
  lemma NothingAfterFirstDay(day: Day)
    requires day > 18993
    ensures forall k :: !HasDataOn(TestData, k, day)
  {
    TestDataOnFirstDay();
    forall k ensures !HasDataOn(TestData, k, day) {
      HasDataOnMeaning(TestData, k, day);
    }
  }

  /** On 2025-01-01 no symbol has data: the query fails naming the day. */
  lemma TestNoDataForDate(order: seq<string>)
    requires IsKeyOrder(order, TestData)
    ensures HighestNormalizedRangeForDate(TestData, order, EpochDay(2025, 1, 1)) == Err(NoCryptoForDate(EpochDay(2025, 1, 1)))
  {
    EpochDayAnchors();
    NothingAfterFirstDay(EpochDay(2025, 1, 1));
  }
}
