/**
 * DateUtils: parsing of yyyy-MM-dd request parameters into dates, and the
 * gate that turns an optional start and end parameter into an optional
 * DateRange.
 */
module DateUtils {
  import opened Results
  import opened Dates
  import opened Numerals

  const InvalidDateFormat: string := "Invalid date format. Please use yyyy-MM-dd."
  const RangeNeeded: string := "A valid time range needs to be provided!"

  /** The yyyy-MM-dd shape: four digits, '-', two digits, '-', two digits. */
  predicate IsDateShaped(s: string) {
    && |s| == 10
    && AllDigits(s[0..4]) && s[4] == '-' && AllDigits(s[5..7]) && s[7] == '-' && AllDigits(s[8..10])
  }

  /**
   * LocalDate.parse(s, yyyy-MM-dd) with the SMART resolver: the year of era
   * must be at least 1, the month 1 to 12 and the day of month 1 to 31; a
   * day past the end of its month is moved back to the month's last day.
   * Any other input fails with the date-format ValidationException.
   */
  function GetDateFromString(s: string): (r: Result<Day>)
    ensures r.Err? ==> r.error == Validation(InvalidDateFormat)
    ensures !IsDateShaped(s) ==> r.Err?
    ensures IsDateShaped(s) ==>
      var y, m, d := DigitsValue(s[0..4]), DigitsValue(s[5..7]), DigitsValue(s[8..10]);
      && (r.Ok? <==> 1 <= y && 1 <= m <= 12 && 1 <= d <= 31)
      && (r.Ok? ==> r.value == EpochDay(y, m, Min(d, DaysInMonth(y, m))))
  {
    if !IsDateShaped(s) then Err(Validation(InvalidDateFormat))
    else
      var y, m, d := DigitsValue(s[0..4]), DigitsValue(s[5..7]), DigitsValue(s[8..10]);
      if y < 1 || m < 1 || m > 12 || d < 1 || d > 31 then Err(Validation(InvalidDateFormat))
      else
        var dim := DaysInMonth(y, m);
        Ok(EpochDay(y, m, if d > dim then dim else d))
  }

  function Min(a: int, b: int): int {
    if a <= b then a else b
  }

  /** SMART resolution moves a day past the month's end back to its last day; month 13, day 0 and year 0 fail. */
  lemma ClampedDates()
    ensures GetDateFromString("2022-02-30") == Ok(EpochDay(2022, 2, 28))
    ensures GetDateFromString("2022-13-01") == Err(Validation(InvalidDateFormat))
    ensures GetDateFromString("2022-01-00") == Err(Validation(InvalidDateFormat))
    ensures GetDateFromString("0000-01-01") == Err(Validation(InvalidDateFormat))
  {
    February30();
    Month13();
    Day0();
    Year0();
  }

  lemma February30()
    ensures GetDateFromString("2022-02-30") == Ok(EpochDay(2022, 2, 28))
  {
    DigitsOf2022();
    assert "02"[..1] == "0" && "30"[..1] == "3" && "0"[..0] == "" && "3"[..0] == "";
    assert "2022-02-30" == "2022" + "-" + "02" + "-" + "30";
    DateFields("2022", "02", "30");
  }

  lemma Month13()
    ensures GetDateFromString("2022-13-01") == Err(Validation(InvalidDateFormat))
  {
    DigitsOf2022();
    assert "13"[..1] == "1" && "01"[..1] == "0" && "1"[..0] == "" && "0"[..0] == "";
    assert "2022-13-01" == "2022" + "-" + "13" + "-" + "01";
    DateFields("2022", "13", "01");
  }

  lemma Day0()
    ensures GetDateFromString("2022-01-00") == Err(Validation(InvalidDateFormat))
  {
    DigitsOf2022();
    assert "01"[..1] == "0" && "00"[..1] == "0" && "0"[..0] == "";
    assert "2022-01-00" == "2022" + "-" + "01" + "-" + "00";
    DateFields("2022", "01", "00");
  }

  lemma Year0()
    ensures GetDateFromString("0000-01-01") == Err(Validation(InvalidDateFormat))
  {
    assert "0000"[..3] == "000" && "000"[..2] == "00" && "00"[..1] == "0" && "0"[..0] == "";
    assert "01"[..1] == "0";
    assert "0000-01-01" == "0000" + "-" + "01" + "-" + "01";
    DateFields("0000", "01", "01");
  }

  /** LocalDate.toString for a year of four digits: yyyy-MM-dd. */
  function FormatDate(y: nat, m: nat, d: nat): string
    requires 1 <= y <= 9999 && 1 <= m <= 12 && 1 <= d <= 31
  {
    ShowNat(y, 4) + "-" + ShowNat(m, 2) + "-" + ShowNat(d, 2)
  }

  /** A valid date printed as yyyy-MM-dd parses back to that date. */
  lemma ParseFormattedDate(y: nat, m: nat, d: nat)
    requires 1 <= y <= 9999 && 1 <= m <= 12 && 1 <= d <= DaysInMonth(y, m)
    ensures GetDateFromString(FormatDate(y, m, d)) == Ok(EpochDay(y, m, d))
  {
    var ys, ms, ds := ShowNat(y, 4), ShowNat(m, 2), ShowNat(d, 2);
    ShowNatWidth(y, 4);
    ShowNatWidth(m, 2);
    ShowNatWidth(d, 2);
    ShowNatValue(y, 4);
    ShowNatValue(m, 2);
    ShowNatValue(d, 2);
    var s := FormatDate(y, m, d);
    assert s == ys + "-" + ms + "-" + ds;
    assert s[0..4] == ys && s[5..7] == ms && s[8..10] == ds;
  }

  /** A number below 10^w is printed with exactly w digits. */
  lemma {:induction false} ShowNatWidth(n: nat, w: nat)
    requires 1 <= w && n < Decimals.Pow10(w)
    ensures |ShowNat(n, w)| == w
    decreases w
  {
    if n < 10 && w <= 1 {
    } else {
      assert Decimals.Pow10(w) == 10 * Decimals.Pow10(w - 1);
      if w > 1 {
        ShowNatWidth(n / 10, w - 1);
      }
    }
  }

  /** StringUtils.isEmpty: a missing (null) or empty parameter. */
  predicate IsEmpty(s: Option<string>)
    ensures IsEmpty(s) <==> s == None || s == Some("")
  {
    s.None? || s.value == ""
  }

  /**
   * getTimeRangeFromString: no range when both parameters are empty, an
   * error when only one is, otherwise both dates parsed (start first) and a
   * DateRange built from them.
   */
  function GetTimeRangeFromString(start: Option<string>, end: Option<string>): (r: Result<Option<DateRange>>)
    ensures r == Ok(None) <==> IsEmpty(start) && IsEmpty(end)
    ensures IsEmpty(start) != IsEmpty(end) ==> r == Err(Validation(RangeNeeded))
    ensures !IsEmpty(start) && !IsEmpty(end) ==>
      match (GetDateFromString(start.value), GetDateFromString(end.value))
      case (Err(e), _) => r == Err(e)
      case (Ok(_), Err(e)) => r == Err(e)
      case (Ok(s), Ok(e)) =>
        r == if s <= e then Ok(Some(Period(s, e))) else Err(Validation(StartAfterEnd))
  {
    if IsEmpty(start) && IsEmpty(end) then Ok(None)
    else if IsEmpty(start) || IsEmpty(end) then Err(Validation(RangeNeeded))
    else
      var s :- GetDateFromString(start.value);
      var e :- GetDateFromString(end.value);
      var range :- NewDateRange(s, e);
      Ok(Some(range))
  }

  /** The rejected inputs of the request tests: an over-long year and an over-long day. */
  lemma MalformedDates()
    ensures GetDateFromString("202255-03-01") == Err(Validation(InvalidDateFormat))
    ensures GetDateFromString("2023-10-011") == Err(Validation(InvalidDateFormat))
  {
  }

  lemma DigitsOf2022()
    ensures AllDigits("2022") && DigitsValue("2022") == 2022
  {
    assert "2022"[..3] == "202" && "202"[..2] == "20" && "20"[..1] == "2" && "2"[..0] == "";
  }

  /** The dates of the request tests parse to their epoch days. */
  lemma TestDates()
    ensures GetDateFromString("2022-01-01") == Ok(EpochDay(2022, 1, 1))
    ensures GetDateFromString("2022-03-01") == Ok(EpochDay(2022, 3, 1))
  {
    NewYear2022();
    March2022();
  }

  lemma NewYear2022()
    ensures GetDateFromString("2022-01-01") == Ok(EpochDay(2022, 1, 1))
  {
    DigitsOf2022();
    assert "01"[..1] == "0" && "0"[..0] == "";
    assert "2022-01-01" == "2022" + "-" + "01" + "-" + "01";
    DateFields("2022", "01", "01");
  }

  lemma March2022()
    ensures GetDateFromString("2022-03-01") == Ok(EpochDay(2022, 3, 1))
  {
    DigitsOf2022();
    assert "03"[..1] == "0" && "01"[..1] == "0" && "0"[..0] == "";
    assert "2022-03-01" == "2022" + "-" + "03" + "-" + "01";
    DateFields("2022", "03", "01");
  }

  /** The fields of a yyyy-MM-dd string are found at their fixed positions. */
  lemma DateFields(y: string, m: string, d: string)
    requires |y| == 4 && |m| == 2 && |d| == 2
    ensures var s := y + "-" + m + "-" + d;
      |s| == 10 && s[0..4] == y && s[4] == '-' && s[5..7] == m && s[7] == '-' && s[8..10] == d
  {
  }

  /** An inverted range is rejected by the DateRange constructor; one missing end is rejected first. */
  lemma InvertedRange()
    ensures GetTimeRangeFromString(Some("2022-03-01"), Some("2022-01-01")) == Err(Validation(StartAfterEnd))
    ensures GetTimeRangeFromString(Some("2022-01-01"), Some("")) == Err(Validation(RangeNeeded))
    ensures GetTimeRangeFromString(None, Some("2022-01-01")) == Err(Validation(RangeNeeded))
  {
    TestDates();
    EpochDayAnchors();
    EpochDayMarch2022();
    StartAfterEndFails("2022-03-01", "2022-01-01", EpochDay(2022, 3, 1), EpochDay(2022, 1, 1));
  }

  lemma EpochDayMarch2022()
    ensures EpochDay(2022, 3, 1) == 19052
  {
  }

  /** Two parsed dates in the wrong order are rejected by the DateRange constructor. */
  lemma StartAfterEndFails(a: string, b: string, s: Day, e: Day)
    requires a != "" && b != ""
    requires GetDateFromString(a) == Ok(s) && GetDateFromString(b) == Ok(e) && s > e
    ensures GetTimeRangeFromString(Some(a), Some(b)) == Err(Validation(StartAfterEnd))
  {
  }
}
