/**
 * The field helpers of the extractor: trimming a row label to its last letter,
 * reading a height, and turning a birth date into a UTC-midnight timestamp and a
 * "year.month.day" string.
 */
module Fields {
  import opened Failures
  import opened Text

  // ---------------------------------------------------------------- row labels

  /** What `_standart_text_data` returns: the text cut back to its last letter. */
  function TrimToLetter(s: string): Result<string>
    decreases |s|
  {
    if s == [] then Err(IndexOutOfRange)
    else if IsAlpha(s[|s| - 1]) then Ok(s)
    else TrimToLetter(s[..|s| - 1])
  }

  /**
   * The label is the longest prefix that ends in a letter: only trailing non-letters are
   * removed, and the text fails exactly when it holds no letter at all.
   */
  lemma {:induction false} TrimToLetterMeaning(s: string)
    ensures TrimToLetter(s).Err? <==> forall j :: 0 <= j < |s| ==> !IsAlpha(s[j])
    ensures TrimToLetter(s).Err? ==> TrimToLetter(s).error == IndexOutOfRange
    ensures TrimToLetter(s).Ok? ==>
              var r := TrimToLetter(s).value;
              r != [] && |r| <= |s| && r == s[..|r|] && IsAlpha(r[|r| - 1])
              && forall j :: |r| <= j < |s| ==> !IsAlpha(s[j])
    decreases |s|
  {
    if s != [] && !IsAlpha(s[|s| - 1]) {
      var p := s[..|s| - 1];
      TrimToLetterMeaning(p);
      if TrimToLetter(p).Ok? {
        var r := TrimToLetter(p).value;
        assert r == s[..|r|];
      } else {
        assert forall j :: 0 <= j < |s| ==> !IsAlpha(s[j]) by {
          forall j | 0 <= j < |s| ensures !IsAlpha(s[j]) {
            if j < |p| { assert s[j] == p[j]; }
          }
        }
      }
    }
  }

  /** Trimming a label that was already trimmed changes nothing. */
  lemma TrimToLetterIdempotent(s: string)
    requires TrimToLetter(s).Ok?
    ensures TrimToLetter(TrimToLetter(s).value) == TrimToLetter(s)
  {
    TrimToLetterMeaning(s);
  }

  /** `_standart_text_data`: drop the last character while it is not a letter. */
  method StandartTextData(text: string) returns (r: Result<string>)
    ensures r == TrimToLetter(text)
  {
    var t := text;
    while t != [] && !IsAlpha(t[|t| - 1])
      invariant TrimToLetter(t) == TrimToLetter(text)
      decreases |t|
    {
      t := t[..|t| - 1];
    }
    if t == [] {
      return Err(IndexOutOfRange);
    }
    return Ok(t);
  }

  // ---------------------------------------------------------------- height

  /** Length of the leading run of digits. */
  function DigitRun(s: string): (n: nat)
    ensures n <= |s| && AllDigits(s[..n])
    ensures n < |s| ==> !IsDigit(s[n])
    decreases |s|
  {
    if s == [] || !IsDigit(s[0]) then 0
    else
      var n := 1 + DigitRun(s[1..]);
      assert s[..n] == [s[0]] + s[1..][..n - 1];
      n
  }

  /**
   * What `calc_height` returns: the value of the leading run of digits. The scan reads one
   * character past the run, so a text made only of digits runs off its end, and an empty run
   * fails when its last character is read.
   */
  function Height(s: string): Result<nat> {
    var n := DigitRun(s);
    if n == |s| || n == 0 then Err(IndexOutOfRange) else Ok(DigitsValue(s[..n]))
  }

  lemma {:induction false} DigitRunOfDigits(d: string, tail: string)
    requires AllDigits(d)
    ensures DigitRun(d + tail) == |d| + DigitRun(tail)
    decreases |d|
  {
    if d != [] {
      assert (d + tail)[0] == d[0];
      assert (d + tail)[1..] == d[1..] + tail;
      DigitRunOfDigits(d[1..], tail);
    } else {
      assert d + tail == tail;
    }
  }

  /** A height written as a number followed by anything that is not a digit reads back as that number. */
  lemma HeightOfRendered(n: nat, tail: string)
    requires tail != [] && !IsDigit(tail[0])
    ensures Height(NatToString(n) + tail) == Ok(n)
  {
    var d := NatToString(n);
    DigitRunOfDigits(d, tail);
    assert (d + tail)[..|d|] == d;
    NatToStringValue(n);
  }

  /** A height text made only of digits always fails: the scan runs past its end. */
  lemma HeightOfDigitsOnly(s: string)
    requires AllDigits(s)
    ensures Height(s) == Err(IndexOutOfRange)
  {
    DigitRunOfDigits(s, []);
    assert s + [] == s;
  }

  /** A height text that does not start with a digit fails: the collected run is empty. */
  lemma HeightOfNonDigit(s: string)
    requires s != [] && !IsDigit(s[0])
    ensures Height(s) == Err(IndexOutOfRange)
  {
  }

  /** `calc_height`: collect digits up to the first non-digit and convert them. */
  method CalcHeight(textHeight: string) returns (r: Result<int>)
    ensures r == Height(textHeight)
  {
    var resHeight := "";
    var i := 0;
    while i < |textHeight| && IsDigit(textHeight[i])
      invariant 0 <= i <= DigitRun(textHeight)
      invariant resHeight == textHeight[..i]
    {
      resHeight := resHeight + [textHeight[i]];
      i := i + 1;
    }
    if i == |textHeight| || resHeight == [] {
      return Err(IndexOutOfRange);
    }
    if resHeight[|resHeight| - 1] == ']' {
      // Cutting a footnote off is dead code: the collected run holds digits only.
      assert false;
    }
    return Ok(DigitsValue(resHeight));
  }

  // ---------------------------------------------------------------- birth date

  /** The month names as they appear in a date ("1 января"). */
  const Months: seq<string> := [
    "января", "февраля", "марта", "апреля", "мая", "июня",
    "июля", "августа", "сентября", "октября", "ноября", "декабря"
  ]

  /** `months.index(month) + 1`. */
  function MonthNumber(month: string): (r: Result<nat>)
    ensures r.Ok? <==> month in Months
    ensures r.Ok? ==> 1 <= r.value <= 12 && Months[r.value - 1] == month
    ensures r.Err? ==> r.error == UnknownMonth
  {
    if month in Months then Ok(IndexOf(Months, month) + 1) else Err(UnknownMonth)
  }

  predicate IsLeap(y: int) {
    y % 4 == 0 && (y % 100 != 0 || y % 400 == 0)
  }

  function DaysInMonth(y: int, m: int): nat
    requires 1 <= m <= 12
  {
    if m == 2 then (if IsLeap(y) then 29 else 28)
    else if m == 4 || m == 6 || m == 9 || m == 11 then 30
    else 31
  }

  /** Days of the year before the first of month m (the cumulative month-length table). */
  function DaysBeforeMonth(y: int, m: int): nat
    requires 1 <= m <= 12
  {
    [0, 31, 59, 90, 120, 151, 181, 212, 243, 273, 304, 334][m - 1]
    + (if m > 2 && IsLeap(y) then 1 else 0)
  }

  /** Days in the proleptic Gregorian calendar before 1 January of year y (y >= 1). */
  function DaysBeforeYear(y: int): int
    requires y >= 1
  {
    var p := y - 1;
    365 * p + p / 4 - p / 100 + p / 400
  }

  /** The day number of a date, day 1 being 1 January of year 1. */
  function Ordinal(y: int, m: int, d: int): int
    requires y >= 1 && 1 <= m <= 12
  {
    DaysBeforeYear(y) + DaysBeforeMonth(y, m) + d
  }

  /** The day number of 1 January 1970. */
  const EpochOrdinal: int := 719163

  predicate ValidDate(y: int, m: int, d: int) {
    1 <= y <= 9999 && 1 <= m <= 12 && 1 <= d <= DaysInMonth(y, m)
  }

  /** Seconds since the Unix epoch at midnight UTC of a date. */
  function UtcMidnight(y: int, m: int, d: int): (t: int)
    requires ValidDate(y, m, d)
    ensures t % 86400 == 0
  {
    (Ordinal(y, m, d) - EpochOrdinal) * 86400
  }

  /**
   * `get_bday`: the timestamp of midnight UTC of the date and the text "year.month.day",
   * the month written as its number and the year and the day as they were given.
   */
  function GetBday(day: string, month: string, year: string): (r: Result<(int, string)>)
    ensures month !in Months ==> r == Err(UnknownMonth)
    ensures r.Ok? ==> month in Months && r.value.0 % 86400 == 0
    ensures r.Ok? ==>
              var m := MonthNumber(month).value;
              Months[m - 1] == month && r.value.1 == year + "." + NatToString(m) + "." + day
  {
    var m :- MonthNumber(month);
    var text := year + "." + NatToString(m) + "." + day;
    var y :- ParseInt(year);
    var d :- ParseInt(day);
    if !ValidDate(y, m, d) then Err(InvalidDate) else Ok((UtcMidnight(y, m, d), text))
  }

  lemma MonthsDistinct(i: nat, j: nat)
    requires i < j < 12
    ensures Months[i] != Months[j]
  {
  }

  /** The month number of the m-th name is m. */
  lemma MonthNumberOfName(m: nat)
    requires 1 <= m <= 12
    ensures MonthNumber(Months[m - 1]) == Ok(m)
  {
    forall k | 0 <= k < m - 1
      ensures Months[k] != Months[m - 1]
    {
      MonthsDistinct(k, m - 1);
    }
    assert Months[m - 1] !in Months[..m - 1];
    IndexOfAt(Months, Months[m - 1], m - 1);
  }

  /** A date written with its month name reads back as that date. */
  lemma GetBdayRendered(y: nat, m: nat, d: nat)
    requires ValidDate(y, m, d)
    ensures GetBday(NatToString(d), Months[m - 1], NatToString(y))
            == Ok((UtcMidnight(y, m, d), NatToString(y) + "." + NatToString(m) + "." + NatToString(d)))
  {
    ParseIntRendered(y);
    ParseIntRendered(d);
    MonthNumberOfName(m);
  }

  /** 1 January 1970 is instant zero. */
  lemma EpochIsZero()
    ensures UtcMidnight(1970, 1, 1) == 0
  {
  }

  /** The next day of the same month is exactly one day later. */
  lemma NextDay(y: int, m: int, d: int)
    requires ValidDate(y, m, d) && d < DaysInMonth(y, m)
    ensures UtcMidnight(y, m, d + 1) == UtcMidnight(y, m, d) + 86400
  {
  }

  /** The first of the next month is one day after the last of this one. */
  lemma NextMonth(y: int, m: int)
    requires 1 <= y <= 9999 && 1 <= m < 12
    ensures UtcMidnight(y, m + 1, 1) == UtcMidnight(y, m, DaysInMonth(y, m)) + 86400
  {
  }

  lemma LeapSteps(y: int)
    ensures y / 4 - (y - 1) / 4 == if y % 4 == 0 then 1 else 0
    ensures y / 100 - (y - 1) / 100 == if y % 100 == 0 then 1 else 0
    ensures y / 400 - (y - 1) / 400 == if y % 400 == 0 then 1 else 0
    ensures y % 400 == 0 ==> y % 100 == 0
    ensures y % 100 == 0 ==> y % 4 == 0
  {
  }

  /** 1 January of the next year is one day after 31 December, across leap-year rules. */
  lemma NextYear(y: int)
    requires 1 <= y < 9999
    ensures UtcMidnight(y + 1, 1, 1) == UtcMidnight(y, 12, 31) + 86400
  {
    LeapSteps(y);
  }
}
