/** The reception date of a summary record: Go's time.Parse with layout
    "20060102" (error discarded) and time.Format with layout "02/01/2006".
    A date is kept as its calendar triple; time of day and zone are always
    midnight UTC for these layouts and are not represented. */
module Dates {
  import opened Fields

  datatype Date = Date(year: int, month: int, day: int)

  /** Go's leap-year rule (proleptic Gregorian calendar). */
  predicate IsLeap(year: int) {
    year % 4 == 0 && (year % 100 != 0 || year % 400 == 0)
  }

  function DaysIn(month: int, year: int): (n: int)
    requires 1 <= month <= 12
    ensures 28 <= n <= 31
  {
    if month == 2 then (if IsLeap(year) then 29 else 28)
    else if month == 4 || month == 6 || month == 9 || month == 11 then 30
    else 31
  }

  /** A real calendar date with a four-digit year: every value time.Parse
      produces for an eight-byte YYYYMMDD field. */
  predicate IsCalendarDate(d: Date) {
    0 <= d.year <= 9999 && 1 <= d.month <= 12 && 1 <= d.day <= DaysIn(d.month, d.year)
  }

  type CalendarDate = d: Date | IsCalendarDate(d) witness Date(1, 1, 1)

  /** The zero time.Time: January 1 of year 1. */
  const ZeroDate: CalendarDate := Date(1, 1, 1)

  /** Eight digits whose month part is 01..12 and whose day part exists in
      that month of that year: exactly the inputs time.Parse accepts. */
  predicate IsDateField(s: string) {
    |s| == 8 && AllDigits(s) &&
    var month := DigitsValue(s[4..6]);
    1 <= month <= 12 && 1 <= DigitsValue(s[6..8]) <= DaysIn(month, DigitsValue(s[..4]))
  }

  /** time.Parse("20060102", s) with the error discarded: a rejected field
      yields the zero time. */
  function ParseDate(s: string): (d: CalendarDate)
    ensures !IsDateField(s) ==> d == ZeroDate
  {
    if IsDateField(s) then
      assert DigitsValue(s[..4]) < Pow10(4) == 10000;
      Date(DigitsValue(s[..4]), DigitsValue(s[4..6]), DigitsValue(s[6..8]))
    else ZeroDate
  }

  /** time.Format("02/01/2006"): day and month in two digits, year in four. */
  function FormatDate(d: CalendarDate): (r: string)
    ensures |r| == 10 && r[2] == '/' && r[5] == '/'
  {
    FixedDigits(d.day, 2) + "/" + FixedDigits(d.month, 2) + "/" + FixedDigits(d.year, 4)
  }

  /** The YYYYMMDD text of a date, as the receipt format writes it. */
  function DateField(d: CalendarDate): (s: string)
    ensures |s| == 8
  {
    FixedDigits(d.year, 4) + FixedDigits(d.month, 2) + FixedDigits(d.day, 2)
  }

  /** Formatting a parsed date rearranges the field's own digits into
      DD/MM/YYYY. */
  lemma FormatParsedDate(s: string)
    requires IsDateField(s)
    ensures FormatDate(ParseDate(s)) == s[6..8] + "/" + s[4..6] + "/" + s[..4]
  {
    DigitsValueFixed(s[..4]);
    DigitsValueFixed(s[4..6]);
    DigitsValueFixed(s[6..8]);
  }

  /** An unparsable date field is rendered as the zero time. */
  lemma FormatRejectedDate(s: string)
    requires !IsDateField(s)
    ensures FormatDate(ParseDate(s)) == "01/01/0001"
  {
    assert FixedDigits(1, 2) == "01";
    assert FixedDigits(1, 4) == "0001";
  }

  /** Every calendar date written as YYYYMMDD parses back to itself. */
  lemma ParseDateField(d: CalendarDate)
    ensures IsDateField(DateField(d)) && ParseDate(DateField(d)) == d
  {
    var s := DateField(d);
    assert Pow10(2) == 100 && Pow10(4) == 10000;
    assert s[..4] == FixedDigits(d.year, 4);
    assert s[4..6] == FixedDigits(d.month, 2);
    assert s[6..8] == FixedDigits(d.day, 2);
    FixedDigitsValue(d.year, 4);
    FixedDigitsValue(d.month, 2);
    FixedDigitsValue(d.day, 2);
  }
}
