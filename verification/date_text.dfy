/** The `YYYY-MM-DD` text that `git log --date=format:%Y-%m-%d` prints and
    `pd.to_datetime` reads back, and the same text produced again by
    `.dt.strftime("%Y-%m-%d")` for the hover labels.
 */
module DateText {
  import opened Calendar
  import opened Outcomes

  predicate IsDigit(c: char) {
    '0' <= c <= '9'
  }

  function DigitValue(c: char): (n: int)
    requires IsDigit(c)
    ensures 0 <= n <= 9
  {
    c as int - '0' as int
  }

  function DigitChar(n: int): (c: char)
    requires 0 <= n <= 9
    ensures IsDigit(c) && DigitValue(c) == n
  {
    ('0' as int + n) as char
  }

  /** `YYYY-MM-DD` shape: ten characters, dashes at 4 and 7, digits elsewhere. */
  predicate IsDateShape(s: string) {
    && |s| == 10
    && s[4] == '-' && s[7] == '-'
    && forall i :: 0 <= i < 10 && i != 4 && i != 7 ==> IsDigit(s[i])
  }

  /** The first and last midnight a pandas Timestamp (nanoseconds since
      1970 in a signed 64-bit integer) can hold: 1677-09-21 00:00 is already
      below its minimum, 1677-09-21 00:12:43. */
  const FirstDate := Date(1677, 9, 22)
  const LastDate := Date(2262, 4, 11)

  /** Calendar order on dates: by year, then month, then day. */
  predicate NotAfter(a: Date, b: Date) {
    || a.year < b.year
    || (a.year == b.year && a.month < b.month)
    || (a.year == b.year && a.month == b.month && a.day <= b.day)
  }

  predicate InTimestampRange(d: Date)
    ensures InTimestampRange(d) ==> 1677 <= d.year <= 2262
  {
    NotAfter(FirstDate, d) && NotAfter(d, LastDate)
  }

  /** `strftime("%Y-%m-%d")` for a four-digit year: zero-padded year, month
      and day joined by dashes. */
  function FormatDate(d: Date): (s: string)
    requires ValidDate(d) && 0 <= d.year <= 9999
    ensures IsDateShape(s)
  {
    [ DigitChar(d.year / 1000), DigitChar(d.year / 100 % 10),
      DigitChar(d.year / 10 % 10), DigitChar(d.year % 10), '-',
      DigitChar(d.month / 10), DigitChar(d.month % 10), '-',
      DigitChar(d.day / 10), DigitChar(d.day % 10) ]
  }

  /** The date a well-shaped text spells, before any range check. */
  function Spelled(s: string): (d: Date)
    requires IsDateShape(s)
    ensures 0 <= d.year <= 9999 && 0 <= d.month <= 99 && 0 <= d.day <= 99
  {
    Date(
      1000 * DigitValue(s[0]) + 100 * DigitValue(s[1]) + 10 * DigitValue(s[2]) + DigitValue(s[3]),
      10 * DigitValue(s[5]) + DigitValue(s[6]),
      10 * DigitValue(s[8]) + DigitValue(s[9]))
  }

  /** `pd.to_datetime` on one `YYYY-MM-DD` text. It succeeds exactly on the
      canonical spelling of a real calendar date inside the Timestamp range;
      any other text raises. */
  function ParseDate(s: string): (r: Result<Date>)
    ensures r.Ok? ==> ValidDate(r.value) && InTimestampRange(r.value) && FormatDate(r.value) == s
    ensures r.Err? ==> r.error == UnparsableDate(s) || r.error == OutOfBoundsDate(s)
    ensures r.Err? && IsDateShape(s) && ValidDate(Spelled(s)) ==> !InTimestampRange(Spelled(s))
  {
    if !IsDateShape(s) then Err(UnparsableDate(s))
    else
      var d := Spelled(s);
      if !ValidDate(d) then Err(UnparsableDate(s))
      else if !InTimestampRange(d) then Err(OutOfBoundsDate(s))
      else
        FormatSpelled(s);
        Ok(d)
  }

  lemma FormatSpelled(s: string)
    requires IsDateShape(s) && ValidDate(Spelled(s))
    ensures FormatDate(Spelled(s)) == s
  {
    var d := Spelled(s);
    FourDigits(DigitValue(s[0]), DigitValue(s[1]), DigitValue(s[2]), DigitValue(s[3]));
    TwoDigits(DigitValue(s[5]), DigitValue(s[6]));
    TwoDigits(DigitValue(s[8]), DigitValue(s[9]));
    var f := FormatDate(d);
    forall i | 0 <= i < 10
      ensures f[i] == s[i]
    {
      if i != 4 && i != 7 {
        assert DigitChar(DigitValue(s[i])) == s[i];
      }
    }
  }

  /** Decimal digits are recovered from the number they spell. */
  lemma FourDigits(a: int, b: int, c: int, e: int)
    requires 0 <= a <= 9 && 0 <= b <= 9 && 0 <= c <= 9 && 0 <= e <= 9
    ensures var n := 1000 * a + 100 * b + 10 * c + e;
            n / 1000 == a && n / 100 % 10 == b && n / 10 % 10 == c && n % 10 == e
  {
    var n := 1000 * a + 100 * b + 10 * c + e;
    assert n / 10 == 100 * a + 10 * b + c;
    assert n / 100 == 10 * a + b;
  }

  lemma TwoDigits(a: int, b: int)
    requires 0 <= a <= 9 && 0 <= b <= 9
    ensures (10 * a + b) / 10 == a && (10 * a + b) % 10 == b
  {
  }

  /** Round trip: formatting a date inside the Timestamp range and parsing
      the text gives the date back. */
  lemma ParseFormattedDate(d: Date)
    requires ValidDate(d) && InTimestampRange(d)
    ensures ParseDate(FormatDate(d)) == Ok(d)
  {
    var s := FormatDate(d);
    assert Spelled(s) == d;
  }
}
