/**
 * Calendar dates as the build scripts use them: `datetime.strptime(s,
 * '%Y-%m-%d')`, day counts since 2024-01-01 (the puzzle number), and the
 * English day and month names `strftime` prints in the C locale.
 */
module Calendar {
  import opened Wrappers
  import opened Text

  /** A proleptic Gregorian date, as `datetime.date` holds it. */
  datatype Date = Date(year: int, month: int, day: int)

  predicate IsLeap(y: int) {
    y % 4 == 0 && (y % 100 != 0 || y % 400 == 0)
  }

  function DaysInMonth(y: int, m: int): (n: int)
    requires 1 <= m <= 12
    ensures 28 <= n <= 31
  {
    if m == 2 then (if IsLeap(y) then 29 else 28)
    else if m == 4 || m == 6 || m == 9 || m == 11 then 30
    else 31
  }

  function DaysInYear(y: int): int {
    if IsLeap(y) then 366 else 365
  }

  /** The dates `datetime` can represent: years 1 to 9999. */
  predicate Valid(d: Date) {
    1 <= d.year <= 9999 && 1 <= d.month <= 12 && 1 <= d.day <= DaysInMonth(d.year, d.month)
  }

  /** Days in the months of year y before month m. */
  function DaysBeforeMonth(y: int, m: int): (n: int)
    requires 1 <= m <= 12
    ensures 28 * (m - 1) <= n <= 31 * (m - 1)
  {
    if m == 1 then 0 else DaysBeforeMonth(y, m - 1) + DaysInMonth(y, m - 1)
  }

  /** Days in the years before year y, counted from 0001-01-01. */
  function DaysBeforeYear(y: int): int
    requires y >= 1
  {
    var p := y - 1;
    365 * p + p / 4 - p / 100 + p / 400
  }

  /** `date.toordinal()`: 0001-01-01 is day 1. */
  function Ordinal(d: Date): int
    requires Valid(d)
  {
    DaysBeforeYear(d.year) + DaysBeforeMonth(d.year, d.month) + d.day
  }

  /** The calendar day after d. */
  function NextDay(d: Date): (r: Date)
    requires Valid(d) && d != Date(9999, 12, 31)
    ensures Valid(r)
  {
    if d.day < DaysInMonth(d.year, d.month) then d.(day := d.day + 1)
    else if d.month < 12 then Date(d.year, d.month + 1, 1)
    else Date(d.year + 1, 1, 1)
  }

  /** One more day passes a multiple of b exactly when the new count is one. */
  lemma DivStep(a: nat, b: nat)
    requires b == 4 || b == 100 || b == 400
    ensures (a + 1) / b == a / b + (if (a + 1) % b == 0 then 1 else 0)
  {
  }

  /** A year contributes one more day exactly when it is a leap year. */
  lemma DaysBeforeNextYear(y: int)
    requires y >= 1
    ensures DaysBeforeYear(y + 1) == DaysBeforeYear(y) + DaysInYear(y)
  {
    var p := y - 1;
    DivStep(p, 4);
    DivStep(p, 100);
    DivStep(p, 400);
    CenturyDivisibility(y);
    QuadCenturyDivisibility(y);
  }

  lemma CenturyDivisibility(y: int)
    ensures y % 100 == 0 ==> y % 4 == 0
  {
    if y % 100 == 0 {
      var q := y / 100;
      assert y == 4 * (25 * q);
    }
  }

  lemma QuadCenturyDivisibility(y: int)
    ensures y % 400 == 0 ==> y % 100 == 0
  {
    if y % 400 == 0 {
      var q := y / 400;
      assert y == 100 * (4 * q);
    }
  }

  /** The months January to November fill all of the year but December's 31 days. */
  lemma DaysBeforeDecember(y: int)
    ensures DaysBeforeMonth(y, 12) + 31 == DaysInYear(y)
  {
    var f := if IsLeap(y) then 29 else 28;
    assert DaysBeforeMonth(y, 2) == 31;
    assert DaysBeforeMonth(y, 3) == 31 + f;
    assert DaysBeforeMonth(y, 4) == 62 + f;
    assert DaysBeforeMonth(y, 5) == 92 + f;
    assert DaysBeforeMonth(y, 6) == 123 + f;
    assert DaysBeforeMonth(y, 7) == 153 + f;
    assert DaysBeforeMonth(y, 8) == 184 + f;
    assert DaysBeforeMonth(y, 9) == 215 + f;
    assert DaysBeforeMonth(y, 10) == 245 + f;
    assert DaysBeforeMonth(y, 11) == 276 + f;
  }

  /** Consecutive dates have consecutive ordinals. */
  lemma OrdinalNextDay(d: Date)
    requires Valid(d) && d != Date(9999, 12, 31)
    ensures Ordinal(NextDay(d)) == Ordinal(d) + 1
  {
    if d.day == DaysInMonth(d.year, d.month) && d.month == 12 {
      DaysBeforeNextYear(d.year);
      DaysBeforeDecember(d.year);
    }
  }

  /** 2024-01-01, the day of puzzle number 1. */
  const Epoch := Date(2024, 1, 1)

  /** `(date - EPOCH).days + 1` */
  function DayNumber(d: Date): int
    requires Valid(d)
  {
    Ordinal(d) - Ordinal(Epoch) + 1
  }

  /** Consecutive calendar dates give consecutive puzzle numbers, starting from 1 at the epoch. */
  lemma DayNumberNext(d: Date)
    requires Valid(d) && d != Date(9999, 12, 31)
    ensures DayNumber(NextDay(d)) == DayNumber(d) + 1
    ensures DayNumber(Epoch) == 1
  {
    OrdinalNextDay(d);
  }

  predicate IsDigit(c: char) { '0' <= c <= '9' }

  function DigitValue(c: char): (n: nat)
    requires IsDigit(c)
    ensures n < 10
  {
    (c as int - '0' as int) as nat
  }

  /** `%Y`: exactly four digits. */
  function YearToken(s: string): (r: Option<int>)
    requires |s| == 4
    ensures r.Some? ==> 0 <= r.value <= 9999
  {
    if IsDigit(s[0]) && IsDigit(s[1]) && IsDigit(s[2]) && IsDigit(s[3])
    then Some(1000 * DigitValue(s[0]) + 100 * DigitValue(s[1]) + 10 * DigitValue(s[2]) + DigitValue(s[3]))
    else None
  }

  /** `%m`: 1[0-2], 0[1-9] or [1-9], the text that follows being a '-'. */
  function MonthToken(s: string): (r: Option<int>)
    ensures r.Some? ==> 1 <= r.value <= 12
  {
    if |s| == 2 && s[0] == '1' && '0' <= s[1] <= '2' then Some(10 + DigitValue(s[1]))
    else if |s| == 2 && s[0] == '0' && '1' <= s[1] <= '9' then Some(DigitValue(s[1]))
    else if |s| == 1 && '1' <= s[0] <= '9' then Some(DigitValue(s[0]))
    else None
  }

  /** `%d` at the end of the text: 3[01], [12] and a digit, 0[1-9], [1-9], or a space and [1-9]. */
  function DayToken(s: string): (r: Option<int>)
    ensures r.Some? ==> 1 <= r.value <= 31
  {
    if |s| == 2 && s[0] == '3' && '0' <= s[1] <= '1' then Some(30 + DigitValue(s[1]))
    else if |s| == 2 && '1' <= s[0] <= '2' && IsDigit(s[1]) then Some(10 * DigitValue(s[0]) + DigitValue(s[1]))
    else if |s| == 2 && (s[0] == '0' || s[0] == ' ') && '1' <= s[1] <= '9' then Some(DigitValue(s[1]))
    else if |s| == 1 && '1' <= s[0] <= '9' then Some(DigitValue(s[0]))
    else None
  }

  /**
   * `datetime.strptime(s, '%Y-%m-%d')`, None where it raises `ValueError`:
   * four digits, '-', a month of one or two digits, '-', a day of one or two
   * characters ending the text, and a date that exists.
   */
  function ParseDate(s: string): (r: Option<Date>)
    ensures r.Some? ==> Valid(r.value)
  {
    if |s| < 8 || s[4] != '-' then None
    else
      var monthLen := if s[6] == '-' then 1 else 2;
      if s[5 + monthLen] != '-' then None
      else
        var y, m, d := YearToken(s[..4]), MonthToken(s[5..5 + monthLen]), DayToken(s[6 + monthLen..]);
        if y.None? || m.None? || d.None? then None
        else if y.value < 1 || d.value > DaysInMonth(y.value, m.value) then None
        else Some(Date(y.value, m.value, d.value))
  }

  /** `n` as two digits. */
  function Pad2(n: int): (r: string)
    requires 0 <= n < 100
    ensures |r| == 2 && IsDigit(r[0]) && IsDigit(r[1])
  {
    [DigitChar(n / 10), DigitChar(n % 10)]
  }

  /** A four-digit year as four digits. */
  function Pad4(n: int): (r: string)
    requires 0 <= n < 10000
    ensures |r| == 4
  {
    Pad2(n / 100) + Pad2(n % 100)
  }

  /** The canonical `YYYY-MM-DD` text of a date with a four-digit year. */
  function FormatDate(d: Date): (s: string)
    requires Valid(d) && d.year >= 1000
    ensures |s| == 10
  {
    Pad4(d.year) + "-" + Pad2(d.month) + "-" + Pad2(d.day)
  }

  lemma DigitRoundTrip(k: nat)
    requires k < 10
    ensures DigitValue(DigitChar(k)) == k
  {
  }

  lemma YearTokenPad4(n: int)
    requires 0 <= n < 10000
    ensures YearToken(Pad4(n)) == Some(n)
  {
    var hi, lo := n / 100, n % 100;
    DigitRoundTrip(hi / 10);
    DigitRoundTrip(hi % 10);
    DigitRoundTrip(lo / 10);
    DigitRoundTrip(lo % 10);
    assert hi == 10 * (hi / 10) + hi % 10;
    assert lo == 10 * (lo / 10) + lo % 10;
    assert n == 100 * hi + lo;
  }

  lemma MonthTokenPad2(m: int)
    requires 1 <= m <= 12
    ensures MonthToken(Pad2(m)) == Some(m)
  {
  }

  lemma DayTokenPad2(d: int)
    requires 1 <= d <= 31
    ensures DayToken(Pad2(d)) == Some(d)
  {
  }

  /** Reading back the canonical text gives the date again. */
  lemma ParseFormat(d: Date)
    requires Valid(d) && d.year >= 1000
    ensures ParseDate(FormatDate(d)) == Some(d)
  {
    var s := FormatDate(d);
    assert s[..4] == Pad4(d.year) && s[4] == '-' && s[7] == '-';
    assert s[5..7] == Pad2(d.month) && s[8..] == Pad2(d.day);
    YearTokenPad4(d.year);
    MonthTokenPad2(d.month);
    DayTokenPad2(d.day);
  }

  /** strptime also takes a month and a day without their leading zero. */
  lemma ParseUnpadded()
    ensures ParseDate("2024-1-5") == Some(Date(2024, 1, 5))
    ensures ParseDate("2024-02-30") == None
    ensures ParseDate("2024-13-01") == None
  {
    var s := "2024-1-5";
    assert s[..4] == "2024" && s[5..6] == "1" && s[7..] == "5";
    var t := "2024-02-30";
    assert t[..4] == "2024" && t[5..7] == "02" && t[8..] == "30";
    var u := "2024-13-01";
    assert u[5..7] == "13";
  }

  /** Year 0 does not exist, and nothing may follow the day. */
  lemma ParseRejects()
    ensures ParseDate("0000-01-01") == None
    ensures ParseDate("2024-01-1 ") == None
  {
    var s := "0000-01-01";
    assert s[..4] == "0000";
    var t := "2024-01-1 ";
    assert t[8..] == "1 ";
  }

  /** `puzzle_number(date_str)`, None where strptime raises. */
  function PuzzleNumber(s: string): (r: Option<int>)
    ensures r.Some? <==> ParseDate(s).Some?
  {
    match ParseDate(s)
    case None => None
    case Some(d) => Some(DayNumber(d))
  }

  /** Puzzle number 1 falls on the epoch. */
  lemma PuzzleNumberEpoch()
    ensures PuzzleNumber("2024-01-01") == Some(1)
  {
    var s := "2024-01-01";
    assert s[..4] == "2024" && s[5..7] == "01" && s[8..] == "01";
  }

  lemma ParseExample()
    ensures ParseDate("2026-02-17") == Some(Date(2026, 2, 17))
  {
    var t := "2026-02-17";
    assert t[..4] == "2026" && t[5..7] == "02" && t[8..] == "17";
  }

  lemma PuzzleNumberExample()
    ensures PuzzleNumber("2026-02-17") == Some(779)
    ensures DayNumber(Date(2026, 2, 17)) == 779
  {
    ParseExample();
    assert Ordinal(Date(2026, 2, 17)) == 739664;
  }

  /** `date.weekday()`: 0 for Monday through 6 for Sunday. */
  function Weekday(d: Date): (w: int)
    requires Valid(d)
    ensures 0 <= w < 7
  {
    (Ordinal(d) + 6) % 7
  }

  lemma ModSevenStep(x: int)
    ensures (x + 7) % 7 == ((x + 6) % 7 + 1) % 7
  {
    var q, r := (x + 6) / 7, (x + 6) % 7;
    assert x + 6 == 7 * q + r && 0 <= r < 7;
    if r == 6 {
      assert x + 7 == 7 * (q + 1);
    } else {
      assert x + 7 == 7 * q + (r + 1);
    }
  }

  /** The weekday advances by one with each day. */
  lemma WeekdayNextDay(d: Date)
    requires Valid(d) && d != Date(9999, 12, 31)
    ensures Weekday(NextDay(d)) == (Weekday(d) + 1) % 7
  {
    OrdinalNextDay(d);
    ModSevenStep(Ordinal(d));
  }

  /** 2024-01-01 was a Monday. */
  lemma EpochIsMonday()
    ensures Weekday(Epoch) == 0
  {
    assert Ordinal(Epoch) == 738886;
  }

  const DayNames: seq<string> := ["Monday", "Tuesday", "Wednesday", "Thursday", "Friday", "Saturday", "Sunday"]
  const DayAbbreviations: seq<string> := ["Mon", "Tue", "Wed", "Thu", "Fri", "Sat", "Sun"]
  const MonthAbbreviations: seq<string> := ["Jan", "Feb", "Mar", "Apr", "May", "Jun", "Jul", "Aug", "Sep", "Oct", "Nov", "Dec"]

  /** `strftime('%A')` */
  function DayName(d: Date): (r: string)
    requires Valid(d)
    ensures r in DayNames
  {
    DayNames[Weekday(d)]
  }

  /** `strftime('%a, %d %b %Y 06:00:00 +0000')`, the feed's date format. */
  function FeedDate(d: Date): (r: string)
    requires Valid(d)
    ensures EndsWith(r, " 06:00:00 +0000")
  {
    Rfc822(DayAbbreviations[Weekday(d)], Pad2(d.day), MonthAbbreviations[d.month - 1], NatToString(d.year))
  }

  /** The `'%a, %d %b %Y 06:00:00 +0000'` layout, from its already formatted fields. */
  function Rfc822(weekday: string, day: string, month: string, year: string): string {
    weekday + ", " + day + " " + month + " " + year + " 06:00:00 +0000"
  }

  lemma YearText()
    ensures NatToString(2026) == "2026"
  {
    assert NatToString(20) == "20";
    assert NatToString(202) == "202";
  }

  lemma FeedDateExample()
    ensures FeedDate(Date(2026, 2, 17)) == "Tue, 17 Feb 2026 06:00:00 +0000"
  {
    YearText();
    WeekdayExample();
    assert Pad2(17) == "17";
    Rfc822Example();
  }

  lemma Rfc822Example()
    ensures Rfc822("Tue", "17", "Feb", "2026") == "Tue, 17 Feb 2026 06:00:00 +0000"
  {
  }

  lemma WeekdayExample()
    ensures Weekday(Date(2026, 2, 17)) == 1
  {
    assert Ordinal(Date(2026, 2, 17)) == 739664;
  }
}
