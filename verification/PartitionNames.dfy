/** Days, and the names their partitions carry and are recognised by. */
module PartitionNames {
  import opened Wrappers
  import opened Integers

  /** The calendar's years. */
  const FIRST_YEAR := -262_143
  const LAST_YEAR := 262_142

  const PARENT := "measurements"
  const DEFAULT_PARTITION := "measurements_default"

  datatype Date = Date(year: int, month: int, day: int)

  predicate IsLeap(year: int) {
    year % 4 == 0 && (year % 100 != 0 || year % 400 == 0)
  }

  function DaysIn(year: int, month: int): int {
    if month == 2 then (if IsLeap(year) then 29 else 28)
    else if month == 4 || month == 6 || month == 9 || month == 11 then 30
    else 31
  }

  predicate IsDate(d: Date) {
    FIRST_YEAR <= d.year <= LAST_YEAR && 1 <= d.month <= 12 && 1 <= d.day <= DaysIn(d.year, d.month)
  }

  /** Dates in order; ranks have gaps after short months. */
  function Rank(d: Date): int {
    d.year * 372 + d.month * 31 + d.day
  }

  predicate Before(a: Date, b: Date) {
    Rank(a) < Rank(b)
  }

  function NextDay(d: Date): (next: Option<Date>)
    requires IsDate(d)
    ensures next.Some? ==> IsDate(next.value) && Before(d, next.value)
    ensures next.None? <==> d == Date(LAST_YEAR, 12, 31)
  {
    if d.day < DaysIn(d.year, d.month) then Some(d.(day := d.day + 1))
    else if d.month < 12 then Some(Date(d.year, d.month + 1, 1))
    else if d.year < LAST_YEAR then Some(Date(d.year + 1, 1, 1))
    else None
  }

  /** Different days have different ranks. */
  lemma RankIsInjective(a: Date, b: Date)
    requires IsDate(a) && IsDate(b) && Rank(a) == Rank(b)
    ensures a == b
  {
    var year := a.year - b.year;
    assert -371 < year * 372 < 371;
    assert year == 0;
  }

  /** Rank order is calendar order. */
  lemma RankIsLexicographic(a: Date, b: Date)
    requires IsDate(a) && IsDate(b)
    ensures Before(a, b) <==>
      a.year < b.year || (a.year == b.year && (a.month < b.month || (a.month == b.month && a.day < b.day)))
  {
    assert 32 <= a.month * 31 + a.day <= 403 && 32 <= b.month * 31 + b.day <= 403;
  }

  /** No day lies between one and the next. */
  lemma NothingBetween(d: Date, c: Date)
    requires IsDate(d) && IsDate(c) && NextDay(d).Some?
    ensures Rank(NextDay(d).value) <= Rank(c) <==> Before(d, c)
  {
    RankIsLexicographic(d, c);
    RankIsLexicographic(c, NextDay(d).value);
  }

  /** Days before a month in a year of 365. */
  function DaysBefore(month: int): int
    requires 1 <= month <= 12
  {
    [0, 31, 59, 90, 120, 151, 181, 212, 243, 273, 304, 334][month - 1]
  }

  function DayInYear(d: Date): int
    requires 1 <= d.month <= 12
  {
    var leapDay := if d.month > 2 && d.year % 4 == 0 && (d.year % 100 != 0 || d.year % 400 == 0) then 1 else 0;
    DaysBefore(d.month) + leapDay + d.day - 1
  }

  /** How many days of the Gregorian calendar lie before a date, counted from the year 1. */
  function DayNumber(d: Date): int
    requires 1 <= d.month <= 12
  {
    var years := d.year - 1;
    365 * years + years / 4 - years / 100 + years / 400 + DayInYear(d)
  }

  lemma QuotientStep(year: int, n: int)
    requires n > 1
    ensures year / n == (year - 1) / n + (if year % n == 0 then 1 else 0)
  {
    var q, r := (year - 1) / n, (year - 1) % n;
    if r == n - 1 {
      assert year == n * (q + 1);
      DivisionIsUnique(year, n, q + 1, 0);
    } else {
      DivisionIsUnique(year, n, q, r + 1);
    }
  }

  lemma YearHasItsDays(year: int)
    ensures var leapDay := if year % 4 == 0 && (year % 100 != 0 || year % 400 == 0) then 1 else 0;
      DayNumber(Date(year + 1, 1, 1)) == DayNumber(Date(year, 12, 31)) + 1
      && DayNumber(Date(year, 12, 31)) == DayNumber(Date(year, 1, 1)) + 364 + leapDay
  {
    QuotientStep(year, 4);
    QuotientStep(year, 100);
    QuotientStep(year, 400);
    HundredsAreFours(year);
  }

  lemma HundredsAreFours(year: int)
    ensures year % 400 == 0 ==> year % 100 == 0
    ensures year % 100 == 0 ==> year % 4 == 0
  {
  }

  lemma DayFollowsInYear(d: Date, next: Date)
    requires IsDate(d) && NextDay(d) == Some(next) && next.year == d.year
    ensures DayInYear(next) == DayInYear(d) + 1
  {
  }

  lemma EpochDay()
    ensures DayNumber(Date(1970, 1, 1)) == 719_162
  {
  }

  /** The days follow one another as the Gregorian calendar's do; 1970-01-01 is day 719162. */
  lemma DaysCountUp(d: Date)
    requires IsDate(d)
    ensures NextDay(d).Some? ==> IsDate(NextDay(d).value) && DayNumber(NextDay(d).value) == DayNumber(d) + 1
    ensures NextDay(d).None? <==> d == Date(262_142, 12, 31)
    ensures DayNumber(Date(1970, 1, 1)) == 719_162
  {
    EpochDay();
    if NextDay(d).Some? && NextDay(d).value.year == d.year {
      DayFollowsInYear(d, NextDay(d).value);
    } else {
      YearHasItsDays(d.year);
    }
  }

  // Numbers as text.

  function ZeroPadded(text: string, width: nat): string
    decreases width - |text|
  {
    if |text| < width then ZeroPadded("0" + text, width) else text
  }

  lemma {:induction false} LeadingZero(text: string)
    requires AllDigits(text)
    ensures AllDigits("0" + text) && Value("0" + text) == Value(text)
  {
    if text != "" {
      LeadingZero(text[..|text| - 1]);
      assert ("0" + text)[..|text|] == "0" + text[..|text| - 1];
    } else {
      assert ("0" + text)[..0] == "";
    }
  }

  lemma {:induction false} PaddingReadsBack(text: string, width: nat)
    requires AllDigits(text)
    ensures AllDigits(ZeroPadded(text, width)) && Value(ZeroPadded(text, width)) == Value(text)
    ensures |ZeroPadded(text, width)| >= |text|
    decreases width - |text|
  {
    if |text| < width {
      LeadingZero(text);
      PaddingReadsBack("0" + text, width);
    }
  }

  /** A run of digits with an optional sign, as integers are read. */
  function ParseUnsigned(text: string): Option<nat> {
    if text != "" && text[0] == '+' then ParseDigits(text[1..]) else ParseDigits(text)
  }

  function ParseDigits(text: string): Option<nat> {
    if text == "" || !AllDigits(text) then None
    else if Value(text) > 0xFFFF_FFFF then None
    else Some(Value(text))
  }

  function ParseSigned(text: string): Option<int> {
    if text != "" && text[0] == '-' then
      match ParseDigits(text[1..])
      case None => None
      case Some(n) => if n > 0x8000_0000 then None else Some(-(n as int))
    else
      match ParseUnsigned(text)
      case None => None
      case Some(n) => if n > 0x7FFF_FFFF then None else Some(n)
  }

  /** At least four characters, the sign among them. */
  function YearText(year: int): string {
    if year >= 0 then ZeroPadded(Decimal(year), 4) else "-" + ZeroPadded(Decimal(-year), 3)
  }

  function TwoDigits(n: nat): string {
    ZeroPadded(Decimal(n), 2)
  }

  lemma TwoDigitsReadBack(n: nat)
    requires n <= 31
    ensures AllDigits(TwoDigits(n)) && ParseUnsigned(TwoDigits(n)) == Some(n)
  {
    DecimalReadsBack(n);
    PaddingReadsBack(Decimal(n), 2);
  }

  lemma DigitsAreNoSeparator(text: string)
    requires AllDigits(text)
    ensures '_' !in text
  {
  }

  lemma PaddedReadsBack(n: nat, width: nat)
    requires n <= 0xFFFF_FFFF
    ensures var text := ZeroPadded(Decimal(n), width);
      AllDigits(text) && text != "" && ParseDigits(text) == Some(n) && '_' !in text
  {
    DecimalReadsBack(n);
    PaddingReadsBack(Decimal(n), width);
    DigitsAreNoSeparator(ZeroPadded(Decimal(n), width));
  }

  lemma DigitsAreNoSign(text: string)
    requires AllDigits(text) && text != ""
    ensures text[0] != '-' && text[0] != '+'
  {
  }

  lemma NegativeReadsBack(digits: string, n: nat)
    requires n <= 0x8000_0000 && ParseDigits(digits) == Some(n) && '_' !in digits
    ensures ParseSigned("-" + digits) == Some(-(n as int)) && '_' !in "-" + digits
  {
    assert ("-" + digits)[1..] == digits;
  }

  lemma YearReadsBack(year: int)
    requires FIRST_YEAR <= year <= LAST_YEAR
    ensures ParseSigned(YearText(year)) == Some(year) && '_' !in YearText(year)
  {
    if year >= 0 {
      PaddedReadsBack(year, 4);
      DigitsAreNoSign(YearText(year));
    } else {
      PaddedReadsBack(-year, 3);
      NegativeReadsBack(ZeroPadded(Decimal(-year), 3), -year);
    }
  }

  // Names.

  function PartitionName(start: Date): string
    requires IsDate(start)
  {
    PARENT + "_" + YearText(start.year) + "_" + TwoDigits(start.month) + "_" + TwoDigits(start.day)
  }

  function StripPrefix(text: string, prefix: string): Option<string> {
    if prefix <= text then Some(text[|prefix|..]) else None
  }

  /** The text before and after the first `at`. */
  function SplitOnce(text: string, at: char): Option<(string, string)> {
    if text == "" then None
    else if text[0] == at then Some(("", text[1..]))
    else
      match SplitOnce(text[1..], at)
      case None => None
      case Some((before, after)) => Some(([text[0]] + before, after))
  }

  function ParsePartitionName(name: string): (start: Option<Date>)
    ensures start.Some? ==> IsDate(start.value)
  {
    match StripPrefix(name, PARENT + "_")
    case None => None
    case Some(suffix) =>
      match SplitOnce(suffix, '_')
      case None => None
      case Some((year, rest)) =>
        match SplitOnce(rest, '_')
        case None => None
        case Some((month, day)) =>
          match (ParseSigned(year), ParseUnsigned(month), ParseUnsigned(day))
          case (Some(y), Some(m), Some(d)) => if IsDate(Date(y, m, d)) then Some(Date(y, m, d)) else None
          case _ => None
  }

  lemma {:induction false} SplitsAtFirst(before: string, at: char, after: string)
    requires at !in before
    ensures SplitOnce(before + [at] + after, at) == Some((before, after))
  {
    var text := before + [at] + after;
    if before == "" {
      assert text[1..] == after;
    } else {
      assert text[0] == before[0] && before[0] in before;
      assert text[1..] == before[1..] + [at] + after;
      SplitsAtFirst(before[1..], at, after);
      assert [before[0]] + before[1..] == before;
    }
  }

  lemma PartsReadBack(start: Date, year: string, month: string, day: string, rest: string, suffix: string, name: string)
    requires IsDate(start) && '_' !in year && '_' !in month
    requires ParseSigned(year) == Some(start.year)
    requires ParseUnsigned(month) == Some(start.month) && ParseUnsigned(day) == Some(start.day)
    requires rest == month + ['_'] + day && suffix == year + ['_'] + rest && name == PARENT + "_" + suffix
    ensures ParsePartitionName(name) == Some(start)
  {
    assert name[|PARENT + "_"|..] == suffix;
    SplitsAtFirst(year, '_', rest);
    SplitsAtFirst(month, '_', day);
  }

  /** Every day is read back from its partition's name. */
  lemma NameReadsBack(start: Date)
    requires IsDate(start)
    ensures ParsePartitionName(PartitionName(start)) == Some(start)
  {
    var year, month, day := YearText(start.year), TwoDigits(start.month), TwoDigits(start.day);
    YearReadsBack(start.year);
    TwoDigitsReadBack(start.month);
    TwoDigitsReadBack(start.day);
    DigitsAreNoSeparator(month);
    var rest := month + ['_'] + day;
    var suffix := year + ['_'] + rest;
    assert PartitionName(start) == PARENT + "_" + suffix;
    PartsReadBack(start, year, month, day, rest, suffix, PartitionName(start));
  }

  lemma {:induction false} DecimalIsShort(n: nat, width: nat, bound: nat)
    requires width > 0 && n < bound && bound == PowerOfTen(width)
    ensures |Decimal(n)| <= width
  {
    if n >= 10 {
      DecimalIsShort(n / 10, width - 1, PowerOfTen(width - 1));
    }
  }

  function PowerOfTen(width: nat): nat {
    if width == 0 then 1 else 10 * PowerOfTen(width - 1)
  }

  lemma {:induction false} PaddedToWidth(text: string, width: nat)
    requires |text| <= width
    ensures |ZeroPadded(text, width)| == width
    decreases width - |text|
  {
    if |text| < width {
      PaddedToWidth("0" + text, width);
    }
  }

  /** In the years 0 to 9999 the name is the table's with four, two and two digits behind it. */
  lemma NameInDigits(start: Date) returns (year: string, month: string, day: string)
    requires IsDate(start) && 0 <= start.year <= 9999
    ensures |year| == 4 && AllDigits(year) && Value(year) == start.year
    ensures |month| == 2 && AllDigits(month) && Value(month) == start.month
    ensures |day| == 2 && AllDigits(day) && Value(day) == start.day
    ensures PartitionName(start) == "measurements_" + year + "_" + month + "_" + day
  {
    year, month, day := YearText(start.year), TwoDigits(start.month), TwoDigits(start.day);
    assert PowerOfTen(4) == 10_000 && PowerOfTen(2) == 100;
    DecimalIsShort(start.year, 4, 10_000);
    DecimalIsShort(start.month, 2, 100);
    DecimalIsShort(start.day, 2, 100);
    DecimalReadsBack(start.year);
    DecimalReadsBack(start.month);
    DecimalReadsBack(start.day);
    PaddingReadsBack(Decimal(start.year), 4);
    PaddingReadsBack(Decimal(start.month), 2);
    PaddingReadsBack(Decimal(start.day), 2);
    PaddedToWidth(Decimal(start.year), 4);
    PaddedToWidth(Decimal(start.month), 2);
    PaddedToWidth(Decimal(start.day), 2);
    assert PARENT + "_" == "measurements_";
  }

  lemma NamesDiffer(a: Date, b: Date)
    requires IsDate(a) && IsDate(b) && PartitionName(a) == PartitionName(b)
    ensures a == b
  {
    NameReadsBack(a);
    NameReadsBack(b);
  }

  /** The default partition is not taken for a day's. */
  lemma DefaultIsNoDay()
    ensures ParsePartitionName(DEFAULT_PARTITION).None?
  {
    var suffix := "default";
    assert DEFAULT_PARTITION == PARENT + "_" + suffix;
    assert DEFAULT_PARTITION[|PARENT + "_"|..] == suffix;
    NoSplit(suffix, '_');
  }

  lemma {:induction false} NoSplit(text: string, at: char)
    requires at !in text
    ensures SplitOnce(text, at) == None
  {
    if text != "" {
      NoSplit(text[1..], at);
    }
  }
}
