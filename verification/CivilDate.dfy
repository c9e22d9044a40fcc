/** The operator's lease expiry: a civil date turned into Unix seconds by era arithmetic,
    proved equal to counting days one calendar unit at a time. */
module CivilDate {
  import opened Text

  const I64_MAX: nat := 0x7FFF_FFFF_FFFF_FFFF

  /** Division as Rust performs it on signed integers: towards zero. */
  function TruncDiv(a: int, b: int): int
    requires b > 0
  {
    if a >= 0 then a / b else -((-a) / b)
  }

  /** Days since 1970-01-01 by era, year of era and day of year. */
  function DaysFromCivil(year: int, month: int, day: int): int {
    var y := if month <= 2 then year - 1 else year;
    var era := TruncDiv(if y >= 0 then y else y - 399, 400);
    era * 146_097 + DayOfEra(y - era * 400, month, day) - 719_468
  }

  function DayOfEra(yoe: int, month: int, day: int): int {
    var mAdj := if month > 2 then month - 3 else month + 9;
    var doy := TruncDiv(153 * mAdj + 2, 5) + day - 1;
    yoe * 365 + TruncDiv(yoe, 4) - TruncDiv(yoe, 100) + doy
  }

  const I64_MIN: int := -0x8000_0000_0000_0000
  const I64_SPAN: nat := 0x1_0000_0000_0000_0000

  /** A 64-bit result as a release build computes it: wrapped around. */
  function Wrap(x: int): (r: int)
    ensures I64_MIN <= r <= I64_MAX
    decreases if x > I64_MAX then x - I64_MAX else if x < I64_MIN then I64_MIN - x else 0
  {
    if x > I64_MAX then Wrap(x - I64_SPAN)
    else if x < I64_MIN then Wrap(x + I64_SPAN)
    else x
  }

  /** Seconds since 1970-01-01. Wrapping the result is the same as wrapping step by step, as `StepByStep` shows. */
  function ExpirySeconds(year: int, month: int, day: int): int {
    Wrap(DaysFromCivil(year, month, day) * 86_400)
  }

  function ExpiryOfParts(parts: seq<string>): Option<int> {
    if |parts| != 3 then None
    else
      var (year, month, day) :=
        (ParseInt(parts[0], I64_MAX), ParseInt(parts[1], I64_MAX), ParseInt(parts[2], I64_MAX));
      if year.None? || month.None? || day.None? then None
      else if 1 <= month.value <= 12 && 1 <= day.value <= 31
      then Some(ExpirySeconds(year.value, month.value, day.value))
      else None
  }

  function ParseOperatorExpiry(date: Option<string>): Option<int> {
    match date
    case None => None
    case Some(s) => ExpiryOfParts(Split(Trim(s), '-'))
  }

  // -------------------------------------------------------------------------
  // The calendar, counted naively
  // -------------------------------------------------------------------------

  predicate IsLeap(y: int) {
    y % 4 == 0 && (y % 100 != 0 || y % 400 == 0)
  }

  function YearLength(y: int): int {
    if IsLeap(y) then 366 else 365
  }

  function MonthLength(y: int, m: int): int {
    if m == 2 then (if IsLeap(y) then 29 else 28)
    else if m == 4 || m == 6 || m == 9 || m == 11 then 30
    else 31
  }

  function DaysBeforeYear(y: nat): int {
    if y == 0 then 0 else DaysBeforeYear(y - 1) + YearLength(y - 1)
  }

  function DaysBeforeMonth(y: int, m: nat): int {
    if m <= 1 then 0 else DaysBeforeMonth(y, m - 1) + MonthLength(y, m - 1)
  }

  /** Days from 0000-01-01 of the proleptic Gregorian calendar. */
  function DayCount(y: nat, m: nat, d: int): int {
    DaysBeforeYear(y) + DaysBeforeMonth(y, m) + d - 1
  }

  /** The count of 1970-01-01, as `EpochCount` shows. */
  const UNIX_EPOCH: int := 719_528

  predicate ValidDate(y: int, m: int, d: int) {
    y >= 0 && 1 <= m <= 12 && 1 <= d <= MonthLength(y, m)
  }

  ghost predicate Earlier(y: int, m: int, d: int, y': int, m': int, d': int) {
    y < y' || (y == y' && (m < m' || (m == m' && d < d')))
  }

  // -------------------------------------------------------------------------
  // Era arithmetic is the naive count
  // -------------------------------------------------------------------------

  lemma Fourths(n: nat)
    ensures (n + 4) / 4 == (n + 3) / 4 + (if n % 4 == 0 then 1 else 0)
  {
  }

  lemma Hundredths(n: nat)
    ensures (n + 100) / 100 == (n + 99) / 100 + (if n % 100 == 0 then 1 else 0)
  {
  }

  lemma FourHundredths(n: nat)
    ensures (n + 400) / 400 == (n + 399) / 400 + (if n % 400 == 0 then 1 else 0)
  {
  }

  lemma Multiples(a: nat)
    ensures (100 * a) % 100 == 0 && (4 * a) % 4 == 0
  {
  }

  lemma Divisibility(n: nat)
    ensures n % 400 == 0 ==> n % 100 == 0
    ensures n % 100 == 0 ==> n % 4 == 0
  {
    if n % 400 == 0 {
      Multiples(4 * (n / 400));
      assert n == 100 * (4 * (n / 400));
    }
    if n % 100 == 0 {
      Multiples(25 * (n / 100));
      assert n == 4 * (25 * (n / 100));
    }
  }

  lemma {:induction false} YearsInClosedForm(y: nat)
    ensures DaysBeforeYear(y) == 365 * y + (y + 3) / 4 - (y + 99) / 100 + (y + 399) / 400
  {
    if y > 0 {
      YearsInClosedForm(y - 1);
      Fourths(y - 1);
      Hundredths(y - 1);
      FourHundredths(y - 1);
      Divisibility(y - 1);
    }
  }

  lemma MonthsInClosedForm(y: int, m: nat)
    requires 1 <= m <= 12
    ensures DaysBeforeMonth(y, m) ==
            if m <= 2 then 31 * (m - 1)
            else (153 * (m - 3) + 2) / 5 + 59 + (if IsLeap(y) then 1 else 0)
  {
    if m > 1 {
      MonthsInClosedForm(y, m - 1);
    }
  }

  /** Days before March 1 of a year, by era. */
  function MarchCount(y: nat): int {
    var yoe := y % 400;
    y / 400 * 146_097 + yoe * 365 + yoe / 4 - yoe / 100
  }

  lemma EraSplit(e: nat, r: nat)
    ensures (400 * e + r + 3) / 4 == 100 * e + (r + 3) / 4
    ensures (400 * e + r + 99) / 100 == 4 * e + (r + 99) / 100
    ensures (400 * e + r + 399) / 400 == e + (r + 399) / 400
  {
  }

  lemma ModFour(a: nat, r: nat)
    ensures (4 * a + r) % 4 == r % 4
  {
  }

  lemma ModHundred(a: nat, r: nat)
    ensures (100 * a + r) % 100 == r % 100
  {
  }

  lemma ModFourHundred(a: nat, r: nat)
    ensures (400 * a + r) % 400 == r % 400
  {
  }

  lemma LeapInEra(e: nat, r: nat)
    requires r < 400
    ensures IsLeap(400 * e + r) <==> r % 4 == 0 && (r % 100 != 0 || r == 0)
  {
    ModFour(100 * e, r);
    ModHundred(4 * e, r);
    ModFourHundred(e, r);
  }

  /** Leap days before the year against leap days before March of it, within an era. */
  lemma LeapDays(r: nat)
    requires r < 400
    ensures (r + 3) / 4 - (r + 99) / 100 + (r + 399) / 400
            + (if r % 4 == 0 && (r % 100 != 0 || r == 0) then 1 else 0) == r / 4 - r / 100 + 1
  {
    CeilingAndFloor(r);
    Divisibility(r);
  }

  lemma YearsByEra(e: nat, r: nat)
    ensures DaysBeforeYear(400 * e + r) ==
            146_097 * e + 365 * r + ((r + 3) / 4 - (r + 99) / 100 + (r + 399) / 400)
  {
    YearsInClosedForm(400 * e + r);
    EraSplit(e, r);
  }

  lemma MarchByEra(y: nat, e: nat, r: nat)
    requires y == 400 * e + r && r < 400
    ensures 146_097 * e + 365 * r + (r / 4 - r / 100) + 60 ==
            DaysBeforeYear(y) + 59 + (if IsLeap(y) then 1 else 0)
  {
    YearsByEra(e, r);
    LeapInEra(e, r);
    LeapDays(r);
  }

  lemma MarchInEra(y: nat, e: nat, r: nat)
    requires y == 400 * e + r && r < 400
    ensures MarchCount(y) == 146_097 * e + 365 * r + (r / 4 - r / 100)
  {
    assert y / 400 == e && y % 400 == r;
  }

  lemma MarchByYears(y: nat)
    ensures MarchCount(y) + 60 == DaysBeforeYear(y) + 59 + (if IsLeap(y) then 1 else 0)
  {
    var e, r := y / 400, y % 400;
    MarchInEra(y, e, r);
    MarchByEra(y, e, r);
  }

  lemma CeilingAndFloor(r: nat)
    ensures (r + 3) / 4 == r / 4 + (if r % 4 == 0 then 0 else 1)
    ensures (r + 99) / 100 == r / 100 + (if r % 100 == 0 then 0 else 1)
    ensures r < 400 ==> (r + 399) / 400 == if r == 0 then 0 else 1
  {
  }

  lemma CivilByMarch(y: nat, m: nat, d: int)
    requires 1 <= m <= 12
    ensures m > 2 ==>
              DaysFromCivil(y, m, d) == MarchCount(y) + (153 * (m - 3) + 2) / 5 + d - 1 - 719_468
    ensures m <= 2 && y > 0 ==>
              DaysFromCivil(y, m, d) == MarchCount(y - 1) + 306 + 31 * (m - 1) + d - 1 - 719_468
    ensures m <= 2 && y == 0 ==> DaysFromCivil(y, m, d) == 31 * (m - 1) + d - 1 - 719_528
  {
  }

  /** The constant subtracted is the distance of the epoch from 1 March of year 0, where eras begin. */
  lemma EpochCount()
    ensures DayCount(1970, 1, 1) == UNIX_EPOCH
    ensures DayCount(1970, 1, 1) - DayCount(0, 3, 1) == 719_468
  {
    YearsInClosedForm(1970);
    assert DaysBeforeMonth(0, 3) == 60;
  }

  /** For every date the parser lets through, February 31 included: the first of the month by
      naive count, plus the days after it. */
  lemma EraIsNaive(y: nat, m: nat, d: int)
    requires 1 <= m <= 12
    ensures DaysFromCivil(y, m, d) == DayCount(y, m, d) - UNIX_EPOCH
  {
    CivilByMarch(y, m, d);
    MonthsInClosedForm(y, m);
    if m > 2 {
      MarchByYears(y);
    } else if y > 0 {
      MarchByYears(y - 1);
    }
  }

  lemma {:induction false} YearsGrow(y: nat, y': nat)
    requires y < y'
    ensures DaysBeforeYear(y) + YearLength(y) <= DaysBeforeYear(y')
  {
    if y + 1 < y' {
      YearsGrow(y, y' - 1);
    }
  }

  lemma {:induction false} MonthsGrow(y: nat, m: nat, m': nat)
    requires 1 <= m < m' <= 13
    ensures DaysBeforeMonth(y, m) + MonthLength(y, m) <= DaysBeforeMonth(y, m')
  {
    if m + 1 < m' {
      MonthsGrow(y, m, m' - 1);
    }
  }

  lemma TwelveMonthsMakeAYear(y: nat)
    ensures DaysBeforeMonth(y, 13) == YearLength(y)
  {
    MonthsInClosedForm(y, 12);
  }

  lemma {:induction false} MonthsNonNegative(y: nat, m: nat)
    ensures DaysBeforeMonth(y, m) >= 0
  {
    if m > 1 {
      MonthsNonNegative(y, m - 1);
    }
  }

  lemma EarlierIffLess(y: nat, m: nat, d: int, y': nat, m': nat, d': int)
    requires ValidDate(y, m, d) && ValidDate(y', m', d')
    ensures Earlier(y, m, d, y', m', d') <==> DayCount(y, m, d) < DayCount(y', m', d')
  {
    if Earlier(y, m, d, y', m', d') {
      EarlierCountsLess(y, m, d, y', m', d');
    } else if Earlier(y', m', d', y, m, d) {
      EarlierCountsLess(y', m', d', y, m, d);
    }
  }

  lemma EarlierCountsLess(y: nat, m: nat, d: int, y': nat, m': nat, d': int)
    requires ValidDate(y, m, d) && ValidDate(y', m', d')
    requires Earlier(y, m, d, y', m', d')
    ensures DayCount(y, m, d) < DayCount(y', m', d')
  {
    if y < y' {
      YearsGrow(y, y');
      MonthsGrow(y, m, 13);
      TwelveMonthsMakeAYear(y);
      MonthsNonNegative(y', m');
    } else if m < m' {
      MonthsGrow(y, m, m');
    }
  }

  // -------------------------------------------------------------------------
  // Machine arithmetic
  // -------------------------------------------------------------------------

  lemma {:induction false} WrapOff(x: int) returns (k: int)
    ensures Wrap(x) == x + k * I64_SPAN
    decreases if x > I64_MAX then x - I64_MAX else if x < I64_MIN then I64_MIN - x else 0
  {
    if x > I64_MAX {
      k := WrapOff(x - I64_SPAN);
      k := k - 1;
    } else if x < I64_MIN {
      k := WrapOff(x + I64_SPAN);
      k := k + 1;
    } else {
      k := 0;
    }
  }

  lemma {:induction false} WrapShift(x: int, k: int)
    ensures Wrap(x + k * I64_SPAN) == Wrap(x)
    decreases if k >= 0 then k else -k
  {
    if k > 0 {
      WrapShift(x, k - 1);
    } else if k < 0 {
      WrapShift(x, k + 1);
    }
  }

  /** Wrapping early or late makes no difference. */
  lemma WrapOnce(a: int, b: int, c: int)
    ensures Wrap(Wrap(a) + b) == Wrap(a + b)
    ensures Wrap(Wrap(a) * c) == Wrap(a * c)
  {
    var k := WrapOff(a);
    assert Wrap(a) + b == (a + b) + k * I64_SPAN;
    WrapShift(a + b, k);
    assert Wrap(a) * c == a * c + (k * c) * I64_SPAN;
    WrapShift(a * c, k * c);
  }

  /** The steps that can overflow, each wrapped as the machine performs it. */
  function MachineSeconds(era: int, doe: int): int {
    Wrap(Wrap(Wrap(Wrap(era * 146_097) + doe) - 719_468) * 86_400)
  }

  lemma StepByStep(era: int, doe: int)
    ensures MachineSeconds(era, doe) == Wrap((era * 146_097 + doe - 719_468) * 86_400)
  {
    WrapOnce(era * 146_097, doe, 0);
    WrapOnce(era * 146_097 + doe, -719_468, 0);
    WrapOnce(era * 146_097 + doe - 719_468, 0, 86_400);
  }

  /** No step before the multiplication by 146 097 leaves the 64-bit range, whatever the year. */
  lemma SmallStepsFit(year: int, month: int, day: int)
    requires 0 <= year <= I64_MAX && 1 <= month <= 12 && 1 <= day <= 31
    ensures var y := if month <= 2 then year - 1 else year;
            var era := TruncDiv(if y >= 0 then y else y - 399, 400);
            var yoe := y - era * 400;
            && -400 <= y <= I64_MAX && -1 <= era <= I64_MAX && -400 <= era * 400 <= I64_MAX
            && 0 <= yoe < 400 && 0 <= DayOfEra(yoe, month, day) <= 146_100
  {
  }

  // -------------------------------------------------------------------------
  // The textual date
  // -------------------------------------------------------------------------

  /** A text seen as a date between blanks. */
  datatype Layout = Layout(before: string, year: string, month: string, day: string, after: string)

  function Middle(l: Layout): string {
    l.year + ['-'] + (l.month + ['-'] + l.day)
  }

  ghost predicate Writes(l: Layout, date: string, y: nat, m: nat, d: nat) {
    && IsBlank(l.before) && IsBlank(l.after) && date == l.before + Middle(l) + l.after
    && Spells(l.year, y, I64_MAX) && Spells(l.month, m, I64_MAX) && Spells(l.day, d, I64_MAX)
  }

  /** The text of a date whose month and day pass the range checks. */
  ghost predicate Reads(date: string, y: nat, m: nat, d: nat) {
    1 <= m <= 12 && 1 <= d <= 31 && exists l :: Writes(l, date, y, m, d)
  }

  lemma SpelledIsPlain(s: string, n: nat)
    requires Spells(s, n, I64_MAX)
    ensures s != [] && '-' !in s && !IsWhitespace(s[0]) && !IsWhitespace(s[|s| - 1])
  {
    var digits := AfterPlus(s);
    assert s[|s| - 1] == digits[|digits| - 1];
    assert forall i | 1 <= i < |s| :: IsDigit(s[i]);
  }

  lemma ThreeParts(a: string, b: string, c: string)
    requires '-' !in a && '-' !in b && '-' !in c
    ensures Split(a + ['-'] + (b + ['-'] + c), '-') == [a, b, c]
  {
    SplitOnceAt(a, '-', b + ['-'] + c);
    SplitOnceAt(b, '-', c);
    assert Split(c, '-') == [c];
    assert Split(b + ['-'] + c, '-') == [b, c];
  }

  lemma DateParts(l: Layout, date: string, y: nat, m: nat, d: nat)
    requires Writes(l, date, y, m, d)
    ensures Split(Trim(date), '-') == [l.year, l.month, l.day]
  {
    SpelledIsPlain(l.year, y);
    SpelledIsPlain(l.month, m);
    SpelledIsPlain(l.day, d);
    var core := Middle(l);
    assert core[0] == l.year[0] && core[|core| - 1] == l.day[|l.day| - 1];
    TrimBetween(l.before, core, l.after);
    ThreeParts(l.year, l.month, l.day);
  }

  lemma PartsAreNumbers(ys: string, ms: string, ds: string, y: nat, m: nat, d: nat)
    requires Spells(ys, y, I64_MAX) && Spells(ms, m, I64_MAX) && Spells(ds, d, I64_MAX)
    ensures ExpiryOfParts([ys, ms, ds]) ==
            if 1 <= m <= 12 && 1 <= d <= 31 then Some(ExpirySeconds(y, m, d)) else None
  {
    SpelledIffParsed(ys, y, I64_MAX);
    SpelledIffParsed(ms, m, I64_MAX);
    SpelledIffParsed(ds, d, I64_MAX);
  }

  /** A month or day out of range is refused, however it is spelled. */
  lemma OutOfRangeRefused(l: Layout, date: string, y: nat, m: nat, d: nat)
    requires Writes(l, date, y, m, d) && !(1 <= m <= 12 && 1 <= d <= 31)
    ensures ParseOperatorExpiry(Some(date)).None?
  {
    DateParts(l, date, y, m, d);
    PartsAreNumbers(l.year, l.month, l.day, y, m, d);
  }

  lemma ReadAs(date: string, y: nat, m: nat, d: nat, seconds: int)
    requires Reads(date, y, m, d) && seconds == ExpirySeconds(y, m, d)
    ensures ParseOperatorExpiry(Some(date)) == Some(seconds)
  {
    var l :| Writes(l, date, y, m, d);
    DateParts(l, date, y, m, d);
    PartsAreNumbers(l.year, l.month, l.day, y, m, d);
  }

  lemma ReadableParts(parts: seq<string>) returns (y: nat, m: nat, d: nat)
    requires ExpiryOfParts(parts).Some?
    ensures |parts| == 3 && Spells(parts[0], y, I64_MAX) && Spells(parts[1], m, I64_MAX) && Spells(parts[2], d, I64_MAX)
    ensures 1 <= m <= 12 && 1 <= d <= 31
  {
    y := ParseInt(parts[0], I64_MAX).value;
    m := ParseInt(parts[1], I64_MAX).value;
    d := ParseInt(parts[2], I64_MAX).value;
    SpelledIffParsed(parts[0], y, I64_MAX);
    SpelledIffParsed(parts[1], m, I64_MAX);
    SpelledIffParsed(parts[2], d, I64_MAX);
  }

  lemma AcceptedIsRead(date: string) returns (y: nat, m: nat, d: nat)
    requires ParseOperatorExpiry(Some(date)).Some?
    ensures Reads(date, y, m, d)
  {
    var parts := Split(Trim(date), '-');
    y, m, d := ReadableParts(parts);
    SplitThree(Trim(date), '-');
    var before, after := TrimmedWhole(date);
    assert Writes(Layout(before, parts[0], parts[1], parts[2], after), date, y, m, d);
  }

  /** Exactly the texts of such dates are accepted. */
  lemma ExpiryAcceptedIff(date: string)
    ensures ParseOperatorExpiry(Some(date)).Some? <==> exists y: nat, m: nat, d: nat :: Reads(date, y, m, d)
  {
    if ParseOperatorExpiry(Some(date)).Some? {
      var y, m, d := AcceptedIsRead(date);
    } else if y: nat, m: nat, d: nat :| Reads(date, y, m, d) {
      ReadAs(date, y, m, d, ExpirySeconds(y, m, d));
    }
  }

  lemma SecondsAreNaive(y: nat, m: nat, d: int)
    requires 1 <= m <= 12
    ensures ExpirySeconds(y, m, d) == Wrap(86_400 * (DayCount(y, m, d) - UNIX_EPOCH))
  {
    EraIsNaive(y, m, d);
  }

  /** The last day whose seconds fit, in the year 292 277 026 596. */
  const LAST_DAY: int := I64_MAX / 86_400

  lemma CountIsNonNegative(y: nat, m: nat, d: int)
    requires d >= 1
    ensures DayCount(y, m, d) >= 0
  {
    YearsInClosedForm(y);
    MonthsNonNegative(y, m);
  }

  /** The seconds are exact, not wrapped around, just when the date is no later than `LAST_DAY`. */
  lemma ExactIff(y: nat, m: nat, d: nat)
    requires 1 <= m <= 12 && d >= 1
    ensures var days := DayCount(y, m, d) - UNIX_EPOCH;
            ExpirySeconds(y, m, d) == 86_400 * days <==> days <= LAST_DAY
  {
    CountIsNonNegative(y, m, d);
    EraIsNaive(y, m, d);
  }

  /** Any decimal spelling of a date whose month and day pass the range checks is read as the
      naive count of that date, in wrapped seconds. */
  lemma ExpiryIsNaiveCount(date: string, y: nat, m: nat, d: nat)
    requires Reads(date, y, m, d)
    ensures ParseOperatorExpiry(Some(date)) == Some(Wrap(86_400 * (DayCount(y, m, d) - UNIX_EPOCH)))
  {
    SecondsAreNaive(y, m, d);
    ReadAs(date, y, m, d, ExpirySeconds(y, m, d));
  }

  /** A text is read as the naive count of its date, in seconds, exactly when the date is no later than `LAST_DAY`. */
  lemma ExpiryIsExactIff(date: string, y: nat, m: nat, d: nat)
    requires Reads(date, y, m, d)
    ensures var days := DayCount(y, m, d) - UNIX_EPOCH;
            ParseOperatorExpiry(Some(date)) == Some(86_400 * days) <==> days <= LAST_DAY
  {
    ReadAs(date, y, m, d, ExpirySeconds(y, m, d));
    ExactIff(y, m, d);
  }

  lemma DecimalSpells(n: nat)
    requires n <= I64_MAX
    ensures Spells(Decimal(n), n, I64_MAX)
  {
    assert IsDigit(Decimal(n)[0]);
  }

  /** A date written plainly. */
  lemma PlainDate(y: nat, m: nat, d: nat) returns (date: string)
    requires y <= I64_MAX && 1 <= m <= 12 && 1 <= d <= 31
    ensures date == Decimal(y) + "-" + (Decimal(m) + "-" + Decimal(d)) && Reads(date, y, m, d)
  {
    DecimalSpells(y);
    DecimalSpells(m);
    DecimalSpells(d);
    var l := Layout([], Decimal(y), Decimal(m), Decimal(d), []);
    date := Decimal(y) + "-" + (Decimal(m) + "-" + Decimal(d));
    assert date == [] + Middle(l) + [];
    assert Writes(l, date, y, m, d);
  }

  /** 1 January of the year 300 000 000 000 is not read exactly. */
  lemma FarDateWraps() returns (date: string)
    ensures Reads(date, 300_000_000_000, 1, 1)
    ensures ParseOperatorExpiry(Some(date)) != Some(86_400 * (DayCount(300_000_000_000, 1, 1) - UNIX_EPOCH))
  {
    date := PlainDate(300_000_000_000, 1, 1);
    YearsInClosedForm(300_000_000_000);
    ExpiryIsExactIff(date, 300_000_000_000, 1, 1);
  }

  /** The expiry read from a text follows the calendar, for valid dates up to `LAST_DAY`. */
  lemma ExpiryFollowsTheCalendar(a: string, b: string, y: nat, m: nat, d: nat, y': nat, m': nat, d': nat)
    requires Reads(a, y, m, d) && ValidDate(y, m, d) && DayCount(y, m, d) - UNIX_EPOCH <= LAST_DAY
    requires Reads(b, y', m', d') && ValidDate(y', m', d') && DayCount(y', m', d') - UNIX_EPOCH <= LAST_DAY
    ensures ParseOperatorExpiry(Some(a)).Some? && ParseOperatorExpiry(Some(b)).Some?
    ensures ParseOperatorExpiry(Some(a)).value < ParseOperatorExpiry(Some(b)).value <==> Earlier(y, m, d, y', m', d')
  {
    ExpiryIsExactIff(a, y, m, d);
    ExpiryIsExactIff(b, y', m', d');
    EarlierIffLess(y, m, d, y', m', d');
  }
}
