/** The proleptic Gregorian calendar, as Date.UTC and the date formatter use it. Times are whole seconds. */
module CivilTime {

  datatype Fields = Fields(year: int, month: int, day: int, hour: int, minute: int, second: int)

  predicate Leap(y: int) {
    y % 4 == 0 && (y % 100 != 0 || y % 400 == 0)
  }

  /** Days from the start of year 0 to the start of year y. */
  function DaysBeforeYear(y: int): int {
    365 * y + (y + 3) / 4 - (y + 99) / 100 + (y + 399) / 400
  }

  function DaysIn(y: int, month: int): int {
    if month == 2 then (if Leap(y) then 29 else 28)
    else if month == 4 || month == 6 || month == 9 || month == 11 then 30
    else 31
  }

  function DaysBeforeMonth(y: int, month: int): int
    requires 1 <= month <= 13
  {
    if month == 1 then 0 else DaysBeforeMonth(y, month - 1) + DaysIn(y, month - 1)
  }

  predicate Valid(f: Fields) {
    && 1 <= f.month <= 12 && 1 <= f.day <= DaysIn(f.year, f.month)
    && 0 <= f.hour < 24 && 0 <= f.minute < 60 && 0 <= f.second < 60
  }

  const DAY := 86400

  function Clock(f: Fields): int {
    f.hour * 3600 + f.minute * 60 + f.second
  }

  /** Days since 1970-01-01. */
  function DayNumber(f: Fields): int
    requires 1 <= f.month <= 12
  {
    DaysBeforeYear(f.year) - DaysBeforeYear(1970) + DaysBeforeMonth(f.year, f.month) + f.day - 1
  }

  function Utc(f: Fields): int
    requires 1 <= f.month <= 12
  {
    DayNumber(f) * DAY + Clock(f)
  }

  /** Date.UTC: two-digit years mean 19xx, and months past December carry into the year. */
  function DateUtc(f: Fields): int {
    var year := if 0 <= f.year <= 99 then 1900 + f.year else f.year;
    Utc(f.(year := year + (f.month - 1) / 12, month := (f.month - 1) % 12 + 1))
  }

  // ----- every second has exactly one civil reading

  lemma YearLength(y: int)
    ensures DaysBeforeYear(y + 1) == DaysBeforeYear(y) + 365 + (if Leap(y) then 1 else 0)
  {
    CarryFour(y);
    CarryHundred(y);
    CarryFourHundred(y);
    RulesNest(y);
  }

  lemma CarryFour(y: int)
    ensures (y + 1 + 3) / 4 == (y + 3) / 4 + (if y % 4 == 0 then 1 else 0)
  {
  }

  lemma CarryHundred(y: int)
    ensures (y + 1 + 99) / 100 == (y + 99) / 100 + (if y % 100 == 0 then 1 else 0)
  {
  }

  lemma CarryFourHundred(y: int)
    ensures (y + 1 + 399) / 400 == (y + 399) / 400 + (if y % 400 == 0 then 1 else 0)
  {
  }

  lemma RulesNest(y: int)
    ensures y % 400 == 0 ==> y % 100 == 0
    ensures y % 100 == 0 ==> y % 4 == 0
  {
  }

  lemma {:induction false} YearsGrow(a: int, b: int)
    requires a <= b
    ensures DaysBeforeYear(b) >= DaysBeforeYear(a) + 365 * (b - a)
    decreases b - a
  {
    if a < b {
      YearsGrow(a, b - 1);
      YearLength(b - 1);
    }
  }

  lemma YearIsMonths(y: int)
    ensures DaysBeforeMonth(y, 13) == 365 + (if Leap(y) then 1 else 0)
  {
    assert DaysBeforeMonth(y, 2) == 31;
    assert DaysBeforeMonth(y, 3) == 31 + DaysIn(y, 2);
    assert DaysBeforeMonth(y, 5) == DaysBeforeMonth(y, 3) + 61;
    assert DaysBeforeMonth(y, 7) == DaysBeforeMonth(y, 5) + 61;
    assert DaysBeforeMonth(y, 9) == DaysBeforeMonth(y, 7) + 62;
    assert DaysBeforeMonth(y, 11) == DaysBeforeMonth(y, 9) + 61;
  }

  lemma {:induction false} MonthsGrow(y: int, a: int, b: int)
    requires 1 <= a <= b <= 13
    ensures DaysBeforeMonth(y, a) <= DaysBeforeMonth(y, b)
    ensures a < b ==> DaysBeforeMonth(y, a) + DaysIn(y, a) <= DaysBeforeMonth(y, b)
    decreases b - a
  {
    if a < b {
      MonthsGrow(y, a, b - 1);
    }
  }

  /** The day of a valid date lies inside its year. */
  lemma DayInYear(f: Fields)
    requires Valid(f)
    ensures DaysBeforeYear(f.year) <= DayNumber(f) + DaysBeforeYear(1970) < DaysBeforeYear(f.year + 1)
  {
    MonthsGrow(f.year, 1, f.month);
    MonthsGrow(f.year, f.month, 13);
    YearIsMonths(f.year);
    YearLength(f.year);
  }

  lemma SplitDay(days: int, clock: int, days': int, clock': int)
    requires 0 <= clock < DAY && 0 <= clock' < DAY && days * DAY + clock == days' * DAY + clock'
    ensures days == days' && clock == clock'
  {
  }

  lemma SameClock(f: Fields, g: Fields)
    requires Valid(f) && Valid(g) && Clock(f) == Clock(g)
    ensures f.hour == g.hour && f.minute == g.minute && f.second == g.second
  {
    assert f.hour * 60 + f.minute == g.hour * 60 + g.minute;
  }

  /** One day lies in one year, month and day of month. */
  lemma SameDate(f: Fields, g: Fields)
    requires Valid(f) && Valid(g) && DayNumber(f) == DayNumber(g)
    ensures f.year == g.year && f.month == g.month && f.day == g.day
  {
    hide DaysBeforeYear, DaysBeforeMonth;
    DayInYear(f);
    DayInYear(g);
    if f.year < g.year {
      YearsGrow(f.year + 1, g.year);
    } else if g.year < f.year {
      YearsGrow(g.year + 1, f.year);
    }
    assert f.year == g.year;
    if f.month < g.month {
      MonthsGrow(f.year, f.month, g.month);
    } else if g.month < f.month {
      MonthsGrow(f.year, g.month, f.month);
    }
  }

  /** Two valid readings of one second are the same reading. */
  lemma ReadingIsUnique(f: Fields, g: Fields)
    requires Valid(f) && Valid(g) && Utc(f) == Utc(g)
    ensures f == g
  {
    hide DayNumber;
    SplitDay(DayNumber(f), Clock(f), DayNumber(g), Clock(g));
    SameDate(f, g);
    SameClock(f, g);
  }

  /** Some year contains every day. */
  lemma {:induction false} YearExists(day: int, guess: int) returns (y: int)
    ensures DaysBeforeYear(y) <= day < DaysBeforeYear(y + 1)
    decreases if day < DaysBeforeYear(guess) then DaysBeforeYear(guess) - day else day - DaysBeforeYear(guess),
              day < DaysBeforeYear(guess)
  {
    YearLength(guess);
    YearLength(guess - 1);
    if day < DaysBeforeYear(guess) {
      if DaysBeforeYear(guess - 1) <= day {
        y := guess - 1;
      } else {
        y := YearExists(day, guess - 1);
      }
    } else if day < DaysBeforeYear(guess + 1) {
      y := guess;
    } else {
      y := YearExists(day, guess + 1);
    }
  }

  lemma {:induction false} MonthExists(y: int, day: int, m: int) returns (month: int)
    requires 1 <= m <= 13 && 0 <= day < DaysBeforeMonth(y, m)
    ensures 1 <= month <= 12 && DaysBeforeMonth(y, month) <= day < DaysBeforeMonth(y, month) + DaysIn(y, month)
  {
    if day < DaysBeforeMonth(y, m - 1) {
      month := MonthExists(y, day, m - 1);
    } else {
      month := m - 1;
    }
  }

  lemma ReadingExists(t: int)
    ensures exists f :: Valid(f) && Utc(f) == t
  {
    var days, clock := t / DAY, t % DAY;
    var day := days + DaysBeforeYear(1970);
    var y := YearExists(day, 1970);
    YearLength(y);
    YearIsMonths(y);
    var month := MonthExists(y, day - DaysBeforeYear(y), 13);
    var hour, minute, second := ClockExists(clock);
    var f := Fields(y, month, day - DaysBeforeYear(y) - DaysBeforeMonth(y, month) + 1, hour, minute, second);
    assert DayNumber(f) == days && Clock(f) == clock;
    assert Valid(f) && Utc(f) == t;
  }

  lemma ClockExists(clock: int) returns (hour: int, minute: int, second: int)
    requires 0 <= clock < DAY
    ensures 0 <= hour < 24 && 0 <= minute < 60 && 0 <= second < 60
    ensures clock == hour * 3600 + minute * 60 + second
  {
    var minutes := clock / 60;
    hour, minute, second := minutes / 60, minutes % 60, clock % 60;
  }

  /** The civil reading of a second count: what the formatter shows. */
  ghost function Reading(t: int): (f: Fields)
    ensures Valid(f) && Utc(f) == t
  {
    ReadingExists(t);
    var f :| Valid(f) && Utc(f) == t; f
  }

  /** The start of year 100; earlier years are misread by Date.UTC. */
  const YEAR_100: int := -59011459200

  /** The start of year 1; the formatter drops the era, so earlier years look like later ones. */
  const YEAR_1: int := -62135596800

  lemma Year100Starts()
    ensures DaysBeforeYear(100) - DaysBeforeYear(1970) == -683003 && YEAR_100 == -683003 * DAY
  {
  }

  lemma LateYear(f: Fields)
    requires Valid(f) && Utc(f) >= YEAR_100
    ensures f.year >= 100
  {
    DayInYear(f);
    Year100Starts();
    assert 0 <= Clock(f) < DAY;
    assert DayNumber(f) >= -683003;
    if f.year < 100 {
      YearsGrow(f.year + 1, 100);
    }
  }

  /** From year 100 on, Date.UTC reads valid fields as they are. */
  lemma PlainDateUtc(f: Fields)
    requires Valid(f) && f.year >= 100
    ensures DateUtc(f) == Utc(f)
  {
    assert (f.month - 1) / 12 == 0 && (f.month - 1) % 12 + 1 == f.month;
    assert f.(year := f.year + (f.month - 1) / 12, month := (f.month - 1) % 12 + 1) == f;
  }

  /** A moment from year 100 on is read and written back. */
  lemma ReadingRoundTrip(t: int)
    requires t >= YEAR_100
    ensures Reading(t).year >= 100 && DateUtc(Reading(t)) == t
  {
    LateYear(Reading(t));
    PlainDateUtc(Reading(t));
  }

  /** A local time to the minute. */
  function ToMinute(f: Fields): Fields {
    f.(second := 0)
  }

  lemma MinuteReading(t: int)
    ensures Reading(t - Reading(t).second) == ToMinute(Reading(t))
  {
    var f := Reading(t);
    assert Valid(ToMinute(f)) && Utc(ToMinute(f)) == t - f.second;
    ReadingIsUnique(Reading(t - f.second), ToMinute(f));
  }
}
