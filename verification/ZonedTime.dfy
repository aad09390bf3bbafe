/**
 * Zoned date-time input in the chart core (web/chart_core.js: formatRangeInput,
 * parseZonedDateTime): four corrections of a guess invert the formatting of an
 * instant in a time zone. Instants and offsets are whole seconds.
 */
module ZonedTime {
  import opened Options
  import opened CivilTime

  // ----- the correction, on instants alone

  /** The n-th guess: each adds what its predecessor's representation is short of the target. */
  function Guess(target: int, parts: int -> Fields, utc: Fields -> int, n: nat): int {
    if n == 0 then target
    else
      var g := Guess(target, parts, utc, n - 1);
      g + target - utc(parts(g))
  }

  /** Near the target a zone shows an instant shifted by its offset, which changes at most once. */
  ghost predicate OneTransition(target: int, parts: int -> Fields, utc: Fields -> int, off: int -> int, w: nat, change: int, a: int, b: int) {
    forall x: int | target - w <= x <= target + w ::
      && utc(parts(x)) == x + off(x)
      && -(w as int) <= off(x) <= w
      && off(x) == if x < change then a else b
  }

  lemma {:induction false} GuessIs(target: int, parts: int -> Fields, utc: Fields -> int, off: int -> int, w: nat, change: int, a: int, b: int, n: nat)
    requires OneTransition(target, parts, utc, off, w, change, a, b)
    ensures n > 0 ==> Guess(target, parts, utc, n) == target - off(Guess(target, parts, utc, n - 1))
    ensures target - w <= Guess(target, parts, utc, n) <= target + w
  {
    if n > 0 {
      GuessIs(target, parts, utc, off, w, change, a, b, n - 1);
    }
  }

  /** If some instant near the target represents it, so does the fourth guess. */
  lemma GuessSettles(target: int, parts: int -> Fields, utc: Fields -> int, off: int -> int, w: nat, change: int, a: int, b: int, x: int)
    requires OneTransition(target, parts, utc, off, w, change, a, b)
    requires target - w <= x <= target + w && x + off(x) == target
    ensures var g := Guess(target, parts, utc, 4); g + off(g) == target
  {
    GuessIs(target, parts, utc, off, w, change, a, b, 1);
    GuessIs(target, parts, utc, off, w, change, a, b, 2);
    GuessIs(target, parts, utc, off, w, change, a, b, 3);
    GuessIs(target, parts, utc, off, w, change, a, b, 4);
  }

  // ----- parsing and formatting, for any calendar

  function Parsed(desired: Fields, parts: int -> Fields, utc: Fields -> int): Option<int> {
    var g := Guess(utc(desired), parts, utc, 4);
    if parts(g) == desired then Some(g) else None
  }

  /** parseZonedDateTime after its pattern match; `parts` is the zone's formatter. */
  method ParseZoned(desired: Fields, parts: int -> Fields) returns (r: Option<int>)
    ensures r == Parsed(desired, parts, DateUtc)
  {
    var target := DateUtc(desired);
    var guess := target;
    for i := 0 to 4
      invariant guess == Guess(target, parts, DateUtc, i)
    {
      guess := guess + target - DateUtc(parts(guess));
    }
    if parts(guess) != desired {
      return None;
    }
    r := Some(guess);
  }

  /** From year 100 on, `utc` undoes `reading`. */
  ghost predicate Calendar(reading: int -> Fields, utc: Fields -> int) {
    && (forall t: int | t >= YEAR_100 :: reading(t).year >= 100)
    && (forall t: int | reading(t).year >= 100 :: utc(reading(t)) == t)
  }

  /** The formatter shows instants of the common era shifted by the zone's offset of at most w seconds. */
  ghost predicate Formats(parts: int -> Fields, reading: int -> Fields, off: int -> int, w: nat) {
    forall x: int ::
      && -(w as int) <= off(x) <= w
      && (x + off(x) >= YEAR_1 ==> parts(x) == reading(x + off(x)))
  }

  /** A zone with at most one offset change within w of the target, which lies far enough after year 100. */
  datatype Zone = Zone(parts: int -> Fields, off: int -> int, w: nat, change: int, a: int, b: int)

  /** An instant of the common era that the zone shows as the given local time. */
  predicate Shows(z: Zone, x: int, desired: Fields) {
    x + z.off(x) >= YEAR_1 && z.parts(x) == desired
  }

  ghost predicate Situation(z: Zone, target: int, reading: int -> Fields) {
    && Formats(z.parts, reading, z.off, z.w) && target >= YEAR_100 + 2 * z.w
    && forall x: int | target - z.w <= x <= target + z.w :: z.off(x) == if x < z.change then z.a else z.b
  }

  /** Pointwise: what a late local time represents. */
  lemma RepresentedAt(z: Zone, reading: int -> Fields, utc: Fields -> int, x: int)
    requires Calendar(reading, utc) && Formats(z.parts, reading, z.off, z.w) && x + z.off(x) >= YEAR_100
    ensures z.parts(x) == reading(x + z.off(x)) && z.parts(x).year >= 100 && utc(z.parts(x)) == x + z.off(x)
  {
  }

  lemma SituationIsOneTransition(z: Zone, target: int, reading: int -> Fields, utc: Fields -> int)
    requires Calendar(reading, utc) && Situation(z, target, reading)
    ensures OneTransition(target, z.parts, utc, z.off, z.w, z.change, z.a, z.b)
  {
    forall x: int | target - z.w <= x <= target + z.w
      ensures utc(z.parts(x)) == x + z.off(x) && -(z.w as int) <= z.off(x) <= z.w
    {
      RepresentedAt(z, reading, utc, x);
    }
  }

  /** The fourth guess of a zone stays near its target, and hits it if any instant does. */
  lemma FourthGuess(z: Zone, target: int, reading: int -> Fields, utc: Fields -> int, x: int) returns (g: int)
    requires Calendar(reading, utc) && Situation(z, target, reading)
    ensures g == Guess(target, z.parts, utc, 4) && target - z.w <= g <= target + z.w
    ensures target - z.w <= x <= target + z.w && x + z.off(x) == target ==> g + z.off(g) == target
  {
    g := Guess(target, z.parts, utc, 4);
    SituationIsOneTransition(z, target, reading, utc);
    GuessIs(target, z.parts, utc, z.off, z.w, z.change, z.a, z.b, 4);
    if target - z.w <= x <= target + z.w && x + z.off(x) == target {
      GuessSettles(target, z.parts, utc, z.off, z.w, z.change, z.a, z.b, x);
    }
  }

  lemma SettlesOn(z: Zone, desired: Fields, reading: int -> Fields, utc: Fields -> int, x: int)
    requires Calendar(reading, utc) && Situation(z, utc(desired), reading) && desired.year >= 100
    requires Shows(z, x, desired)
    ensures Shows(z, Guess(utc(desired), z.parts, utc, 4), desired)
  {
    var target := utc(desired);
    assert z.parts(x) == reading(x + z.off(x)) && -(z.w as int) <= z.off(x) <= z.w;
    var g := FourthGuess(z, target, reading, utc, x);
    assert z.parts(g) == reading(g + z.off(g));
  }

  lemma EarlyYearFails(z: Zone, desired: Fields, reading: int -> Fields, utc: Fields -> int)
    requires Calendar(reading, utc) && Situation(z, utc(desired), reading) && desired.year <= 99
    ensures Parsed(desired, z.parts, utc).None?
  {
    var g := FourthGuess(z, utc(desired), reading, utc, 0);
    RepresentedAt(z, reading, utc, g);
  }

  // ----- with Date.UTC and the Gregorian calendar

  ghost function Readings(): int -> Fields {
    t => Reading(t)
  }

  lemma GregorianIsCalendar()
    ensures Calendar(Readings(), DateUtc)
  {
    forall t: int ensures t >= YEAR_100 ==> Reading(t).year >= 100 {
      if t >= YEAR_100 {
        ReadingRoundTrip(t);
      }
    }
    forall t: int | Reading(t).year >= 100 ensures DateUtc(Reading(t)) == t {
      PlainDateUtc(Reading(t));
    }
  }

  /**
   * With at most one offset change near the target, parsing succeeds exactly when some
   * instant of the common era shows the desired local time, and then returns such an instant.
   */
  lemma ParseExact(z: Zone, desired: Fields)
    requires Situation(z, DateUtc(desired), Readings()) && desired.year >= 100
    ensures Parsed(desired, z.parts, DateUtc).Some? <==> exists x: int :: Shows(z, x, desired)
    ensures Parsed(desired, z.parts, DateUtc).Some? ==> Shows(z, Parsed(desired, z.parts, DateUtc).value, desired)
  {
    GregorianIsCalendar();
    if x: int :| Shows(z, x, desired) {
      SettlesOn(z, desired, Readings(), DateUtc, x);
    }
    var g := FourthGuess(z, DateUtc(desired), Readings(), DateUtc, 0);
    assert g + z.off(g) >= YEAR_1;
    if Parsed(desired, z.parts, DateUtc).Some? {
      assert Shows(z, g, desired);
    }
  }

  /** An unambiguous local time parses back to the instant it came from. */
  lemma ParseInvertsFormat(z: Zone, x: int)
    requires Situation(z, DateUtc(z.parts(x)), Readings()) && z.parts(x).year >= 100
    requires Shows(z, x, z.parts(x)) && forall y: int | Shows(z, y, z.parts(x)) :: y == x
    ensures Parsed(z.parts(x), z.parts, DateUtc) == Some(x)
  {
    GregorianIsCalendar();
    SettlesOn(z, z.parts(x), Readings(), DateUtc, x);
  }

  lemma MinuteStarts(z: Zone, x: int, s: int)
    requires Formats(z.parts, Readings(), z.off, z.w) && s == z.parts(x).second && z.off(x - s) == z.off(x)
    requires x + z.off(x) >= YEAR_1 && x - s + z.off(x) >= YEAR_1
    ensures z.parts(x - s) == ToMinute(z.parts(x))
  {
    var t := x + z.off(x);
    assert z.parts(x) == Readings()(t) == Reading(t);
    assert z.parts(x - s) == Readings()(t - s) == Reading(t - s);
    MinuteReading(t);
  }

  /** The range input gives back the minute of an instant whose local minute is unambiguous. */
  lemma MinuteRoundTrip(z: Zone, x: int, start: int)
    requires Situation(z, DateUtc(ToMinute(z.parts(x))), Readings()) && z.parts(x).year >= 100
    requires start == x - z.parts(x).second && z.off(start) == z.off(x)
    requires x + z.off(x) >= YEAR_1 && start + z.off(start) >= YEAR_1
    requires forall y: int | Shows(z, y, ToMinute(z.parts(x))) :: y == start
    ensures Parsed(ToMinute(z.parts(x)), z.parts, DateUtc) == Some(start)
  {
    MinuteStarts(z, x, z.parts(x).second);
    ParseInvertsFormat(z, start);
  }

  /** Years before 100 never parse: Date.UTC takes them for 19xx. */
  lemma EarlyYearsNeverParse(z: Zone, desired: Fields)
    requires Situation(z, DateUtc(desired), Readings()) && desired.year <= 99
    ensures Parsed(desired, z.parts, DateUtc).None?
  {
    GregorianIsCalendar();
    EarlyYearFails(z, desired, Readings(), DateUtc);
  }

  /** Two changes near `target`: `unit` behind up to it, level after it, and later 5 * `unit` behind. */
  function Offset(target: int, unit: nat, x: int): int {
    if x <= target then 0 - unit else if x < target + 5 * unit then 0 else 0 - 5 * unit
  }

  ghost function TwiceChanging(target: int, unit: nat): Zone {
    Zone(x => Reading(x + Offset(target, unit, x)), x => Offset(target, unit, x), 5 * unit, target, 0, 0)
  }

  lemma Circles(target: int, parts: int -> Fields, utc: Fields -> int, unit: int)
    requires utc(parts(target)) == target - unit && utc(parts(target + unit)) == target + unit
    ensures Guess(target, parts, utc, 4) == target
  {
    assert Guess(target, parts, utc, 1) == target + unit;
    assert Guess(target, parts, utc, 2) == target;
    assert Guess(target, parts, utc, 3) == target + unit;
  }

  lemma TwiceChangingAt(target: int, unit: nat, x: int)
    ensures var z, off := TwiceChanging(target, unit), Offset(target, unit, x);
            z.off(x) == off && z.parts(x) == Readings()(x + off) == Reading(x + off)
  {
  }

  lemma TwiceChangingFormats(target: int, unit: nat)
    ensures var z := TwiceChanging(target, unit); Formats(z.parts, Readings(), z.off, z.w)
  {
    hide TwiceChanging, Reading, Readings, Valid, Utc;
    var z := TwiceChanging(target, unit);
    assert z.w == 5 * unit by { TwiceChangingWidth(target, unit); }
    forall x: int
      ensures -(z.w as int) <= z.off(x) <= z.w && (x + z.off(x) >= YEAR_1 ==> z.parts(x) == Readings()(x + z.off(x)))
    {
      TwiceChangingAt(target, unit, x);
    }
  }

  lemma TwiceChangingWidth(target: int, unit: nat)
    ensures TwiceChanging(target, unit).w == 5 * unit
  {
  }

  /** In such a zone the correction circles past an instant that shows the local time: it is shown but does not parse. */
  lemma SeveralTransitionsCanFail(target: int, unit: nat)
    requires unit > 0 && target >= YEAR_100 + 10 * unit
    ensures var z := TwiceChanging(target, unit);
            && Formats(z.parts, Readings(), z.off, z.w) && Shows(z, target + 5 * unit, Reading(target))
            && Parsed(Reading(target), z.parts, DateUtc).None?
  {
    hide DateUtc, Reading, TwiceChanging, Formats, Guess, Valid, Utc;
    var z := TwiceChanging(target, unit);
    TwiceChangingFormats(target, unit);
    TwiceChangingAt(target, unit, target);
    TwiceChangingAt(target, unit, target + unit);
    TwiceChangingAt(target, unit, target + 5 * unit);
    ReadingRoundTrip(target);
    ReadingRoundTrip(target - unit);
    ReadingRoundTrip(target + unit);
    Circles(target, z.parts, DateUtc, unit);
  }
}
