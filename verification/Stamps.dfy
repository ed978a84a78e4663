/**
 * The time text the signup table stores (agenticsSignup.ts, `stamp`): a Date's toISOString cut to
 * YYYY-MM-DD HH:MM:SS. Every guard of the once-only protocols compares such texts, so this module shows what
 * a comparison of texts says about time.
 */
module Stamps {
  import opened Ordering
  import Decimals

  const MS_PER_SECOND := 1_000
  const MS_PER_DAY := 86_400_000
  const CLAIM_STALE_MS := 15 * 60_000
  const SEEN_EVERY_MS := 60 * 60_000

  /** The first millisecond of year 0 and of year 10000: between them an ISO year has four digits. */
  const FIRST_MS := -719_528 * MS_PER_DAY
  const END_MS := 2_932_897 * MS_PER_DAY

  predicate FourDigitYear(t: int) { FIRST_MS <= t < END_MS }

  // ── The calendar of ECMAScript dates ──────────────────────────────────────

  predicate Leap(y: int) { y % 4 == 0 && (y % 100 != 0 || y % 400 == 0) }

  function YearLength(y: nat): nat { if Leap(y) then 366 else 365 }

  /** The day number, counted from 1970-01-01, on which year `y` begins. */
  function FirstDay(y: nat): int {
    if y == 0 then -719_528 else FirstDay(y - 1) + YearLength(y - 1)
  }

  function LeapDaysBefore(y: nat): int { (y - 1969) / 4 - (y - 1901) / 100 + (y - 1601) / 400 }

  /** The closed form ECMAScript gives for DayFromYear. */
  lemma {:induction false} FirstDayFormula(y: nat)
    ensures FirstDay(y) == 365 * (y - 1970) + LeapDaysBefore(y)
  {
    if y > 0 {
      FirstDayFormula(y - 1);
      LeapDaysStep(y - 1);
    }
  }

  lemma LeapDaysStep(y: nat)
    ensures LeapDaysBefore(y + 1) == LeapDaysBefore(y) + YearLength(y) - 365
  {
    Fourth(y);
    Hundredth(y);
    FourHundredth(y);
  }

  lemma Fourth(y: nat)
    ensures (y - 1968) / 4 == (y - 1969) / 4 + (if y % 4 == 0 then 1 else 0)
  {
  }

  lemma Hundredth(y: nat)
    ensures (y - 1900) / 100 == (y - 1901) / 100 + (if y % 100 == 0 then 1 else 0)
    ensures y % 100 == 0 ==> y % 4 == 0
  {
  }

  lemma FourHundredth(y: nat)
    ensures (y - 1600) / 400 == (y - 1601) / 400 + (if y % 400 == 0 then 1 else 0)
    ensures y % 400 == 0 ==> y % 100 == 0
  {
  }

  /** The year `day` falls in, looked for from year `y` on. */
  function YearFrom(day: int, y: nat): (r: nat)
    requires FirstDay(y) <= day
    ensures r >= y && FirstDay(r) <= day < FirstDay(r + 1)
    decreases day - FirstDay(y)
  {
    if day < FirstDay(y + 1) then y else YearFrom(day, y + 1)
  }

  function MonthLength(m: nat, leap: bool): nat {
    if m == 1 then (if leap then 29 else 28) else if m == 3 || m == 5 || m == 8 || m == 10 then 30 else 31
  }

  /** Days before month `m` (0 is January) in a common or leap year. */
  function DaysBefore(m: nat, leap: bool): nat {
    if m == 0 then 0 else DaysBefore(m - 1, leap) + MonthLength(m - 1, leap)
  }

  lemma YearOfMonths(y: nat)
    ensures DaysBefore(12, Leap(y)) == YearLength(y)
  {
    if Leap(y) {
      assert DaysBefore(12, true) == 366;
    } else {
      assert DaysBefore(12, false) == 365;
    }
  }

  function MonthFrom(dayInYear: int, leap: bool, m: nat): (r: nat)
    requires m < 12 && DaysBefore(m, leap) <= dayInYear < DaysBefore(12, leap)
    ensures m <= r < 12 && DaysBefore(r, leap) <= dayInYear < DaysBefore(r + 1, leap)
    decreases 12 - m
  {
    if dayInYear < DaysBefore(m + 1, leap) then m else MonthFrom(dayInYear, leap, m + 1)
  }

  datatype Civil = Civil(year: nat, month: nat, day: nat)

  /** The calendar date of a day number from year 0 on; months and days count from 1. */
  function CivilOf(day: int): (c: Civil)
    requires FirstDay(0) <= day
    ensures IsCivilOf(c, day)
  {
    var y := YearFrom(day, 0);
    YearOfMonths(y);
    var m := MonthFrom(day - FirstDay(y), Leap(y), 0);
    Civil(y, m + 1, day - FirstDay(y) - DaysBefore(m, Leap(y)) + 1)
  }

  lemma {:induction false} FirstDaysAscend(y: nat, z: nat)
    requires y <= z
    ensures FirstDay(y) + 365 * (z - y) <= FirstDay(z)
    decreases z - y
  {
    if y < z { FirstDaysAscend(y, z - 1); }
  }

  predicate CivilBefore(a: Civil, b: Civil) {
    a.year < b.year || (a.year == b.year && (a.month < b.month || (a.month == b.month && a.day < b.day)))
  }

  lemma {:induction false} DaysBeforeAscends(m: nat, n: nat, leap: bool)
    requires m <= n
    ensures DaysBefore(m, leap) <= DaysBefore(n, leap)
  {
    if m < n { DaysBeforeAscends(m, n - 1, leap); }
  }

  /** `c` is the calendar date of `day`. */
  predicate IsCivilOf(c: Civil, day: int) {
    && FirstDay(c.year) <= day < FirstDay(c.year + 1)
    && 1 <= c.month <= 12 && 1 <= c.day <= MonthLength(c.month - 1, Leap(c.year))
    && day == FirstDay(c.year) + DaysBefore(c.month - 1, Leap(c.year)) + c.day - 1
  }

  /** A later day has a later calendar date. */
  lemma {:induction false} CivilAscends(d: int, a: Civil, e: int, b: Civil)
    requires IsCivilOf(a, d) && IsCivilOf(b, e) && d < e
    ensures CivilBefore(a, b)
  {
    if a.year > b.year {
      FirstDaysAscend(b.year + 1, a.year);
    } else if a.year == b.year {
      MonthsAscend(Leap(a.year), a.month, a.day, b.month, b.day);
    }
  }

  lemma {:induction false} MonthsAscend(leap: bool, m: nat, d: nat, n: nat, e: nat)
    requires 1 <= m && 1 <= n && 1 <= d <= MonthLength(m - 1, leap) && 1 <= e <= MonthLength(n - 1, leap)
    requires DaysBefore(m - 1, leap) + d < DaysBefore(n - 1, leap) + e
    ensures m < n || (m == n && d < e)
  {
    if m > n { DaysBeforeAscends(n, m - 1, leap); }
  }

  /** Year 10000 begins where END_MS says, and no earlier day is in it. */
  lemma {:induction false} FourDigitDays(day: int)
    requires FirstDay(0) <= day
    ensures CivilOf(day).year <= 9999 <==> day < 2_932_897
  {
    var n := 9999;
    FirstDayFormula(n + 1);
    var y := CivilOf(day).year;
    if y <= n { FirstDaysAscend(y + 1, n + 1); } else { FirstDaysAscend(n + 1, y); }
  }

  // ── The text ──────────────────────────────────────────────────────────────

  /** The last `w` decimal digits of `n`, with leading zeros. */
  function Pad(n: nat, w: nat): (s: string)
    ensures |s| == w
  {
    if w == 0 then "" else Pad(n / 10, w - 1) + [Decimals.DigitChar(n % 10)]
  }

  lemma {:induction false} PadAscends(a: nat, b: nat, w: nat)
    requires a < b < Decimals.Power10(w)
    ensures Less(Pad(a, w), Pad(b, w))
  {
    if a / 10 < b / 10 { PadAscends(a / 10, b / 10, w - 1); }
    LessOfConcat(Pad(a / 10, w - 1), [Decimals.DigitChar(a % 10)], Pad(b / 10, w - 1), [Decimals.DigitChar(b % 10)]);
    LessIsStrictOrder(Pad(a / 10, w - 1), Pad(a / 10, w - 1), "");
  }

  function DateText(c: Civil): string
  {
    Pad(c.year, 4) + ("-" + (Pad(c.month, 2) + ("-" + Pad(c.day, 2))))
  }

  function Hour(s: nat): nat { s / 3600 }

  function Minute(s: nat): nat { s / 60 % 60 }

  /** HH:MM:SS of a second of the day. */
  function ClockText(s: nat): string {
    Pad(Hour(s), 2) + (":" + (Pad(Minute(s), 2) + (":" + Pad(s % 60, 2))))
  }

  /** The day number and the second of the day of a time value. */
  function DayOf(t: int): int { Sec(t) / 86_400 }

  function SecondOfDay(t: int): nat { Sec(t) % 86_400 }

  /** toISOString from year 0 on: a year past 9999 is written with a sign and six digits. */
  function IsoText(t: int): string
    requires FirstDay(0) <= DayOf(t)
  {
    var c := CivilOf(DayOf(t));
    (if c.year <= 9999 then DateText(c) else "+" + Pad(c.year, 6) + "-" + Pad(c.month, 2) + "-" + Pad(c.day, 2))
    + "T" + (ClockText(SecondOfDay(t)) + "." + Pad(t % MS_PER_SECOND, 3) + "Z")
  }

  function ReplaceT(s: string): string {
    if s == "" then "" else if s[0] == 'T' then [' '] + s[1..] else [s[0]] + ReplaceT(s[1..])
  }

  /** `d.toISOString().slice(0, 19).replace('T', ' ')`. */
  function Stamp(t: int): string
    requires FirstDay(0) <= DayOf(t)
  {
    var iso := IsoText(t);
    ReplaceT(if |iso| <= 19 then iso else iso[..19])
  }

  lemma {:induction false} ReplaceAfter(a: string, b: string)
    requires 'T' !in a
    ensures ReplaceT(a + "T" + b) == a + " " + b
  {
    if a == "" {
      assert (a + "T" + b)[1..] == b;
      assert [' '] + b == a + " " + b;
    } else {
      ReplaceAfter(a[1..], b);
      assert (a + "T" + b)[1..] == a[1..] + "T" + b;
      assert a + " " + b == [a[0]] + (a[1..] + " " + b);
    }
  }

  lemma {:induction false} PadHasNoT(n: nat, w: nat)
    ensures 'T' !in Pad(n, w)
  {
    if w > 0 { PadHasNoT(n / 10, w - 1); }
  }

  lemma FourDigitYearDays(t: int)
    ensures FirstDay(0) == -719_528
    ensures FourDigitYear(t) <==> FirstDay(0) <= DayOf(t) < 2_932_897
  {
  }

  /** In the four-digit years a stamp is the date text, a space and the clock text. */
  lemma {:induction false} StampText(t: int)
    requires FourDigitYear(t)
    ensures FirstDay(0) <= DayOf(t) && CivilOf(DayOf(t)).year <= 9999
    ensures Stamp(t) == DateText(CivilOf(DayOf(t))) + (" " + ClockText(SecondOfDay(t)))
  {
    FourDigitYearDays(t);
    FourDigitDays(DayOf(t));
    var c := CivilOf(DayOf(t));
    var a, b := DateText(c), ClockText(SecondOfDay(t));
    DateTextHasNoT(c);
    hide Pad, CivilOf;
    assert |a| == 10 && |b| == 8;
    var rest := "." + Pad(t % MS_PER_SECOND, 3) + "Z";
    assert b + "." + Pad(t % MS_PER_SECOND, 3) + "Z" == b + rest;
    hide DateText, ClockText, ReplaceT;
    CutTo19(a, b, rest, IsoText(t));
  }

  lemma {:induction false} CutTo19(a: string, b: string, rest: string, iso: string)
    requires |a| == 10 && |b| == 8 && 'T' !in a && iso == a + "T" + (b + rest)
    ensures ReplaceT(if |iso| <= 19 then iso else iso[..19]) == a + (" " + b)
  {
    assert iso[..19] == a + "T" + b;
    assert |iso| <= 19 ==> iso == iso[..19];
    ReplaceAfter(a, b);
    assert a + " " + b == a + (" " + b);
  }

  lemma {:induction false} DateTextHasNoT(c: Civil)
    ensures 'T' !in DateText(c)
  {
    PadHasNoT(c.year, 4);
    PadHasNoT(c.month, 2);
    PadHasNoT(c.day, 2);
  }

  lemma {:induction false} LessByFields(a: string, b: string, x: string, y: string, sep: string)
    requires |a| == |b|
    ensures Less(a, b) ==> Less(a + (sep + x), b + (sep + y))
    ensures a == b && Less(x, y) ==> Less(a + (sep + x), b + (sep + y))
  {
    LessOfConcat(a, sep + x, b, sep + y);
    LessOfConcat(sep, x, sep, y);
  }

  lemma {:induction false} DateTextAscends(a: Civil, b: Civil)
    requires a.year <= 9999 && b.year <= 9999 && a.month <= 12 && b.month <= 12 && a.day <= 31 && b.day <= 31
    requires CivilBefore(a, b)
    ensures Less(DateText(a), DateText(b))
  {
    assert Decimals.Power10(2) == 100 && Decimals.Power10(4) == 10_000;
    var x, y := Pad(a.month, 2) + ("-" + Pad(a.day, 2)), Pad(b.month, 2) + ("-" + Pad(b.day, 2));
    LessByFields(Pad(a.year, 4), Pad(b.year, 4), x, y, "-");
    LessByFields(Pad(a.month, 2), Pad(b.month, 2), Pad(a.day, 2), Pad(b.day, 2), "-");
    if a.year < b.year {
      PadAscends(a.year, b.year, 4);
    } else if a.month < b.month {
      PadAscends(a.month, b.month, 2);
    } else {
      PadAscends(a.day, b.day, 2);
    }
  }

  lemma ClockFields(s: nat)
    ensures s == 3600 * Hour(s) + 60 * Minute(s) + s % 60
    ensures s < 86_400 ==> Hour(s) < 24
    ensures Minute(s) < 60 && s % 60 < 60
  {
  }

  lemma {:induction false} ClockTextAscends(s: nat, r: nat)
    requires s < r < 86_400
    ensures Less(ClockText(s), ClockText(r))
  {
    assert Decimals.Power10(2) == 100;
    ClockFields(s);
    ClockFields(r);
    var x, y := Pad(Minute(s), 2) + (":" + Pad(s % 60, 2)), Pad(Minute(r), 2) + (":" + Pad(r % 60, 2));
    LessByFields(Pad(Hour(s), 2), Pad(Hour(r), 2), x, y, ":");
    LessByFields(Pad(Minute(s), 2), Pad(Minute(r), 2), Pad(s % 60, 2), Pad(r % 60, 2), ":");
    if Hour(s) < Hour(r) {
      PadAscends(Hour(s), Hour(r), 2);
    } else if Minute(s) < Minute(r) {
      PadAscends(Minute(s), Minute(r), 2);
    } else {
      PadAscends(s % 60, r % 60, 2);
    }
  }

  lemma {:induction false} LaterSecondLaterStamp(t: int, u: int)
    requires FourDigitYear(t) && FourDigitYear(u) && Sec(t) < Sec(u)
    ensures FirstDay(0) <= DayOf(t) && FirstDay(0) <= DayOf(u) && Less(Stamp(t), Stamp(u))
  {
    StampText(t);
    StampText(u);
    LaterDayAndClock(DayOf(t), SecondOfDay(t), DayOf(u), SecondOfDay(u));
  }

  lemma {:induction false} LaterDayAndClock(d: int, s: nat, e: int, r: nat)
    requires FirstDay(0) <= d && FirstDay(0) <= e && CivilOf(e).year <= 9999 && s < 86_400 && r < 86_400
    requires d < e || (d == e && s < r)
    ensures Less(DateText(CivilOf(d)) + (" " + ClockText(s)), DateText(CivilOf(e)) + (" " + ClockText(r)))
  {
    LessByFields(DateText(CivilOf(d)), DateText(CivilOf(e)), ClockText(s), ClockText(r), " ");
    if d < e {
      CivilAscends(d, CivilOf(d), e, CivilOf(e));
      DateTextAscends(CivilOf(d), CivilOf(e));
    } else {
      ClockTextAscends(s, r);
    }
  }

  // ── What the comparison says ──────────────────────────────────────────────

  /** The whole second a time falls in: what a stamp keeps of it. */
  function Sec(t: int): int { t / MS_PER_SECOND }

  /** Comparing stamps is comparing whole seconds, for every year of four digits. */
  lemma {:induction false} StampOrderIsSecondOrder(t: int, u: int)
    requires FourDigitYear(t) && FourDigitYear(u)
    ensures FirstDay(0) <= DayOf(t) && FirstDay(0) <= DayOf(u)
    ensures Less(Stamp(t), Stamp(u)) <==> Sec(t) < Sec(u)
    ensures Stamp(t) == Stamp(u) <==> Sec(t) == Sec(u)
  {
    StampText(t);
    StampText(u);
    LessIsStrictOrder(Stamp(t), Stamp(u), "");
    if Sec(t) < Sec(u) {
      LaterSecondLaterStamp(t, u);
    } else if Sec(u) < Sec(t) {
      LaterSecondLaterStamp(u, t);
      LessIsStrictOrder(Stamp(u), Stamp(t), "");
    }
  }

  lemma {:induction false} PadIsDigits(n: nat, w: nat)
    ensures forall i | 0 <= i < w :: '0' <= Pad(n, w)[i] <= '9'
  {
    if w > 0 { PadIsDigits(n / 10, w - 1); }
  }

  /** Past year 9999 the order breaks: every stamp of year 10000 on sorts before every earlier one. */
  lemma {:induction false} StampOrderEndsWithYear9999(t: int, u: int)
    requires FourDigitYear(t) && END_MS <= u
    ensures FirstDay(0) <= DayOf(t) && FirstDay(0) <= DayOf(u)
    ensures Sec(t) < Sec(u) && Less(Stamp(u), Stamp(t))
  {
    StampText(t);
    FourDigitYearDays(u);
    assert FirstDay(0) <= DayOf(u);
    FourDigitDays(DayOf(u));
    PadIsDigits(CivilOf(DayOf(t)).year, 4);
    assert IsoText(u)[0] == '+';
    assert Stamp(t)[0] == Pad(CivilOf(DayOf(t)).year, 4)[0];
  }

  /** The text comparison of every guard, `column < ?`, on a column and an argument that are both stamps. */
  predicate StampBefore(t: int, u: int) {
    FirstDay(0) <= DayOf(t) && FirstDay(0) <= DayOf(u) && Less(Stamp(t), Stamp(u))
  }

  lemma {:induction false} StampBeforeIsSecondBefore(t: int, u: int)
    requires FourDigitYear(t) && FourDigitYear(u)
    ensures StampBefore(t, u) <==> Sec(t) < Sec(u)
  {
    StampOrderIsSecondOrder(t, u);
  }

  /**
   * A guard `column < stamp(now - window)` on a column written as stamp(written) never passes at an age of at
   * most `window` and always passes from one second more.
   */
  lemma {:induction false} GuardByAge(written: int, now: int, window: nat, cutoff: int)
    requires cutoff == now - window && window % MS_PER_SECOND == 0
    requires FourDigitYear(written) && FourDigitYear(cutoff)
    ensures now - written <= window ==> !StampBefore(written, cutoff)
    ensures now - written >= window + MS_PER_SECOND ==> StampBefore(written, cutoff)
  {
    var passes := StampBefore(written, cutoff);
    assert passes <==> Sec(written) < Sec(cutoff) by { StampBeforeIsSecondBefore(written, cutoff); }
    AgeInSeconds(written, now, window);
  }

  /** The guard's age rule on whole seconds. */
  lemma AgeInSeconds(written: int, now: int, window: nat)
    requires window % MS_PER_SECOND == 0
    ensures Sec(now - window) == Sec(now) - window / MS_PER_SECOND
    ensures now - written <= window ==> !(Sec(written) < Sec(now - window))
    ensures now - written >= window + MS_PER_SECOND ==> Sec(written) < Sec(now - window)
    ensures Sec(written) < Sec(now - window) ==> now - written > window
  {
  }
}
