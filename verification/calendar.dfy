/**
  Day arithmetic behind the weekly goals: instants, calendar days and the
  Monday that starts the week containing a given day.
 */
module Calendar {

  /** Seconds since 1970-01-01T00:00:00Z. */
  type Instant = int

  /** Days since 1970-01-01, which is day 0. */
  type Day = int

  const SecondsPerDay: int := 86400

  /** Weekday numbers follow JavaScript's `Date.getDay`: 0 is Sunday, 1 Monday, ..., 6 Saturday. */
  const Sunday: int := 0
  const Monday: int := 1

  /** Day 0, 1970-01-01, was a Thursday. */
  const EpochWeekday: int := 4

  /** The calendar day an instant falls on (the `timestamp::date` truncation, taken in UTC). */
  function DayOf(t: Instant): (d: Day)
    ensures d * SecondsPerDay <= t < d * SecondsPerDay + SecondsPerDay
  {
    t / SecondsPerDay
  }

  /** The weekday of a day: the one of 0..6 that counts whole weeks from the epoch's Thursday. */
  function Weekday(d: Day): (w: int)
    ensures 0 <= w < 7
    ensures (d + EpochWeekday - w) % 7 == 0
    ensures d == 0 ==> w == EpochWeekday
  {
    (d + EpochWeekday) % 7
  }

  /** Moving `k` days moves the weekday by `k` modulo 7. */
  lemma WeekdayShift(d: Day, k: int)
    ensures Weekday(d + k) == (Weekday(d) + k) % 7
  {
    var q := (d + EpochWeekday) / 7;
    assert d + EpochWeekday == 7 * q + Weekday(d);
    assert d + k + EpochWeekday == 7 * q + (Weekday(d) + k);
    ModOfShifted(q, Weekday(d) + k);
  }

  lemma ModOfShifted(q: int, x: int)
    ensures (7 * q + x) % 7 == x % 7
  {
    var a := x % 7;
    var b := x / 7;
    assert x == 7 * b + a;
    assert 7 * q + x == 7 * (q + b) + a;
  }

  /** Two days with the same weekday that are less than a week apart are the same day. */
  lemma SameWeekdayNearby(a: Day, b: Day)
    requires Weekday(a) == Weekday(b)
    requires a <= b <= a + 6
    ensures a == b
  {
    WeekdayShift(a, b - a);
  }

  /**
    The Monday starting the week of `today` (goals.ts: `getDate() - getDay() +
    (getDay() === 0 ? -6 : 1)`): Sunday belongs to the week that started six
    days earlier, every other day to the Monday on or before it.
   */
  function WeekStart(today: Day): (monday: Day)
    ensures Weekday(monday) == Monday
    ensures today - 6 <= monday <= today
    ensures Weekday(today) == Sunday ==> monday == today - 6
  {
    var dow := Weekday(today);
    WeekdayShift(today, -dow + (if dow == Sunday then -6 else 1));
    today - dow + (if dow == Sunday then -6 else 1)
  }

  /** The week start is the only Monday among the seven days ending at `today`. */
  lemma WeekStartUnique(today: Day, d: Day)
    requires Weekday(d) == Monday
    requires today - 6 <= d <= today
    ensures d == WeekStart(today)
  {
    var ws := WeekStart(today);
    if d <= ws {
      SameWeekdayNearby(d, ws);
    } else {
      SameWeekdayNearby(ws, d);
    }
  }

  /** Every day from a week start through the following Sunday maps back to that week start. */
  lemma WeekStartConstantOnWeek(today: Day, d: Day)
    requires WeekStart(today) <= d <= WeekStart(today) + 6
    ensures WeekStart(d) == WeekStart(today)
  {
    WeekStartUnique(d, WeekStart(today));
  }

  /** The last day of the goal window (goals.ts adds six days to the week start). */
  function WeekEnd(today: Day): (sunday: Day)
    ensures Weekday(sunday) == Sunday
    ensures sunday - WeekStart(today) == 6
    ensures today <= sunday
  {
    WeekdayShift(WeekStart(today), 6);
    WeekStart(today) + 6
  }
}
