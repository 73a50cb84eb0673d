/** Calendar dates and instants as Python's `datetime` counts them. */
module Clock {

  const MICROS_PER_SECOND := 1_000_000
  const SECONDS_PER_DAY := 86_400
  const MICROS_PER_DAY := 86_400_000_000

  /** A calendar date as `date.toordinal()` numbers it: day 1 is Monday 0001-01-01. */
  type Date = int

  /** A naive `datetime` as microseconds since 0001-01-01 00:00:00. */
  type Instant = int

  /** A clock time with minute precision, 00:00 to 23:59, as minutes after midnight. */
  type MinuteOfDay = m: int | 0 <= m < 24 * 60

  /** `t.date()`. */
  function DayOf(t: Instant): Date {
    t / MICROS_PER_DAY + 1
  }

  /** `datetime.combine(d, time(0, 0))`. */
  function Midnight(d: Date): Instant {
    (d - 1) * MICROS_PER_DAY
  }

  /** `datetime.combine(d, time(minute // 60, minute % 60))`. */
  function Combine(d: Date, minute: MinuteOfDay): Instant {
    Midnight(d) + minute * 60 * MICROS_PER_SECOND
  }

  /** `d.weekday()`: Monday is 0 and Sunday is 6. */
  function Weekday(d: Date): int {
    (d + 6) % 7
  }

  /** The instants of one day lie between its midnight and the next. */
  lemma DayBounds(t: Instant)
    ensures Midnight(DayOf(t)) <= t < Midnight(DayOf(t)) + MICROS_PER_DAY
  {
  }

  /** Combining a date with a clock time stays on that date. */
  lemma CombineOnDay(d: Date, minute: MinuteOfDay)
    ensures DayOf(Combine(d, minute)) == d
    ensures DayOf(Midnight(d)) == d
  {
  }

  /** Instants compare like their dates when the dates differ. */
  lemma DayMonotone(s: Instant, t: Instant)
    ensures s <= t ==> DayOf(s) <= DayOf(t)
    ensures DayOf(s) < DayOf(t) ==> s < t
  {
  }

  /** Going back `Weekday(d)` days from `d` lands on a Monday; adding a whole week keeps the weekday. */
  lemma WeekdayArithmetic(d: Date, k: int)
    ensures 0 <= Weekday(d) < 7
    ensures Weekday(d - Weekday(d)) == 0
    ensures Weekday(d + 7 * k) == Weekday(d)
    ensures 0 <= k < 7 ==> Weekday(d - Weekday(d) + k) == k
  {
  }
}
