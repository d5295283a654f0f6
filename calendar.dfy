/** Dates as the source uses them. Calendar dates (birth dates, expiry dates,
    experience periods) are (year, month, day) triples compared as Python
    compares `datetime.date` values, field by field. Appointment dates are day
    numbers in the numbering of `date.toordinal()` (day 1 is Monday
    0001-01-01), so that "the next day" is `d + 1` and the weekday is
    `date.weekday()`. */
module Calendar {

  const MinutesPerDay: int := 1440

  /** A `TimeField` value, in minutes since midnight. */
  type TimeOfDay = t: int | 0 <= t < 1440

  datatype Date = Date(year: int, month: int, day: int)

  /** `(m1, d1) < (m2, d2)` as Python compares tuples. */
  predicate MonthDayBefore(m1: int, d1: int, m2: int, d2: int) {
    m1 < m2 || (m1 == m2 && d1 < d2)
  }

  /** `a < b` on dates. */
  predicate Before(a: Date, b: Date) {
    a.year < b.year || (a.year == b.year && MonthDayBefore(a.month, a.day, b.month, b.day))
  }

  /** The date `k` years after `dob`, on the same month and day. */
  function Anniversary(dob: Date, k: int): Date {
    Date(dob.year + k, dob.month, dob.day)
  }

  /** The birthday-adjusted year difference used for patient and doctor ages:
      `today.year - dob.year - ((today.month, today.day) < (dob.month, dob.day))`.
      The result is the number of anniversaries of `dob` reached by `today`:
      the `age`-th anniversary is not after today and the next one is. */
  function AgeOn(dob: Date, today: Date): (age: int)
    ensures !Before(today, Anniversary(dob, age))
    ensures Before(today, Anniversary(dob, age + 1))
  {
    today.year - dob.year - (if MonthDayBefore(today.month, today.day, dob.month, dob.day) then 1 else 0)
  }

  /** The age is the only integer with the two properties above. */
  lemma AgeUnique(dob: Date, today: Date, k: int)
    requires !Before(today, Anniversary(dob, k))
    requires Before(today, Anniversary(dob, k + 1))
    ensures k == AgeOn(dob, today)
  {
  }

  /** The age is non-negative exactly when the date of birth is not after
      today. */
  lemma AgeNonNegative(dob: Date, today: Date)
    ensures AgeOn(dob, today) >= 0 <==> !Before(today, dob)
  {
  }

  /** `(end.year - start.year) * 12 + (end.month - start.month)`: the number of
      calendar-month boundaries between the two dates, ignoring the day. */
  function MonthsBetween(start: Date, end: Date): (months: int)
    ensures start.year == end.year && start.month == end.month ==> months == 0
    ensures end.year * 12 + end.month == start.year * 12 + start.month + months
  {
    (end.year - start.year) * 12 + (end.month - start.month)
  }

  /** Month counts add up over consecutive periods. */
  lemma MonthsBetweenAdditive(a: Date, b: Date, c: Date)
    ensures MonthsBetween(a, c) == MonthsBetween(a, b) + MonthsBetween(b, c)
  {
  }

  /** `date.weekday()` of the day numbered `d` by `date.toordinal()`:
      0 is Monday, 6 is Sunday. */
  function Weekday(d: int): (w: int)
    ensures 0 <= w < 7
    ensures (d - w) % 7 == 1
  {
    (d + 6) % 7
  }

  /** Consecutive days have consecutive weekdays, wrapping Sunday to Monday. */
  lemma WeekdayNext(d: int)
    ensures Weekday(d + 1) == (Weekday(d) + 1) % 7
  {
  }
}
