/** Proleptic Gregorian dates as Python's `datetime.date` and `calendar` module define them. */
module Calendar {

  datatype Date = Date(year: int, month: int, day: int)

  /** The Gregorian leap-year rule of `calendar.isleap`. */
  predicate IsLeap(y: int) {
    y % 4 == 0 && (y % 100 != 0 || y % 400 == 0)
  }

  /** Second component of `calendar.monthrange(y, m)`. */
  function DaysInMonth(y: int, m: int): (n: int)
    requires 1 <= m <= 12
    ensures 28 <= n <= 31
  {
    if m == 2 then (if IsLeap(y) then 29 else 28)
    else if m == 4 || m == 6 || m == 9 || m == 11 then 30
    else 31
  }

  /** February has 29 days exactly in leap years; April, June, September and November have 30. */
  lemma DaysInMonthSpec(y: int, m: int)
    requires 1 <= m <= 12
    ensures DaysInMonth(y, m) == 29 <==> m == 2 && IsLeap(y)
    ensures DaysInMonth(y, m) == 28 <==> m == 2 && !IsLeap(y)
    ensures DaysInMonth(y, m) == 30 <==> m == 4 || m == 6 || m == 9 || m == 11
  {
  }

  /** A value `datetime.date` accepts: years MINYEAR = 1 through MAXYEAR = 9999. */
  predicate ValidDate(d: Date) {
    1 <= d.year <= 9999 && 1 <= d.month <= 12 && 1 <= d.day <= DaysInMonth(d.year, d.month)
  }

  const FirstDate := Date(1, 1, 1)
  const LastDate := Date(9999, 12, 31)

  /** `d + timedelta(days=1)`. */
  function NextDay(d: Date): (r: Date)
    requires ValidDate(d) && d != LastDate
    ensures ValidDate(r) && r != FirstDate
    ensures r.year == d.year || (r.year == d.year + 1 && r.month == 1 && r.day == 1)
  {
    if d.day < DaysInMonth(d.year, d.month) then d.(day := d.day + 1)
    else if d.month < 12 then Date(d.year, d.month + 1, 1)
    else Date(d.year + 1, 1, 1)
  }

  /** `d - timedelta(days=1)`: the day whose next day is `d`. */
  function PreviousDay(d: Date): (r: Date)
    requires ValidDate(d) && d != FirstDate
    ensures ValidDate(r) && r != LastDate
    ensures NextDay(r) == d
  {
    if d.day > 1 then d.(day := d.day - 1)
    else if d.month > 1 then Date(d.year, d.month - 1, DaysInMonth(d.year, d.month - 1))
    else Date(d.year - 1, 12, 31)
  }

  /** Stepping forward and back again returns the same day. */
  lemma PreviousOfNext(d: Date)
    requires ValidDate(d) && d != LastDate
    ensures PreviousDay(NextDay(d)) == d
  {
  }

  /** The day after `d` falls in the same month exactly when `d` is not the month's last day. */
  lemma NextDayStaysInMonth(d: Date)
    requires ValidDate(d) && d != LastDate
    ensures NextDay(d).month == d.month <==> d.day < DaysInMonth(d.year, d.month)
  {
  }

  /** Day `k` of month `m` of year `y`, for every `k` from 1 to the month's length, is a valid date. */
  lemma DayOfMonthValid(y: int, m: int, k: int)
    requires 1 <= y <= 9999 && 1 <= m <= 12 && 1 <= k <= DaysInMonth(y, m)
    ensures ValidDate(Date(y, m, k))
  {
  }
}
