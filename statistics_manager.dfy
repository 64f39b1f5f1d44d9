/**
 * `StatisticsManager` (apps/orders/models/statistics.py): the roll-ups that
 * write the statistics table and the end-of-day deletion of paid orders, as
 * methods on the database, each proved to leave the table the corresponding
 * function of module Statistics describes.
 */
module StatisticsManager {
  import opened Common
  import opened Calendar
  import opened OrderModel
  import opened Statistics
  import opened Store

  /**
   * What a caller may pass as `date`: any date, or none when today's date
   * (the clock, given as `today`) has a previous day.
   */
  predicate DateArgument(date: Option<Date>, today: Date) {
    match date
    case Some(d) => ValidDate(d)
    case None => ValidDate(today) && today != FirstDate
  }

  /** The date a roll-up works on: the one given, or yesterday. */
  function ResolveDate(date: Option<Date>, today: Date): (d: Date)
    requires DateArgument(date, today)
    ensures ValidDate(d)
    ensures date.Some? ==> d == date.value
    ensures date.None? ==> d != LastDate && NextDay(d) == today
  {
    match date
    case Some(d) => d
    case None => PreviousDay(today)
  }

  /**
   * `calculate_per_waitress`: one `update_or_create` per waitress with paid
   * orders that day, keyed on (per_waitress, day, waitress), with the sum of
   * those orders' totals.
   */
  method CalculatePerWaitress(db: Database, date: Option<Date>, today: Date)
    requires db.Valid() && DateArgument(date, today)
    modifies db`stats
    ensures db.stats == AfterPerWaitress(db.orders, old(db.stats), ResolveDate(date, today))
    ensures db.Valid()
  {
    var d := ResolveDate(date, today);
    var rows := PerWaitressRows(db.orders, d);
    var i := 0;
    while i < |rows|
      invariant 0 <= i <= |rows|
      invariant db.stats == UpsertAll(old(db.stats), rows[..i])
    {
      assert rows[..i + 1][..i] == rows[..i];
      db.stats := Upsert(db.stats, rows[i]);
      i := i + 1;
    }
    assert rows[..|rows|] == rows;
    PerWaitressValid(db.orders, old(db.stats), d);
  }

  /**
   * `calculate_daily`: refresh the per-waitress rows, then return the day's
   * daily row if there is one; otherwise write the day's paid total, unless it
   * is zero, in which case nothing is written and nothing returned.
   */
  method CalculateDaily(db: Database, date: Option<Date>, today: Date) returns (r: Option<Statistic>)
    requires db.Valid() && DateArgument(date, today)
    modifies db`stats
    ensures db.stats == AfterDaily(db.orders, old(db.stats), ResolveDate(date, today))
    ensures r == DailyResult(db.orders, old(db.stats), ResolveDate(date, today))
    ensures r == Lookup(db.stats, DailyKey(ResolveDate(date, today)))
    ensures db.Valid()
  {
    var d := ResolveDate(date, today);
    ghost var before := db.stats;
    CalculatePerWaitress(db, Some(d), today);
    DailyValid(db.orders, before, d);
    var existing := Lookup(db.stats, DailyKey(d));
    if existing.Some? {
      return existing;
    }
    var total := DailyTotal(db.orders, d);
    if total == 0 {
      return None;
    }
    var row := Statistic(Daily, d, total, None);
    db.stats := Upsert(db.stats, row);
    r := Some(row);
  }

  /**
   * The closing step of the monthly and yearly calculations: the row is
   * written with `update_or_create` and returned, unless its total is zero,
   * in which case nothing is written and nothing returned.
   */
  method SaveRollUp(db: Database, row: Statistic) returns (r: Option<Statistic>)
    requires db.Valid() && row.waitress.None?
    modifies db`stats
    ensures db.stats == if row.total == 0 then old(db.stats) else Upsert(old(db.stats), row)
    ensures r == if row.total == 0 then None else Some(row)
    ensures r.Some? ==> r == Lookup(db.stats, KeyOf(row))
    ensures db.Valid()
  {
    if row.total == 0 {
      return None;
    }
    UpsertValid(db.stats, row);
    UpsertLookup(db.stats, row, KeyOf(row));
    db.stats := Upsert(db.stats, row);
    r := Some(row);
  }

  /**
   * `calculate_monthly`: run the daily calculation for every day of the month,
   * then overwrite the monthly row (dated the first of the month) with the sum
   * of the month's daily rows, unless that sum is zero.
   */
  method CalculateMonthly(db: Database, date: Option<Date>, today: Date) returns (r: Option<Statistic>)
    requires db.Valid() && DateArgument(date, today)
    modifies db`stats
    ensures db.stats == AfterMonthly(db.orders, old(db.stats), ResolveDate(date, today))
    ensures r.Some? <==> MonthlyTotal(db.orders, old(db.stats), ResolveDate(date, today)) != 0
    ensures r.Some? ==> r == Lookup(db.stats, MonthKey(ResolveDate(date, today).year, ResolveDate(date, today).month))
    ensures db.Valid()
  {
    var d := ResolveDate(date, today);
    RunDays(db, d.year, d.month, today);
    var total := DailySum(db.stats, MonthStart(d.year, d.month), MonthEnd(d.year, d.month));
    r := SaveRollUp(db, Statistic(Monthly, MonthStart(d.year, d.month), total, None));
  }

  /** `calculate_daily` on a given day, its result dropped. */
  method CalculateDay(db: Database, day: Date, today: Date)
    requires db.Valid() && ValidDate(day)
    modifies db`stats
    ensures db.stats == AfterDaily(db.orders, old(db.stats), day)
    ensures db.Valid()
  {
    var _ := CalculateDaily(db, Some(day), today);
  }

  /** The day loop of `calculate_monthly`: the daily calculation for each day of month `m`, in order. */
  method RunDays(db: Database, y: int, m: int, today: Date)
    requires db.Valid() && 1 <= y <= 9999 && 1 <= m <= 12
    modifies db`stats
    ensures db.stats == DailyForDays(db.orders, old(db.stats), y, m, DaysInMonth(y, m))
    ensures db.Valid()
  {
    ghost var orders, start := db.orders, db.stats;
    var n := DaysInMonth(y, m);
    for k := 1 to n + 1
      invariant db.orders == orders
      invariant db.stats == DailyForDays(orders, start, y, m, k - 1)
      invariant db.Valid()
    {
      CalculateDay(db, Date(y, m, k), today);
    }
  }

  /**
   * `calculate_yearly`: run the monthly calculation for January through the
   * month of the date, then overwrite the yearly row (dated January 1st) with
   * the sum of the year's monthly rows, unless that sum is zero.
   */
  method CalculateYearly(db: Database, date: Option<Date>, today: Date) returns (r: Option<Statistic>)
    requires db.Valid() && DateArgument(date, today)
    modifies db`stats
    ensures db.stats == AfterYearly(db.orders, old(db.stats), ResolveDate(date, today))
    ensures r.Some? <==> YearlyTotal(db.orders, old(db.stats), ResolveDate(date, today)) != 0
    ensures r.Some? ==> r == Lookup(db.stats, YearKey(ResolveDate(date, today).year))
    ensures db.Valid()
  {
    var d := ResolveDate(date, today);
    RunMonths(db, d.year, d.month, today);
    var total := MonthlySum(db.stats, d.year);
    r := SaveRollUp(db, Statistic(Yearly, Date(d.year, 1, 1), total, None));
  }

  /** `calculate_monthly` on a given date, its result dropped. */
  method CalculateMonth(db: Database, d: Date, today: Date)
    requires db.Valid() && ValidDate(d)
    modifies db`stats
    ensures db.stats == AfterMonthly(db.orders, old(db.stats), d)
    ensures db.Valid()
  {
    var _ := CalculateMonthly(db, Some(d), today);
  }

  /** The month loop of `calculate_yearly`: the monthly calculation for months 1 through `n`, in order. */
  method RunMonths(db: Database, y: int, n: nat, today: Date)
    requires db.Valid() && 1 <= y <= 9999 && n <= 12
    modifies db`stats
    ensures db.stats == MonthlyForMonths(db.orders, old(db.stats), y, n)
    ensures db.Valid()
  {
    ghost var orders, start := db.orders, db.stats;
    for m := 1 to n + 1
      invariant db.orders == orders
      invariant db.stats == MonthlyForMonths(orders, start, y, m - 1)
      invariant db.Valid()
    {
      CalculateMonth(db, Date(y, m, 1), today);
    }
  }

  /**
   * `delete_orders_for_statistics_day`: make sure the day has its statistics,
   * then delete the paid orders created that day (their items go with them,
   * by the cascading foreign key) and return how many orders were deleted.
   */
  method DeleteOrdersForStatisticsDay(db: Database, d: Date) returns (count: nat)
    requires db.Valid() && ValidDate(d)
    modifies db`stats, db`orders, db`items
    ensures db.stats == AfterDaily(old(db.orders), old(db.stats), d)
    ensures db.orders == KeepOrders(old(db.orders), d)
    ensures db.items == KeepItems(old(db.items), db.orders)
    ensures count == |PaidOn(old(db.orders), d)| == |old(db.orders)| - |db.orders|
    ensures db.Valid()
  {
    // The date is always given here, so the clock argument is never consulted.
    var _ := CalculateDaily(db, Some(d), d);
    var orders, items := db.orders, db.items;
    count := |PaidOn(orders, d)|;
    var kept := KeepOrders(orders, d);
    KeepOrdersSplit(orders, d);
    KeepOrdersValid(orders, db.tables, db.nextOrderId, d);
    KeepItemsValid(items, orders, kept, db.meals, db.nextItemId);
    SaveOrdersAndItems(db, kept, KeepItems(items, kept));
  }
}
