/**
 * The statistics table and what each roll-up of `StatisticsManager`
 * (apps/orders/models/statistics.py) leaves in it, as functions of the
 * order rows and the statistics rows before the run.
 */
module Statistics {
  import opened Common
  import opened Calendar
  import opened OrderModel

  datatype Title = Daily | Monthly | Yearly | PerWaitress

  /**
   * One statistics row. `waitress` stands for `waitress_info`, the text
   * "username - first last" of the waitress, which the unique username
   * identifies; it is set on per-waitress rows only.
   */
  datatype Statistic = Statistic(title: Title, date: Date, total: Cents, waitress: Option<UserId>)

  /** The fields `update_or_create` matches a row on. */
  datatype Key = Key(title: Title, date: Date, waitress: Option<UserId>)

  function KeyOf(s: Statistic): Key {
    Key(s.title, s.date, s.waitress)
  }

  function DailyKey(d: Date): Key {
    Key(Daily, d, None)
  }

  /** At most one row per key, and only per-waitress rows carry a waitress. */
  ghost predicate StatsValid(stats: seq<Statistic>) {
    && (forall i, j :: 0 <= i < j < |stats| ==> KeyOf(stats[i]) != KeyOf(stats[j]))
    && (forall i :: 0 <= i < |stats| ==> stats[i].title != PerWaitress ==> stats[i].waitress.None?)
  }

  /** The first row with key `k` (`filter(...).first()`). */
  function Lookup(stats: seq<Statistic>, k: Key): (r: Option<Statistic>)
    ensures r.Some? ==> r.value in stats && KeyOf(r.value) == k
    ensures r.None? <==> forall i :: 0 <= i < |stats| ==> KeyOf(stats[i]) != k
  {
    if stats == [] then None
    else if KeyOf(stats[0]) == k then Some(stats[0])
    else
      assert forall i :: 1 <= i < |stats| ==> stats[i] == stats[1..][i - 1];
      Lookup(stats[1..], k)
  }

  /**
   * `update_or_create` on the key of `row` with `defaults={'total': row.total}`:
   * the matching row takes the new total, or `row` is appended.
   */
  function Upsert(stats: seq<Statistic>, row: Statistic): seq<Statistic>
  {
    if stats == [] then [row]
    else if KeyOf(stats[0]) == KeyOf(row) then [row] + stats[1..]
    else [stats[0]] + Upsert(stats[1..], row)
  }

  /** After an upsert the key of `row` finds `row`, and every other key finds what it found before. */
  lemma {:induction false} UpsertLookup(stats: seq<Statistic>, row: Statistic, k: Key)
    ensures Lookup(Upsert(stats, row), k) == if k == KeyOf(row) then Some(row) else Lookup(stats, k)
  {
    if stats != [] && KeyOf(stats[0]) != KeyOf(row) {
      UpsertLookup(stats[1..], row, k);
    }
  }

  /** A key that is absent makes the upsert an append. */
  lemma {:induction false} UpsertAppends(stats: seq<Statistic>, row: Statistic)
    requires Lookup(stats, KeyOf(row)).None?
    ensures Upsert(stats, row) == stats + [row]
  {
    if stats != [] {
      assert forall i :: 1 <= i < |stats| ==> stats[i] == stats[1..][i - 1];
      UpsertAppends(stats[1..], row);
    }
  }

  /** Upserting a row that is already stored changes nothing. */
  lemma {:induction false} UpsertPresent(stats: seq<Statistic>, row: Statistic)
    requires Lookup(stats, KeyOf(row)) == Some(row)
    ensures Upsert(stats, row) == stats
  {
    if KeyOf(stats[0]) != KeyOf(row) {
      UpsertPresent(stats[1..], row);
    }
  }

  /** An upsert keeps the rows other than the one it overwrites, in order. */
  lemma {:induction false} UpsertShape(stats: seq<Statistic>, row: Statistic)
    ensures |Upsert(stats, row)| == |stats| || Upsert(stats, row) == stats + [row]
    ensures forall s :: s in Upsert(stats, row) ==> s == row || s in stats
    ensures forall s :: s in stats && KeyOf(s) != KeyOf(row) ==> s in Upsert(stats, row)
  {
    if stats != [] && KeyOf(stats[0]) != KeyOf(row) {
      UpsertShape(stats[1..], row);
    }
  }

  /** An upsert keeps the statistics table valid. */
  lemma {:induction false} UpsertValid(stats: seq<Statistic>, row: Statistic)
    requires StatsValid(stats)
    requires row.title != PerWaitress ==> row.waitress.None?
    ensures StatsValid(Upsert(stats, row))
  {
    if stats != [] && KeyOf(stats[0]) != KeyOf(row) {
      var tail := stats[1..];
      assert forall i :: 0 <= i < |tail| ==> tail[i] == stats[i + 1];
      UpsertValid(tail, row);
      UpsertShape(tail, row);
      var r := Upsert(stats, row);
      assert r == [stats[0]] + Upsert(tail, row);
      forall j | 1 <= j < |r|
        ensures KeyOf(r[0]) != KeyOf(r[j])
      {
        assert r[j] in Upsert(tail, row);
      }
    }
  }

  /** The upserts of `rows`, one after the other. */
  function UpsertAll(stats: seq<Statistic>, rows: seq<Statistic>): seq<Statistic>
  {
    if rows == [] then stats
    else Upsert(UpsertAll(stats, rows[..|rows| - 1]), rows[|rows| - 1])
  }

  predicate KeysDistinct(rows: seq<Statistic>) {
    forall i, j :: 0 <= i < j < |rows| ==> KeyOf(rows[i]) != KeyOf(rows[j])
  }

  /** After upserting rows with distinct keys, each key finds its row and every other key is untouched. */
  lemma {:induction false} UpsertAllLookup(stats: seq<Statistic>, rows: seq<Statistic>, k: Key)
    requires KeysDistinct(rows)
    ensures forall i :: 0 <= i < |rows| && KeyOf(rows[i]) == k ==> Lookup(UpsertAll(stats, rows), k) == Some(rows[i])
    ensures (forall i :: 0 <= i < |rows| ==> KeyOf(rows[i]) != k) ==> Lookup(UpsertAll(stats, rows), k) == Lookup(stats, k)
  {
    if rows != [] {
      var init := rows[..|rows| - 1];
      UpsertAllLookup(stats, init, k);
      UpsertLookup(UpsertAll(stats, init), rows[|rows| - 1], k);
    }
  }

  /** Upserting rows that are all stored already changes nothing. */
  lemma {:induction false} UpsertAllPresent(stats: seq<Statistic>, rows: seq<Statistic>)
    requires forall i :: 0 <= i < |rows| ==> Lookup(stats, KeyOf(rows[i])) == Some(rows[i])
    ensures UpsertAll(stats, rows) == stats
  {
    if rows != [] {
      UpsertAllPresent(stats, rows[..|rows| - 1]);
      UpsertPresent(stats, rows[|rows| - 1]);
    }
  }

  /** Running the same batch of upserts twice leaves what running it once does. */
  lemma UpsertAllIdempotent(stats: seq<Statistic>, rows: seq<Statistic>)
    requires KeysDistinct(rows)
    ensures UpsertAll(UpsertAll(stats, rows), rows) == UpsertAll(stats, rows)
  {
    forall i | 0 <= i < |rows|
      ensures Lookup(UpsertAll(stats, rows), KeyOf(rows[i])) == Some(rows[i])
    {
      UpsertAllLookup(stats, rows, KeyOf(rows[i]));
    }
    UpsertAllPresent(UpsertAll(stats, rows), rows);
  }

  lemma {:induction false} UpsertAllValid(stats: seq<Statistic>, rows: seq<Statistic>)
    requires StatsValid(stats)
    requires forall i :: 0 <= i < |rows| ==> rows[i].title != PerWaitress ==> rows[i].waitress.None?
    ensures StatsValid(UpsertAll(stats, rows))
  {
    if rows != [] {
      UpsertAllValid(stats, rows[..|rows| - 1]);
      UpsertValid(UpsertAll(stats, rows[..|rows| - 1]), rows[|rows| - 1]);
    }
  }

  // ---------------------------------------------------------------------------
  // Paid orders of a day

  /** The paid orders created on day `d`, in row order. */
  function PaidOn(orders: seq<Order>, d: Date): seq<Order>
  {
    if orders == [] then []
    else if orders[|orders| - 1].isPaid && orders[|orders| - 1].created == d then
      PaidOn(orders[..|orders| - 1], d) + [orders[|orders| - 1]]
    else PaidOn(orders[..|orders| - 1], d)
  }

  /** Sum of `total_price` over `orders`. */
  function SumTotals(orders: seq<Order>): Cents
  {
    if orders == [] then 0 else SumTotals(orders[..|orders| - 1]) + orders[|orders| - 1].totalPrice
  }

  /** The daily aggregate: the sum of the totals of the paid orders created on `d`. */
  function DailyTotal(orders: seq<Order>, d: Date): Cents {
    SumTotals(PaidOn(orders, d))
  }

  lemma {:induction false} PaidOnMembers(orders: seq<Order>, d: Date)
    ensures forall o :: o in PaidOn(orders, d) <==> o in orders && o.isPaid && o.created == d
  {
    if orders != [] {
      PaidOnMembers(orders[..|orders| - 1], d);
      assert orders == orders[..|orders| - 1] + [orders[|orders| - 1]];
    }
  }

  // ---------------------------------------------------------------------------
  // Per-waitress totals

  /** The distinct waitresses of `orders` in order of first appearance (the GROUP BY of the query). */
  function Waitresses(orders: seq<Order>): seq<UserId>
  {
    if orders == [] then []
    else
      var ws := Waitresses(orders[..|orders| - 1]);
      var w := orders[|orders| - 1].waitress;
      if w.Some? && w.value !in ws then ws + [w.value] else ws
  }

  /** Sum of the totals of the orders of waitress `w`. */
  function WaitressTotal(orders: seq<Order>, w: UserId): Cents
  {
    if orders == [] then 0
    else
      var last := orders[|orders| - 1];
      WaitressTotal(orders[..|orders| - 1], w) + (if last.waitress == Some(w) then last.totalPrice else 0)
  }

  lemma {:induction false} WaitressesSpec(orders: seq<Order>)
    ensures forall i, j :: 0 <= i < j < |Waitresses(orders)| ==> Waitresses(orders)[i] != Waitresses(orders)[j]
    ensures forall w :: w in Waitresses(orders) <==> Some(w) in WaitressesOf(orders)
  {
    if orders != [] {
      var init := orders[..|orders| - 1];
      WaitressesSpec(init);
      assert orders == init + [orders[|orders| - 1]];
      assert forall o :: o in orders <==> o in init || o == orders[|orders| - 1];
    }
  }

  /** The waitress fields of `orders`. */
  function WaitressesOf(orders: seq<Order>): set<Option<UserId>> {
    set o | o in orders :: o.waitress
  }

  /** The rows `calculate_per_waitress` upserts for day `d`: one per waitress with a paid order that day. */
  function PerWaitressRows(orders: seq<Order>, d: Date): seq<Statistic>
  {
    var paid := PaidOn(orders, d);
    var ws := Waitresses(paid);
    seq(|ws|, i requires 0 <= i < |ws| => Statistic(PerWaitress, d, WaitressTotal(paid, ws[i]), Some(ws[i])))
  }

  /**
   * There is one per-waitress row for `d` for exactly the waitresses of the
   * paid orders created on `d`, carrying the sum of those orders' totals.
   */
  lemma PerWaitressRowsSpec(orders: seq<Order>, d: Date)
    ensures KeysDistinct(PerWaitressRows(orders, d))
    ensures forall r :: r in PerWaitressRows(orders, d) ==>
      && r.title == PerWaitress && r.date == d && r.waitress.Some?
      && r.total == WaitressTotal(PaidOn(orders, d), r.waitress.value)
    ensures forall w ::
      (exists r :: r in PerWaitressRows(orders, d) && r.waitress == Some(w))
      <==> (exists o :: o in orders && o.isPaid && o.created == d && o.waitress == Some(w))
  {
    var paid := PaidOn(orders, d);
    var ws := Waitresses(paid);
    var rows := PerWaitressRows(orders, d);
    WaitressesSpec(paid);
    PaidOnMembers(orders, d);
    forall w
      ensures (exists r :: r in rows && r.waitress == Some(w))
        <==> (exists o :: o in orders && o.isPaid && o.created == d && o.waitress == Some(w))
    {
      if exists r :: r in rows && r.waitress == Some(w) {
        var r :| r in rows && r.waitress == Some(w);
        var i :| 0 <= i < |rows| && rows[i] == r;
        assert ws[i] == w;
        assert Some(w) in WaitressesOf(paid);
        var o :| o in paid && o.waitress == Some(w);
        assert o in orders && o.isPaid && o.created == d;
      }
      if exists o :: o in orders && o.isPaid && o.created == d && o.waitress == Some(w) {
        var o :| o in orders && o.isPaid && o.created == d && o.waitress == Some(w);
        assert o in paid;
        assert Some(w) in WaitressesOf(paid);
        var i :| 0 <= i < |ws| && ws[i] == w;
        assert rows[i] in rows && rows[i].waitress == Some(w);
      }
    }
  }

  /** The statistics table after `calculate_per_waitress(d)`. */
  function AfterPerWaitress(orders: seq<Order>, stats: seq<Statistic>, d: Date): seq<Statistic> {
    UpsertAll(stats, PerWaitressRows(orders, d))
  }

  /** Re-running the per-waitress calculation over the same orders changes nothing. */
  lemma PerWaitressIdempotent(orders: seq<Order>, stats: seq<Statistic>, d: Date)
    ensures AfterPerWaitress(orders, AfterPerWaitress(orders, stats, d), d) == AfterPerWaitress(orders, stats, d)
  {
    PerWaitressRowsSpec(orders, d);
    UpsertAllIdempotent(stats, PerWaitressRows(orders, d));
  }

  /** The per-waitress calculation touches only per-waitress keys of day `d`. */
  lemma PerWaitressLookupOther(orders: seq<Order>, stats: seq<Statistic>, d: Date, k: Key)
    requires k.title != PerWaitress || k.date != d
    ensures Lookup(AfterPerWaitress(orders, stats, d), k) == Lookup(stats, k)
  {
    PerWaitressRowsSpec(orders, d);
    var rows := PerWaitressRows(orders, d);
    assert forall i :: 0 <= i < |rows| ==> rows[i] in rows;
    UpsertAllLookup(stats, rows, k);
  }

  lemma PerWaitressValid(orders: seq<Order>, stats: seq<Statistic>, d: Date)
    requires StatsValid(stats)
    ensures StatsValid(AfterPerWaitress(orders, stats, d))
  {
    UpsertAllValid(stats, PerWaitressRows(orders, d));
  }

  // ---------------------------------------------------------------------------
  // Daily

  function DailyRow(orders: seq<Order>, d: Date): Statistic {
    Statistic(Daily, d, DailyTotal(orders, d), None)
  }

  /**
   * The statistics table after `calculate_daily(d)`: per-waitress rows are
   * refreshed; a daily row is written only if none exists and the day's sum is not zero.
   */
  function AfterDaily(orders: seq<Order>, stats: seq<Statistic>, d: Date): seq<Statistic> {
    var s1 := AfterPerWaitress(orders, stats, d);
    if Lookup(s1, DailyKey(d)).Some? then s1
    else if DailyTotal(orders, d) == 0 then s1
    else Upsert(s1, DailyRow(orders, d))
  }

  /** What `calculate_daily(d)` returns: the row that existed, the row it wrote, or nothing. */
  function DailyResult(orders: seq<Order>, stats: seq<Statistic>, d: Date): (r: Option<Statistic>)
    ensures r == Lookup(AfterDaily(orders, stats, d), DailyKey(d))
  {
    var s1 := AfterPerWaitress(orders, stats, d);
    UpsertLookup(s1, DailyRow(orders, d), DailyKey(d));
    var existing := Lookup(s1, DailyKey(d));
    if existing.Some? then existing
    else if DailyTotal(orders, d) == 0 then None
    else Some(DailyRow(orders, d))
  }

  /**
   * First write wins: an existing daily row is kept as it is; otherwise the
   * day's paid total is written, unless it is zero.
   */
  lemma DailyRowAfterRun(orders: seq<Order>, stats: seq<Statistic>, d: Date)
    ensures Lookup(AfterDaily(orders, stats, d), DailyKey(d)) ==
      if Lookup(stats, DailyKey(d)).Some? then Lookup(stats, DailyKey(d))
      else if DailyTotal(orders, d) == 0 then None
      else Some(DailyRow(orders, d))
  {
    PerWaitressLookupOther(orders, stats, d, DailyKey(d));
    UpsertLookup(AfterPerWaitress(orders, stats, d), DailyRow(orders, d), DailyKey(d));
  }

  /** The daily calculation touches only the keys of day `d`: its daily row and its per-waitress rows. */
  lemma DailyLookupOther(orders: seq<Order>, stats: seq<Statistic>, d: Date, k: Key)
    requires k.date != d || (k.title != Daily && k.title != PerWaitress)
    ensures Lookup(AfterDaily(orders, stats, d), k) == Lookup(stats, k)
  {
    PerWaitressLookupOther(orders, stats, d, k);
    UpsertLookup(AfterPerWaitress(orders, stats, d), DailyRow(orders, d), k);
  }

  /** Running the daily calculation twice over the same orders leaves what running it once does. */
  lemma DailyIdempotent(orders: seq<Order>, stats: seq<Statistic>, d: Date)
    ensures AfterDaily(orders, AfterDaily(orders, stats, d), d) == AfterDaily(orders, stats, d)
  {
    var rows := PerWaitressRows(orders, d);
    var s1 := AfterPerWaitress(orders, stats, d);
    var s2 := AfterDaily(orders, stats, d);
    PerWaitressRowsSpec(orders, d);
    assert forall i :: 0 <= i < |rows| ==> rows[i] in rows;
    forall i | 0 <= i < |rows|
      ensures Lookup(s2, KeyOf(rows[i])) == Some(rows[i])
    {
      UpsertAllLookup(stats, rows, KeyOf(rows[i]));
      UpsertLookup(s1, DailyRow(orders, d), KeyOf(rows[i]));
    }
    UpsertAllPresent(s2, rows);
    UpsertLookup(s1, DailyRow(orders, d), DailyKey(d));
  }

  lemma DailyValid(orders: seq<Order>, stats: seq<Statistic>, d: Date)
    requires StatsValid(stats)
    ensures StatsValid(AfterDaily(orders, stats, d))
  {
    PerWaitressValid(orders, stats, d);
    UpsertValid(AfterPerWaitress(orders, stats, d), DailyRow(orders, d));
  }

  // ---------------------------------------------------------------------------
  // Monthly

  /** Calendar order on dates, as `date__range` compares them. */
  predicate DateLe(a: Date, b: Date) {
    a.year < b.year || (a.year == b.year && (a.month < b.month || (a.month == b.month && a.day <= b.day)))
  }

  predicate InRange(x: Date, lo: Date, hi: Date) {
    DateLe(lo, x) && DateLe(x, hi)
  }

  function MonthStart(y: int, m: int): Date {
    Date(y, m, 1)
  }

  function MonthEnd(y: int, m: int): Date
    requires 1 <= m <= 12
  {
    Date(y, m, DaysInMonth(y, m))
  }

  function MonthKey(y: int, m: int): Key {
    Key(Monthly, MonthStart(y, m), None)
  }

  /** Sum of the totals of the daily rows dated `lo` through `hi`. */
  function DailySum(stats: seq<Statistic>, lo: Date, hi: Date): Cents
  {
    if stats == [] then 0
    else
      var s := stats[0];
      (if s.title == Daily && InRange(s.date, lo, hi) then s.total else 0) + DailySum(stats[1..], lo, hi)
  }

  lemma {:induction false} DailySumConcat(a: seq<Statistic>, b: seq<Statistic>, lo: Date, hi: Date)
    ensures DailySum(a + b, lo, hi) == DailySum(a, lo, hi) + DailySum(b, lo, hi)
  {
    if a == [] {
      assert a + b == b;
    } else {
      assert (a + b)[1..] == a[1..] + b;
      DailySumConcat(a[1..], b, lo, hi);
    }
  }

  lemma {:induction false} DailySumUpsertOther(stats: seq<Statistic>, row: Statistic, lo: Date, hi: Date)
    requires row.title != Daily
    ensures DailySum(Upsert(stats, row), lo, hi) == DailySum(stats, lo, hi)
  {
    if stats == [] {
    } else if KeyOf(stats[0]) == KeyOf(row) {
      assert (Upsert(stats, row))[1..] == stats[1..];
    } else {
      assert (Upsert(stats, row))[1..] == Upsert(stats[1..], row);
      DailySumUpsertOther(stats[1..], row, lo, hi);
    }
  }

  lemma {:induction false} DailySumUpsertAllOther(stats: seq<Statistic>, rows: seq<Statistic>, lo: Date, hi: Date)
    requires forall i :: 0 <= i < |rows| ==> rows[i].title != Daily
    ensures DailySum(UpsertAll(stats, rows), lo, hi) == DailySum(stats, lo, hi)
  {
    if rows != [] {
      DailySumUpsertAllOther(stats, rows[..|rows| - 1], lo, hi);
      DailySumUpsertOther(UpsertAll(stats, rows[..|rows| - 1]), rows[|rows| - 1], lo, hi);
    }
  }

  /** What a daily run adds to the daily rows: the day's paid total, if the day had no daily row yet. */
  function NewDaily(orders: seq<Order>, stats: seq<Statistic>, d: Date): Cents {
    if Lookup(stats, DailyKey(d)).None? then DailyTotal(orders, d) else 0
  }

  lemma DailySumAfterDaily(orders: seq<Order>, stats: seq<Statistic>, d: Date, lo: Date, hi: Date)
    requires InRange(d, lo, hi)
    ensures DailySum(AfterDaily(orders, stats, d), lo, hi) == DailySum(stats, lo, hi) + NewDaily(orders, stats, d)
  {
    var rows := PerWaitressRows(orders, d);
    var s1 := AfterPerWaitress(orders, stats, d);
    PerWaitressRowsSpec(orders, d);
    assert forall i :: 0 <= i < |rows| ==> rows[i] in rows;
    DailySumUpsertAllOther(stats, rows, lo, hi);
    PerWaitressLookupOther(orders, stats, d, DailyKey(d));
    if Lookup(s1, DailyKey(d)).None? && DailyTotal(orders, d) != 0 {
      UpsertAppends(s1, DailyRow(orders, d));
      DailySumConcat(s1, [DailyRow(orders, d)], lo, hi);
    }
  }

  /** The table after `calculate_daily` for days 1 through `n` of month `m` of year `y`. */
  function DailyForDays(orders: seq<Order>, stats: seq<Statistic>, y: int, m: int, n: nat): seq<Statistic>
  {
    if n == 0 then stats else AfterDaily(orders, DailyForDays(orders, stats, y, m, n - 1), Date(y, m, n))
  }

  /** Sum of `NewDaily` over days 1 through `n` of the month, judged against the table before the run. */
  function FreshDaysTotal(orders: seq<Order>, stats: seq<Statistic>, y: int, m: int, n: nat): Cents
  {
    if n == 0 then 0 else FreshDaysTotal(orders, stats, y, m, n - 1) + NewDaily(orders, stats, Date(y, m, n))
  }

  /** Sum of the daily paid totals of days 1 through `n` of the month. */
  function DaysTotal(orders: seq<Order>, y: int, m: int, n: nat): Cents
  {
    if n == 0 then 0 else DaysTotal(orders, y, m, n - 1) + DailyTotal(orders, Date(y, m, n))
  }

  /** Running days 1..n leaves the keys of every other title and of every later day alone. */
  lemma {:induction false} DaysLookupOther(orders: seq<Order>, stats: seq<Statistic>, y: int, m: int, n: nat, k: Key)
    requires (k.title != Daily && k.title != PerWaitress) || k.date.year != y || k.date.month != m || k.date.day > n
    ensures Lookup(DailyForDays(orders, stats, y, m, n), k) == Lookup(stats, k)
  {
    if n > 0 {
      DaysLookupOther(orders, stats, y, m, n - 1, k);
      DailyLookupOther(orders, DailyForDays(orders, stats, y, m, n - 1), Date(y, m, n), k);
    }
  }

  /** Two tables with the same daily row for `d` agree on whether `d` is new. */
  lemma NewDailySameLookup(orders: seq<Order>, s1: seq<Statistic>, s2: seq<Statistic>, d: Date)
    requires Lookup(s1, DailyKey(d)) == Lookup(s2, DailyKey(d))
    ensures NewDaily(orders, s1, d) == NewDaily(orders, s2, d)
  {
  }

  lemma {:induction false} DailySumAfterDays(orders: seq<Order>, stats: seq<Statistic>, y: int, m: int, n: nat)
    requires 1 <= m <= 12 && n <= DaysInMonth(y, m)
    ensures DailySum(DailyForDays(orders, stats, y, m, n), MonthStart(y, m), MonthEnd(y, m))
      == DailySum(stats, MonthStart(y, m), MonthEnd(y, m)) + FreshDaysTotal(orders, stats, y, m, n)
  {
    if n > 0 {
      var lo, hi := MonthStart(y, m), MonthEnd(y, m);
      var day := Date(y, m, n);
      var prev := DailyForDays(orders, stats, y, m, n - 1);
      var cur := DailyForDays(orders, stats, y, m, n);
      assert cur == AfterDaily(orders, prev, day);
      assert InRange(day, lo, hi);
      DailySumAfterDays(orders, stats, y, m, n - 1);
      DailySumAfterDaily(orders, prev, day, lo, hi);
      assert NewDaily(orders, prev, day) == NewDaily(orders, stats, day) by {
        DaysLookupOther(orders, stats, y, m, n - 1, DailyKey(day));
        NewDailySameLookup(orders, prev, stats, day);
      }
      assert FreshDaysTotal(orders, stats, y, m, n) == FreshDaysTotal(orders, stats, y, m, n - 1) + NewDaily(orders, stats, day);
    }
  }

  /** With no daily rows for the month beforehand, the fresh days' total is the month's paid total day by day. */
  lemma {:induction false} FreshDaysAreAllDays(orders: seq<Order>, stats: seq<Statistic>, y: int, m: int, n: nat)
    requires forall k :: 1 <= k <= n ==> Lookup(stats, DailyKey(Date(y, m, k))).None?
    ensures FreshDaysTotal(orders, stats, y, m, n) == DaysTotal(orders, y, m, n)
  {
    if n > 0 {
      FreshDaysAreAllDays(orders, stats, y, m, n - 1);
    }
  }

  /** The monthly total `calculate_monthly` computes for the month of `d`. */
  function MonthlyTotal(orders: seq<Order>, stats: seq<Statistic>, d: Date): Cents
    requires 1 <= d.month <= 12
  {
    var s1 := DailyForDays(orders, stats, d.year, d.month, DaysInMonth(d.year, d.month));
    DailySum(s1, MonthStart(d.year, d.month), MonthEnd(d.year, d.month))
  }

  /**
   * The table after `calculate_monthly(d)`: every day of the month is run
   * through the daily calculation, then the monthly row is overwritten with
   * the sum of the month's daily rows, unless that sum is zero.
   */
  function AfterMonthly(orders: seq<Order>, stats: seq<Statistic>, d: Date): seq<Statistic>
    requires 1 <= d.month <= 12
  {
    var s1 := DailyForDays(orders, stats, d.year, d.month, DaysInMonth(d.year, d.month));
    var t := MonthlyTotal(orders, stats, d);
    if t == 0 then s1 else Upsert(s1, Statistic(Monthly, MonthStart(d.year, d.month), t, None))
  }

  /**
   * The monthly roll-up: the monthly row carries the month's daily rows that
   * existed before plus the paid totals of the days that had none; a zero sum
   * leaves the monthly row as it was.
   */
  lemma MonthlyRollUp(orders: seq<Order>, stats: seq<Statistic>, d: Date)
    requires 1 <= d.month <= 12
    ensures MonthlyTotal(orders, stats, d) ==
      DailySum(stats, MonthStart(d.year, d.month), MonthEnd(d.year, d.month))
      + FreshDaysTotal(orders, stats, d.year, d.month, DaysInMonth(d.year, d.month))
    ensures Lookup(AfterMonthly(orders, stats, d), MonthKey(d.year, d.month)) ==
      if MonthlyTotal(orders, stats, d) == 0 then Lookup(stats, MonthKey(d.year, d.month))
      else Some(Statistic(Monthly, MonthStart(d.year, d.month), MonthlyTotal(orders, stats, d), None))
  {
    var n := DaysInMonth(d.year, d.month);
    DailySumAfterDays(orders, stats, d.year, d.month, n);
    DaysLookupOther(orders, stats, d.year, d.month, n, MonthKey(d.year, d.month));
    UpsertLookup(DailyForDays(orders, stats, d.year, d.month, n),
      Statistic(Monthly, MonthStart(d.year, d.month), MonthlyTotal(orders, stats, d), None), MonthKey(d.year, d.month));
  }

  // ---------------------------------------------------------------------------
  // Yearly

  function YearKey(y: int): Key {
    Key(Yearly, Date(y, 1, 1), None)
  }

  /** Sum of the totals of the monthly rows of year `y` (`date__year=y`). */
  function MonthlySum(stats: seq<Statistic>, y: int): Cents
  {
    if stats == [] then 0
    else (if stats[0].title == Monthly && stats[0].date.year == y then stats[0].total else 0) + MonthlySum(stats[1..], y)
  }

  /** The table after `calculate_monthly` for months 1 through `n` of year `y`. */
  function MonthlyForMonths(orders: seq<Order>, stats: seq<Statistic>, y: int, n: nat): seq<Statistic>
    requires n <= 12
  {
    if n == 0 then stats else AfterMonthly(orders, MonthlyForMonths(orders, stats, y, n - 1), Date(y, n, 1))
  }

  /** The yearly total `calculate_yearly` computes. */
  function YearlyTotal(orders: seq<Order>, stats: seq<Statistic>, d: Date): Cents
    requires 1 <= d.month <= 12
  {
    MonthlySum(MonthlyForMonths(orders, stats, d.year, d.month), d.year)
  }

  /**
   * The table after `calculate_yearly(d)`: months January through the month
   * of `d` are run through the monthly calculation, then the yearly row is
   * overwritten with the sum of the year's monthly rows, unless it is zero.
   */
  function AfterYearly(orders: seq<Order>, stats: seq<Statistic>, d: Date): seq<Statistic>
    requires 1 <= d.month <= 12
  {
    var s1 := MonthlyForMonths(orders, stats, d.year, d.month);
    var t := YearlyTotal(orders, stats, d);
    if t == 0 then s1 else Upsert(s1, Statistic(Yearly, Date(d.year, 1, 1), t, None))
  }

  /** The monthly calculation never touches a yearly row. */
  lemma MonthlyLookupYearly(orders: seq<Order>, stats: seq<Statistic>, d: Date, y: int)
    requires 1 <= d.month <= 12
    ensures Lookup(AfterMonthly(orders, stats, d), YearKey(y)) == Lookup(stats, YearKey(y))
  {
    var n := DaysInMonth(d.year, d.month);
    DaysLookupOther(orders, stats, d.year, d.month, n, YearKey(y));
    UpsertLookup(DailyForDays(orders, stats, d.year, d.month, n),
      Statistic(Monthly, MonthStart(d.year, d.month), MonthlyTotal(orders, stats, d), None), YearKey(y));
  }

  lemma {:induction false} MonthsLookupYearly(orders: seq<Order>, stats: seq<Statistic>, y: int, n: nat, y': int)
    requires n <= 12
    ensures Lookup(MonthlyForMonths(orders, stats, y, n), YearKey(y')) == Lookup(stats, YearKey(y'))
  {
    if n > 0 {
      MonthsLookupYearly(orders, stats, y, n - 1, y');
      MonthlyLookupYearly(orders, MonthlyForMonths(orders, stats, y, n - 1), Date(y, n, 1), y');
    }
  }

  /** The yearly row is overwritten with the year's monthly sum, or left as it was when that sum is zero. */
  lemma YearlyRow(orders: seq<Order>, stats: seq<Statistic>, d: Date)
    requires 1 <= d.month <= 12
    ensures Lookup(AfterYearly(orders, stats, d), YearKey(d.year)) ==
      if YearlyTotal(orders, stats, d) == 0 then Lookup(stats, YearKey(d.year))
      else Some(Statistic(Yearly, Date(d.year, 1, 1), YearlyTotal(orders, stats, d), None))
  {
    MonthsLookupYearly(orders, stats, d.year, d.month, d.year);
    UpsertLookup(MonthlyForMonths(orders, stats, d.year, d.month),
      Statistic(Yearly, Date(d.year, 1, 1), YearlyTotal(orders, stats, d), None), YearKey(d.year));
  }

  // ---------------------------------------------------------------------------
  // Deleting a day's orders

  /** The orders `delete_orders_for_statistics_day(d)` keeps: all but the paid ones created on `d`. */
  function KeepOrders(orders: seq<Order>, d: Date): seq<Order>
  {
    if orders == [] then []
    else if orders[|orders| - 1].isPaid && orders[|orders| - 1].created == d then KeepOrders(orders[..|orders| - 1], d)
    else KeepOrders(orders[..|orders| - 1], d) + [orders[|orders| - 1]]
  }

  /**
   * Deleting a day splits the orders: exactly the paid orders of that day go,
   * the rest stay in their order, and the count removed is the count of paid orders of the day.
   */
  lemma {:induction false} KeepOrdersSplit(orders: seq<Order>, d: Date)
    ensures forall o :: o in KeepOrders(orders, d) <==> o in orders && !(o.isPaid && o.created == d)
    ensures PaidOn(KeepOrders(orders, d), d) == []
    ensures |KeepOrders(orders, d)| + |PaidOn(orders, d)| == |orders|
  {
    if orders != [] {
      var init := orders[..|orders| - 1];
      KeepOrdersSplit(init, d);
      assert orders == init + [orders[|orders| - 1]];
      var last := orders[|orders| - 1];
      if !(last.isPaid && last.created == d) {
        var k := KeepOrders(init, d);
        assert (k + [last])[..|k + [last]| - 1] == k;
      }
    }
  }

  /** Deleting keeps order ids increasing. */
  lemma {:induction false} KeepOrdersValid(orders: seq<Order>, tables: set<TableId>, next: nat, d: Date)
    requires OrdersValid(orders, tables, next)
    ensures OrdersValid(KeepOrders(orders, d), tables, next)
  {
    if orders != [] {
      var init := orders[..|orders| - 1];
      KeepOrdersValid(init, tables, next, d);
      KeepOrdersSplit(init, d);
      var k := KeepOrders(init, d);
      assert forall i :: 0 <= i < |k| ==> k[i] in init;
    }
  }

  /**
   * The Z-report: when the day had no daily row, the row written before the
   * deletion carries the sum of the totals of exactly the orders deleted.
   */
  lemma ZReportArchivesDeleted(orders: seq<Order>, stats: seq<Statistic>, d: Date)
    requires Lookup(stats, DailyKey(d)).None?
    ensures Lookup(AfterDaily(orders, stats, d), DailyKey(d)) ==
      if SumTotals(PaidOn(orders, d)) == 0 then None
      else Some(Statistic(Daily, d, SumTotals(PaidOn(orders, d)), None))
  {
    DailyRowAfterRun(orders, stats, d);
  }

  /**
   * The Z-report is stable: once a day's paid orders are deleted, running the
   * daily calculation for that day again leaves its daily row as it was.
   */
  lemma DailyRowSurvivesDelete(orders: seq<Order>, stats: seq<Statistic>, d: Date)
    ensures Lookup(AfterDaily(KeepOrders(orders, d), AfterDaily(orders, stats, d), d), DailyKey(d))
      == Lookup(AfterDaily(orders, stats, d), DailyKey(d))
  {
    var s1 := AfterDaily(orders, stats, d);
    DailyRowAfterRun(orders, stats, d);
    DailyRowAfterRun(KeepOrders(orders, d), s1, d);
    KeepOrdersSplit(orders, d);
  }
}
