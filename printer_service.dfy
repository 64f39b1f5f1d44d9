/**
 * The socket printer service of apps/printers/utils/service.py: the receipt
 * data it builds for a table's current orders, and the print gate and flag
 * update of `print_orders_for_table`.
 */
module PrinterService {
  import opened Common
  import opened OrderModel
  import opened Store
  import opened Receipts
  import opened Printer

  /** `_generate_order_data`: one entry per item, in item order, and the accumulated order total. */
  method GenerateOrderData(meals: map<MealId, Meal>, items: seq<OrderItem>, o: Order) returns (d: OrderData)
    ensures d == OrderDataOf(meals, items, o)
  {
    var its := ItemsOf(items, o.id);
    var lines: seq<Line> := [];
    var total := 0;
    var j := 0;
    while j < |its|
      invariant 0 <= j <= |its|
      invariant lines == Lines(meals, its[..j])
      invariant total == ReceiptTotal(meals, its[..j])
    {
      var item := its[j];
      var meal := MealRecord(meals, item.meal);
      var lineTotal := item.quantity * meal.price;
      assert its[..j + 1][..j] == its[..j];
      lines := lines + [Line(meal.name, item.quantity, meal.price, lineTotal)];
      total := total + lineTotal;
      j := j + 1;
    }
    assert its[..j] == its;
    d := OrderData(o.id, lines, total);
  }

  /** The JSON receipt: empty for no orders, else the header waitress and one entry per order. */
  datatype ReceiptData = NoData | ReceiptData(waitress: UserId, orders: seq<OrderData>)

  /**
   * What `generate_receipt_data_for_orders` yields: `{}` for no orders;
   * `None` when `table.current_order.waitress` is missing, which raises;
   * otherwise the header waitress and the data of each order.
   */
  function ReceiptDataFor(meals: map<MealId, Meal>, items: seq<OrderItem>, orders: seq<Order>, waitress: Option<UserId>): Option<ReceiptData> {
    if orders == [] then Some(NoData)
    else if waitress.None? then None
    else Some(ReceiptData(waitress.value, seq(|orders|, i requires 0 <= i < |orders| => OrderDataOf(meals, items, orders[i]))))
  }

  /** `generate_receipt_data_for_orders`. */
  method GenerateReceiptDataForOrders(meals: map<MealId, Meal>, items: seq<OrderItem>, orders: seq<Order>, waitress: Option<UserId>)
    returns (r: Option<ReceiptData>)
    ensures r == ReceiptDataFor(meals, items, orders, waitress)
  {
    if orders == [] {
      return Some(NoData);
    }
    if waitress.None? {
      return None;
    }
    var data: seq<OrderData> := [];
    var i := 0;
    while i < |orders|
      invariant 0 <= i <= |orders|
      invariant |data| == i
      invariant forall k :: 0 <= k < i ==> data[k] == OrderDataOf(meals, items, orders[k])
    {
      var d := GenerateOrderData(meals, items, orders[i]);
      data := data + [d];
      i := i + 1;
    }
    assert data == seq(|orders|, i requires 0 <= i < |orders| => OrderDataOf(meals, items, orders[i]));
    r := Some(ReceiptData(waitress.value, data));
  }

  /** The sum of the `order_total` of the entries. */
  function SumOrderTotals(ds: seq<OrderData>): Cents {
    if ds == [] then 0 else SumOrderTotals(ds[..|ds| - 1]) + ds[|ds| - 1].orderTotal
  }

  /**
   * The service receipt has one entry per order, in input order, each with
   * its order's id; the order totals add up to the grand total the
   * multi-order printed receipt shows for the same orders.
   */
  lemma {:induction false} ReceiptDataSpec(meals: map<MealId, Meal>, items: seq<OrderItem>, orders: seq<Order>, w: UserId)
    requires orders != []
    ensures var d := ReceiptDataFor(meals, items, orders, Some(w)).value;
      && |d.orders| == |orders|
      && (forall i :: 0 <= i < |orders| ==> d.orders[i].orderId == orders[i].id)
      && SumOrderTotals(d.orders) == GrandTotal(meals, items, orders)
      && SumOrderTotals(d.orders) == OrderTotalsSum(BodyForOrders(meals, items, orders))
  {
    SumsAgree(meals, items, orders);
    BodyForOrdersSpec(meals, items, orders);
  }

  lemma {:induction false} SumsAgree(meals: map<MealId, Meal>, items: seq<OrderItem>, orders: seq<Order>)
    ensures SumOrderTotals(seq(|orders|, i requires 0 <= i < |orders| => OrderDataOf(meals, items, orders[i]))) == GrandTotal(meals, items, orders)
  {
    if orders != [] {
      var init := orders[..|orders| - 1];
      SumsAgree(meals, items, init);
      var ds := seq(|orders|, i requires 0 <= i < |orders| => OrderDataOf(meals, items, orders[i]));
      assert ds[..|ds| - 1] == seq(|init|, i requires 0 <= i < |init| => OrderDataOf(meals, items, init[i]));
    }
  }

  /**
   * `print_orders_for_table`: a missing table and a closed gate fail before
   * anything is sent; missing header data raises; otherwise the data (`{}`
   * when there are no orders) is sent, and only a 200 reply marks every
   * current order printed. A missing main printer raises; a socket failure
   * answers 500.
   */
  method PrintOrdersForTable(db: Database, t: TableId, cur: Option<OrderId>, curs: seq<OrderId>, canPrint: bool, force: bool, reply: Reply)
    returns (r: PrintResult, sent: Option<ReceiptData>)
    requires db.Valid() && IsCurrentOrder(db, t, cur) && AreCurrentOrders(db, t, curs)
    modifies db`orders
    ensures db.Valid()
    ensures t !in db.tables ==> r == TableMissing && sent.None?
    ensures t in db.tables && !canPrint && !force ==> r == NotAllowed && sent.None?
    ensures t in db.tables && (canPrint || force) ==>
      var data := ReceiptDataFor(db.meals, db.items, OrdersWithIds(old(db.orders), curs), HeaderWaitress(old(db.orders), cur));
      && (data.None? ==> r == Raised && sent.None?)
      && (data.Some? ==> sent == data && r == SendResult(reply))
    ensures r == Printed ==> db.orders == MarkPrinted(old(db.orders), curs, true)
    ensures r != Printed ==> db.orders == old(db.orders)
  {
    sent := None;
    if t !in db.tables {
      return TableMissing, None;
    }
    if !canPrint && !force {
      return NotAllowed, None;
    }
    var orders := OrdersWithIds(db.orders, curs);
    var data := GenerateReceiptDataForOrders(db.meals, db.items, orders, HeaderWaitress(db.orders, cur));
    if data.None? {
      return Raised, None;
    }
    sent := data;
    if reply == Raises {
      return Raised, sent;
    }
    if reply.code == 200 {
      MarkOrdersPrinted(db, curs, true);
      r := Printed;
    } else {
      r := NotPrinted;
    }
  }
}
