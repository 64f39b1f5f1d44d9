/**
 * What a receipt contains, independent of its text layout: the lines of
 * `PrinterService._generate_body` and `PrinterServiceV2._generate_body_for_orders`
 * (apps/orders/apis/printer.py) and the order data of
 * `PrinterService._generate_order_data` (apps/printers/utils/service.py).
 * Receipts price every line at the meal's current price, not at the stored
 * item price the order total is built from.
 */
module Receipts {
  import opened Common
  import opened OrderModel

  /**
   * The meal an item names. Items always name an existing meal (the meal
   * foreign key cascades), so the fallback is never used.
   */
  function MealRecord(meals: map<MealId, Meal>, id: MealId): Meal {
    if id in meals then meals[id] else Meal("", 0)
  }

  /** One receipt line: meal name, quantity, live meal price and `line_total = quantity * price`. */
  datatype Line = Line(name: string, quantity: int, price: Cents, lineTotal: Cents)

  function LineOf(meals: map<MealId, Meal>, it: OrderItem): Line {
    var meal := MealRecord(meals, it.meal);
    Line(meal.name, it.quantity, meal.price, it.quantity * meal.price)
  }

  /** One line per item, in item order. */
  function Lines(meals: map<MealId, Meal>, items: seq<OrderItem>): seq<Line> {
    seq(|items|, i requires 0 <= i < |items| => LineOf(meals, items[i]))
  }

  /** `sum(item.quantity * item.meal.price for item in items)`. */
  function ReceiptTotal(meals: map<MealId, Meal>, items: seq<OrderItem>): Cents {
    if items == [] then 0
    else ReceiptTotal(meals, items[..|items| - 1]) + items[|items| - 1].quantity * MealRecord(meals, items[|items| - 1].meal).price
  }

  /** The sum of the `line_total` of `ls`. */
  function SumLineTotals(ls: seq<Line>): Cents {
    if ls == [] then 0 else SumLineTotals(ls[..|ls| - 1]) + ls[|ls| - 1].lineTotal
  }

  /** The receipt total is the sum of the printed line totals. */
  lemma {:induction false} LineTotalsMatchReceiptTotal(meals: map<MealId, Meal>, items: seq<OrderItem>)
    ensures SumLineTotals(Lines(meals, items)) == ReceiptTotal(meals, items)
  {
    if items != [] {
      var init := items[..|items| - 1];
      LineTotalsMatchReceiptTotal(meals, init);
      assert Lines(meals, items)[..|items| - 1] == Lines(meals, init);
    }
  }

  lemma {:induction false} ReceiptTotalConcat(meals: map<MealId, Meal>, a: seq<OrderItem>, b: seq<OrderItem>)
    ensures ReceiptTotal(meals, a + b) == ReceiptTotal(meals, a) + ReceiptTotal(meals, b)
  {
    if b == [] {
      assert a + b == a;
    } else {
      assert (a + b)[..|a + b| - 1] == a + b[..|b| - 1];
      ReceiptTotalConcat(meals, a, b[..|b| - 1]);
    }
  }

  /** A line with its running number. */
  datatype NumberedLine = NumberedLine(index: nat, line: Line)

  /** `ls` numbered from `start` on (`enumerate(items, start=1)` for `start == 1`). */
  function Numbered(ls: seq<Line>, start: nat): seq<NumberedLine> {
    seq(|ls|, i requires 0 <= i < |ls| => NumberedLine(start + i, ls[i]))
  }

  /** The receipt of one order (`generate_receipt_text`): header waitress, numbered lines, total. */
  datatype Receipt = Receipt(waitress: Option<UserId>, lines: seq<NumberedLine>, total: Cents)

  function ReceiptFor(meals: map<MealId, Meal>, items: seq<OrderItem>, o: Order): Receipt {
    var its := ItemsOf(items, o.id);
    Receipt(o.waitress, Numbered(Lines(meals, its), 1), ReceiptTotal(meals, its))
  }

  /**
   * A one-order receipt lists exactly the order's items, numbered 1..n in
   * item order at the live meal price, and its total is the sum of the line totals.
   */
  lemma ReceiptForSpec(meals: map<MealId, Meal>, items: seq<OrderItem>, o: Order)
    ensures var rc := ReceiptFor(meals, items, o);
      && |rc.lines| == |ItemsOf(items, o.id)|
      && (forall i :: 0 <= i < |rc.lines| ==> rc.lines[i].index == i + 1)
      && (forall l :: l in rc.lines ==> exists it :: it in items && it.order == o.id && l.line == LineOf(meals, it))
      && (var its := ItemsOf(items, o.id);
          forall i :: 0 <= i < |its| ==> rc.lines[i] == NumberedLine(i + 1, LineOf(meals, its[i])))
      && rc.total == SumLineTotals(Lines(meals, ItemsOf(items, o.id)))
  {
    var its := ItemsOf(items, o.id);
    StoredTotalOfItemsOf(items, o.id);
    LineTotalsMatchReceiptTotal(meals, its);
    forall l | l in ReceiptFor(meals, items, o).lines
      ensures exists it :: it in items && it.order == o.id && l.line == LineOf(meals, it)
    {
      var i :| 0 <= i < |its| && Numbered(Lines(meals, its), 1)[i] == l;
      assert its[i] in its;
    }
  }

  /** One entry of the multi-order receipt body. */
  datatype BodyEntry =
    | OrderHeader(id: OrderId)
    | ItemLine(numbered: NumberedLine)
    | OrderTotal(total: Cents)
    | Separator

  function AsEntries(ns: seq<NumberedLine>): seq<BodyEntry> {
    seq(|ns|, i requires 0 <= i < |ns| => ItemLine(ns[i]))
  }

  /** The items of `orders`, order after order (`order.order_items.all()` for each). */
  function AllItems(items: seq<OrderItem>, orders: seq<Order>): seq<OrderItem> {
    if orders == [] then []
    else AllItems(items, orders[..|orders| - 1]) + ItemsOf(items, orders[|orders| - 1].id)
  }

  /** The sum of the receipt totals of `orders`. */
  function GrandTotal(meals: map<MealId, Meal>, items: seq<OrderItem>, orders: seq<Order>): Cents {
    if orders == [] then 0
    else GrandTotal(meals, items, orders[..|orders| - 1]) + ReceiptTotal(meals, ItemsOf(items, orders[|orders| - 1].id))
  }

  /** The body section of one order whose first line is numbered `start`. */
  function Section(meals: map<MealId, Meal>, items: seq<OrderItem>, o: Order, start: nat): seq<BodyEntry> {
    var its := ItemsOf(items, o.id);
    [OrderHeader(o.id)] + AsEntries(Numbered(Lines(meals, its), start)) + [OrderTotal(ReceiptTotal(meals, its)), Separator]
  }

  /** The body of `_generate_body_for_orders`: one section per order, the item number running on across orders. */
  function BodyForOrders(meals: map<MealId, Meal>, items: seq<OrderItem>, orders: seq<Order>): seq<BodyEntry> {
    if orders == [] then []
    else
      var init := orders[..|orders| - 1];
      BodyForOrders(meals, items, init) + Section(meals, items, orders[|orders| - 1], 1 + |AllItems(items, init)|)
  }

  /** The item lines of a body, in order. */
  function ItemLines(body: seq<BodyEntry>): seq<NumberedLine> {
    if body == [] then []
    else
      var e := body[|body| - 1];
      ItemLines(body[..|body| - 1]) + (if e.ItemLine? then [e.numbered] else [])
  }

  /** The sum of the per-order totals printed in a body. */
  function OrderTotalsSum(body: seq<BodyEntry>): Cents {
    if body == [] then 0
    else
      var e := body[|body| - 1];
      OrderTotalsSum(body[..|body| - 1]) + (if e.OrderTotal? then e.total else 0)
  }

  lemma {:induction false} BodyConcat(a: seq<BodyEntry>, b: seq<BodyEntry>)
    ensures ItemLines(a + b) == ItemLines(a) + ItemLines(b)
    ensures OrderTotalsSum(a + b) == OrderTotalsSum(a) + OrderTotalsSum(b)
  {
    if b == [] {
      assert a + b == a;
    } else {
      assert (a + b)[..|a + b| - 1] == a + b[..|b| - 1];
      BodyConcat(a, b[..|b| - 1]);
    }
  }

  lemma {:induction false} EntriesOfLines(ns: seq<NumberedLine>)
    ensures ItemLines(AsEntries(ns)) == ns
    ensures OrderTotalsSum(AsEntries(ns)) == 0
  {
    if ns != [] {
      var init := ns[..|ns| - 1];
      assert AsEntries(ns)[..|ns| - 1] == AsEntries(init);
      EntriesOfLines(init);
    }
  }

  lemma SectionSpec(meals: map<MealId, Meal>, items: seq<OrderItem>, o: Order, start: nat)
    ensures ItemLines(Section(meals, items, o, start)) == Numbered(Lines(meals, ItemsOf(items, o.id)), start)
    ensures OrderTotalsSum(Section(meals, items, o, start)) == ReceiptTotal(meals, ItemsOf(items, o.id))
  {
    var its := ItemsOf(items, o.id);
    var ns := Numbered(Lines(meals, its), start);
    var tail := [OrderTotal(ReceiptTotal(meals, its)), Separator];
    EntriesOfLines(ns);
    BodyConcat([OrderHeader(o.id)], AsEntries(ns));
    BodyConcat([OrderHeader(o.id)] + AsEntries(ns), tail);
    assert ItemLines([OrderHeader(o.id)]) == ItemLines([]) + [];
    assert tail[..1] == [OrderTotal(ReceiptTotal(meals, its))];
    assert ItemLines(tail) == ItemLines(tail[..1]) + [];
    assert OrderTotalsSum(tail) == OrderTotalsSum(tail[..1]);
    assert ItemLines(tail[..1]) == ItemLines([]) + [];
  }

  lemma NumberedLinesConcat(meals: map<MealId, Meal>, a: seq<OrderItem>, b: seq<OrderItem>, start: nat)
    ensures Numbered(Lines(meals, a + b), start) == Numbered(Lines(meals, a), start) + Numbered(Lines(meals, b), start + |a|)
  {
  }

  /**
   * The multi-order body lists every item of every order, order after order,
   * numbered 1, 2, ... without restarting at an order boundary; the per-order
   * totals add up to the grand total, which is the receipt total of all the items.
   */
  lemma {:induction false} BodyForOrdersSpec(meals: map<MealId, Meal>, items: seq<OrderItem>, orders: seq<Order>)
    ensures ItemLines(BodyForOrders(meals, items, orders)) == Numbered(Lines(meals, AllItems(items, orders)), 1)
    ensures OrderTotalsSum(BodyForOrders(meals, items, orders)) == GrandTotal(meals, items, orders)
    ensures GrandTotal(meals, items, orders) == ReceiptTotal(meals, AllItems(items, orders))
  {
    if orders != [] {
      var init := orders[..|orders| - 1];
      var o := orders[|orders| - 1];
      var start := 1 + |AllItems(items, init)|;
      BodyForOrdersSpec(meals, items, init);
      BodyConcat(BodyForOrders(meals, items, init), Section(meals, items, o, start));
      SectionSpec(meals, items, o, start);
      NumberedLinesConcat(meals, AllItems(items, init), ItemsOf(items, o.id), 1);
      ReceiptTotalConcat(meals, AllItems(items, init), ItemsOf(items, o.id));
    }
  }

  /** The item numbers of a multi-order body are exactly 1..n, and the grand total is the sum of all line totals. */
  lemma BodyIndexContinuous(meals: map<MealId, Meal>, items: seq<OrderItem>, orders: seq<Order>)
    ensures var ls := ItemLines(BodyForOrders(meals, items, orders));
      && |ls| == |AllItems(items, orders)|
      && (forall i :: 0 <= i < |ls| ==> ls[i].index == i + 1 && ls[i].line == LineOf(meals, AllItems(items, orders)[i]))
      && GrandTotal(meals, items, orders) == SumLineTotals(Lines(meals, AllItems(items, orders)))
  {
    BodyForOrdersSpec(meals, items, orders);
    LineTotalsMatchReceiptTotal(meals, AllItems(items, orders));
  }

  /** The data of one order in a printer-service receipt. */
  datatype OrderData = OrderData(orderId: OrderId, items: seq<Line>, orderTotal: Cents)

  function OrderDataOf(meals: map<MealId, Meal>, items: seq<OrderItem>, o: Order): OrderData {
    var its := ItemsOf(items, o.id);
    OrderData(o.id, Lines(meals, its), ReceiptTotal(meals, its))
  }

  /**
   * The service's order data has one entry per item of the order, in item
   * order, and its `order_total` is the sum of the entries' `line_total`,
   * the same total the multi-order body prints for the order.
   */
  lemma OrderDataSpec(meals: map<MealId, Meal>, items: seq<OrderItem>, o: Order, start: nat)
    ensures var d := OrderDataOf(meals, items, o);
      && |d.items| == |ItemsOf(items, o.id)|
      && d.orderTotal == SumLineTotals(d.items)
      && OrderTotalsSum(Section(meals, items, o, start)) == d.orderTotal
  {
    LineTotalsMatchReceiptTotal(meals, ItemsOf(items, o.id));
    SectionSpec(meals, items, o, start);
  }
}
