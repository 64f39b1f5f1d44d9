/**
 * The check printer of apps/orders/apis/printer.py: the receipt bodies of
 * `PrinterService` (one order) and `PrinterServiceV2` (all current orders of
 * a table), the print gate and the `is_check_printed` flag updates of the
 * print and reset views.
 */
module Printer {
  import opened Common
  import opened OrderModel
  import opened Store
  import opened Receipts

  /** The printer's answer to a send: an HTTP status, or an exception raised by the transport. */
  datatype Reply = Status(code: int) | Raises

  /** The outcome of a print request. */
  datatype PrintResult =
    | Printed        // the printer answered 200
    | TableMissing   // `Table.DoesNotExist`
    | NotAllowed     // `can_print_check()` false and not forced
    | NoActiveOrder
    | NotPrinted     // the printer answered another status
    | Raised         // an exception left the service

  /** The result of a send that was made. */
  function SendResult(reply: Reply): PrintResult {
    if reply == Status(200) then Printed else if reply == Raises then Raised else NotPrinted
  }

  /**
   * `PrinterService._generate_body`: the numbered lines, then a separate
   * `sum(quantity * meal.price)` over the items.
   */
  method GenerateBody(meals: map<MealId, Meal>, items: seq<OrderItem>) returns (body: seq<NumberedLine>, total: Cents)
    ensures body == Numbered(Lines(meals, items), 1)
    ensures total == ReceiptTotal(meals, items)
  {
    body := [];
    var i := 0;
    while i < |items|
      invariant 0 <= i <= |items|
      invariant body == Numbered(Lines(meals, items[..i]), 1)
    {
      var item := items[i];
      var meal := MealRecord(meals, item.meal);
      body := body + [NumberedLine(i + 1, Line(meal.name, item.quantity, meal.price, item.quantity * meal.price))];
      i := i + 1;
    }
    assert items[..i] == items;
    total := 0;
    for k := 0 to |items|
      invariant total == ReceiptTotal(meals, items[..k])
    {
      assert items[..k + 1][..k] == items[..k];
      total := total + items[k].quantity * MealRecord(meals, items[k].meal).price;
    }
    assert items[..|items|] == items;
  }

  /** `PrinterService.generate_receipt_text` for order `o`. */
  method GenerateReceiptText(meals: map<MealId, Meal>, items: seq<OrderItem>, o: Order) returns (rc: Receipt)
    ensures rc == ReceiptFor(meals, items, o)
  {
    var body, total := GenerateBody(meals, ItemsOf(items, o.id));
    rc := Receipt(o.waitress, body, total);
  }

  /**
   * `PrinterService.print_order_for_table`: a missing table, a closed gate
   * (`can_print_check()` false and not forced) and a table without a current
   * order each fail before anything is sent; otherwise the current order's
   * receipt is sent and only a 200 reply marks that order printed.
   */
  method PrintOrderForTable(db: Database, t: TableId, cur: Option<OrderId>, canPrint: bool, force: bool, reply: Reply)
    returns (r: PrintResult, sent: Option<Receipt>)
    requires db.Valid() && IsCurrentOrder(db, t, cur)
    modifies db`orders
    ensures db.Valid()
    ensures t !in db.tables ==> r == TableMissing
    ensures t in db.tables && !canPrint && !force ==> r == NotAllowed
    ensures t in db.tables && (canPrint || force) && cur.None? ==> r == NoActiveOrder
    ensures t in db.tables && (canPrint || force) && cur.Some? ==>
      sent == Some(ReceiptFor(db.meals, db.items, OrderById(old(db.orders), cur.value))) && r == SendResult(reply)
    ensures sent.Some? ==> t in db.tables && (canPrint || force) && cur.Some?
    ensures r == Printed ==>
      cur.Some? && db.orders == ReplaceOrder(old(db.orders), OrderById(old(db.orders), cur.value).(isCheckPrinted := true))
    ensures r != Printed ==> db.orders == old(db.orders)
  {
    sent := None;
    if t !in db.tables {
      return TableMissing, None;
    }
    if !canPrint && !force {
      return NotAllowed, None;
    }
    if cur.None? {
      return NoActiveOrder, None;
    }
    var order := OrderById(db.orders, cur.value);
    var receipt := GenerateReceiptText(db.meals, db.items, order);
    sent := Some(receipt);
    if reply == Raises {
      return Raised, sent;
    }
    if reply.code == 200 {
      SaveOrder(db, order.(isCheckPrinted := true));
      r := Printed;
    } else {
      r := NotPrinted;
    }
  }

  /**
   * `PrintCheckAPIView.delete`: a table id of 0 is refused; then the table
   * and its current order must exist; a reset is refused while printing is
   * allowed; otherwise the current order is marked not printed.
   */
  method ResetCheck(db: Database, t: TableId, cur: Option<OrderId>, canPrint: bool) returns (r: Result<(), Error>)
    requires db.Valid() && IsCurrentOrder(db, t, cur)
    modifies db`orders
    ensures db.Valid()
    ensures t == 0 ==> r == Err(TableIdRequired)
    ensures t != 0 && t !in db.tables ==> r == Err(TableNotFound)
    ensures t != 0 && t in db.tables && cur.None? ==> r == Err(OrderNotFound)
    ensures t != 0 && t in db.tables && cur.Some? && canPrint ==> r == Err(CheckPrintable)
    ensures t != 0 && t in db.tables && cur.Some? && !canPrint ==>
      r.Ok? && db.orders == ReplaceOrder(old(db.orders), OrderById(old(db.orders), cur.value).(isCheckPrinted := false))
    ensures r.Err? ==> db.orders == old(db.orders)
  {
    if t == 0 {
      return Err(TableIdRequired);
    }
    if t !in db.tables {
      return Err(TableNotFound);
    }
    if cur.None? {
      return Err(OrderNotFound);
    }
    if canPrint {
      return Err(CheckPrintable);
    }
    SaveOrder(db, OrderById(db.orders, cur.value).(isCheckPrinted := false));
    r := Ok(());
  }

  lemma LineStep(meals: map<MealId, Meal>, its: seq<OrderItem>, j: nat, start: nat)
    requires j < |its|
    ensures AsEntries(Numbered(Lines(meals, its[..j + 1]), start))
         == AsEntries(Numbered(Lines(meals, its[..j]), start)) + [ItemLine(NumberedLine(start + j, LineOf(meals, its[j])))]
    ensures ReceiptTotal(meals, its[..j + 1]) == ReceiptTotal(meals, its[..j]) + its[j].quantity * MealRecord(meals, its[j].meal).price
  {
    assert its[..j + 1][..j] == its[..j];
  }

  lemma SectionStep(meals: map<MealId, Meal>, items: seq<OrderItem>, orders: seq<Order>, i: nat)
    requires i < |orders|
    ensures var start := 1 + |AllItems(items, orders[..i])|;
      && BodyForOrders(meals, items, orders[..i + 1]) == BodyForOrders(meals, items, orders[..i]) + Section(meals, items, orders[i], start)
      && GrandTotal(meals, items, orders[..i + 1]) == GrandTotal(meals, items, orders[..i]) + ReceiptTotal(meals, ItemsOf(items, orders[i].id))
      && |AllItems(items, orders[..i + 1])| == start - 1 + |ItemsOf(items, orders[i].id)|
  {
    assert orders[..i + 1][..i] == orders[..i];
  }

  /**
   * The inner loop of `_generate_body_for_orders` over one order's items:
   * the item lines numbered from `start` and the order total.
   */
  method GenerateOrderLines(meals: map<MealId, Meal>, its: seq<OrderItem>, start: nat)
    returns (lines: seq<BodyEntry>, orderTotal: Cents)
    ensures lines == AsEntries(Numbered(Lines(meals, its), start))
    ensures orderTotal == ReceiptTotal(meals, its)
  {
    lines := [];
    orderTotal := 0;
    var itemIndex := start;
    var j := 0;
    while j < |its|
      invariant 0 <= j <= |its|
      invariant itemIndex == start + j
      invariant lines == AsEntries(Numbered(Lines(meals, its[..j]), start))
      invariant orderTotal == ReceiptTotal(meals, its[..j])
    {
      var item := its[j];
      var meal := MealRecord(meals, item.meal);
      var lineTotal := item.quantity * meal.price;
      LineStep(meals, its, j, start);
      lines := lines + [ItemLine(NumberedLine(itemIndex, Line(meal.name, item.quantity, meal.price, lineTotal)))];
      orderTotal := orderTotal + lineTotal;
      itemIndex := itemIndex + 1;
      j := j + 1;
    }
    assert its[..j] == its;
  }

  /**
   * `PrinterServiceV2._generate_body_for_orders`: a section per order (its
   * id, its item lines, its total, a separator), the item number running on
   * across orders, and the grand total.
   */
  method GenerateBodyForOrders(meals: map<MealId, Meal>, items: seq<OrderItem>, orders: seq<Order>)
    returns (body: seq<BodyEntry>, total: Cents)
    ensures body == BodyForOrders(meals, items, orders)
    ensures total == GrandTotal(meals, items, orders)
  {
    body := [];
    total := 0;
    var itemIndex: nat := 1;
    var i := 0;
    while i < |orders|
      invariant 0 <= i <= |orders|
      invariant body == BodyForOrders(meals, items, orders[..i])
      invariant total == GrandTotal(meals, items, orders[..i])
      invariant itemIndex == 1 + |AllItems(items, orders[..i])|
    {
      var o := orders[i];
      var its := ItemsOf(items, o.id);
      var lines, orderTotal := GenerateOrderLines(meals, its, itemIndex);
      SectionStep(meals, items, orders, i);
      body := body + ([OrderHeader(o.id)] + lines + [OrderTotal(orderTotal), Separator]);
      total := total + orderTotal;
      itemIndex := itemIndex + |its|;
      i := i + 1;
    }
    assert orders[..i] == orders;
  }

  /** The multi-order receipt: empty when there are no orders, else header waitress, body and total. */
  datatype MultiReceipt = EmptyText | MultiReceipt(waitress: UserId, body: seq<BodyEntry>, total: Cents)

  /**
   * What `generate_receipt_text_for_orders` yields: the empty text for no
   * orders; `None` when the header's `table.current_order.waitress` is
   * missing, which raises; otherwise the header waitress, body and grand total.
   */
  function ReceiptTextFor(meals: map<MealId, Meal>, items: seq<OrderItem>, orders: seq<Order>, waitress: Option<UserId>): Option<MultiReceipt> {
    if orders == [] then Some(EmptyText)
    else if waitress.None? then None
    else Some(MultiReceipt(waitress.value, BodyForOrders(meals, items, orders), GrandTotal(meals, items, orders)))
  }

  /** `PrinterServiceV2.generate_receipt_text_for_orders`. */
  method GenerateReceiptTextForOrders(meals: map<MealId, Meal>, items: seq<OrderItem>, orders: seq<Order>, waitress: Option<UserId>)
    returns (r: Option<MultiReceipt>)
    ensures r == ReceiptTextFor(meals, items, orders, waitress)
  {
    if orders == [] {
      return Some(EmptyText);
    }
    if waitress.None? {
      return None;
    }
    var body, total := GenerateBodyForOrders(meals, items, orders);
    r := Some(MultiReceipt(waitress.value, body, total));
  }

  /** The waitress the V2 header names: that of the table's current order, if both exist. */
  function HeaderWaitress(orders: seq<Order>, cur: Option<OrderId>): Option<UserId>
    requires cur.Some? ==> cur.value in Ids(orders)
  {
    if cur.None? then None else OrderById(orders, cur.value).waitress
  }

  /**
   * `PrinterServiceV2.print_orders_for_table`: a missing table and a closed
   * gate fail before anything is sent; a receipt whose header cannot be
   * built raises; otherwise the receipt (possibly the empty text) is sent
   * and only a 200 reply marks every current order printed.
   */
  method PrintOrdersForTable(db: Database, t: TableId, cur: Option<OrderId>, curs: seq<OrderId>, canPrint: bool, force: bool, reply: Reply)
    returns (r: PrintResult, sent: Option<MultiReceipt>)
    requires db.Valid() && IsCurrentOrder(db, t, cur) && AreCurrentOrders(db, t, curs)
    modifies db`orders
    ensures db.Valid()
    ensures t !in db.tables ==> r == TableMissing && sent.None?
    ensures t in db.tables && !canPrint && !force ==> r == NotAllowed && sent.None?
    ensures t in db.tables && (canPrint || force) ==>
      var text := ReceiptTextFor(db.meals, db.items, OrdersWithIds(old(db.orders), curs), HeaderWaitress(old(db.orders), cur));
      && (text.None? ==> r == Raised && sent.None?)
      && (text.Some? ==> sent == text && r == SendResult(reply))
    ensures r == Printed ==> db.orders == MarkPrinted(old(db.orders), curs, true)
    ensures r != Printed ==> db.orders == old(db.orders)
  {
    sent := None;
    if t !in db.tables {
      return TableMissing, None;
    }
    if !canPrint && !force {
      return NotAllowed, None;
    }
    var orders := OrdersWithIds(db.orders, curs);
    var text := GenerateReceiptTextForOrders(db.meals, db.items, orders, HeaderWaitress(db.orders, cur));
    if text.None? {
      return Raised, None;
    }
    sent := text;
    if reply == Raises {
      return Raised, sent;
    }
    if reply.code == 200 {
      MarkOrdersPrinted(db, curs, true);
      r := Printed;
    } else {
      r := NotPrinted;
    }
  }

  /**
   * `PrintCheckAPIViewV2.delete`: a table id of 0 is refused; then the table
   * must exist and have current orders; a reset is refused while printing
   * is allowed; otherwise every current order is marked not printed.
   */
  method ResetChecks(db: Database, t: TableId, curs: seq<OrderId>, canPrint: bool) returns (r: Result<(), Error>)
    requires db.Valid() && AreCurrentOrders(db, t, curs)
    modifies db`orders
    ensures db.Valid()
    ensures t == 0 ==> r == Err(TableIdRequired)
    ensures t != 0 && t !in db.tables ==> r == Err(TableNotFound)
    ensures t != 0 && t in db.tables && curs == [] ==> r == Err(OrderNotFound)
    ensures t != 0 && t in db.tables && curs != [] && canPrint ==> r == Err(CheckPrintable)
    ensures t != 0 && t in db.tables && curs != [] && !canPrint ==> r.Ok? && db.orders == MarkPrinted(old(db.orders), curs, false)
    ensures r.Err? ==> db.orders == old(db.orders)
  {
    if t == 0 {
      return Err(TableIdRequired);
    }
    if t !in db.tables {
      return Err(TableNotFound);
    }
    if curs == [] {
      return Err(OrderNotFound);
    }
    if canPrint {
      return Err(CheckPrintable);
    }
    MarkOrdersPrinted(db, curs, false);
    r := Ok(());
  }
}
