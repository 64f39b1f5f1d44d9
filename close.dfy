/**
 * `CloseTableOrderAPIView.delete` of apps/orders/apis/orders/close.py:
 * close a table's current order after trying to print its check.
 */
module Close {
  import opened Common
  import opened OrderModel
  import opened Store
  import opened Receipts
  import opened Printer

  /**
   * A missing table or current order fails with 404 and changes nothing.
   * Otherwise a print is attempted (unforced; every outcome, an exception
   * included, is ignored), while the order is still unpaid; then the order
   * row loaded before the print is saved with `is_paid` set. That save
   * writes back the row as it was before the print, so a flag the print
   * set is lost: the order ends paid and otherwise as it was. The call
   * always succeeds past the two checks.
   */
  method CloseTableOrder(db: Database, t: TableId, cur: Option<OrderId>, canPrint: bool, reply: Reply)
    returns (r: Result<(), Error>, sent: Option<Receipt>)
    requires db.Valid() && IsCurrentOrder(db, t, cur)
    modifies db`orders
    ensures db.Valid()
    ensures t !in db.tables ==> r == Err(TableNotFound) && sent.None?
    ensures t in db.tables && cur.None? ==> r == Err(OrderNotFound) && sent.None?
    ensures r.Err? ==> db.orders == old(db.orders)
    ensures t in db.tables && cur.Some? ==>
      && r.Ok?
      && (canPrint ==> sent == Some(ReceiptFor(db.meals, db.items, OrderById(old(db.orders), cur.value))))
      && (!canPrint ==> sent.None?)
      && db.orders == ReplaceOrder(old(db.orders), OrderById(old(db.orders), cur.value).(isPaid := true))
  {
    if t !in db.tables {
      return Err(TableNotFound), None;
    }
    if cur.None? {
      return Err(OrderNotFound), None;
    }
    var order := OrderById(db.orders, cur.value);
    var printed;
    printed, sent := PrintOrderForTable(db, t, cur, canPrint, false, reply);
    ReplaceOrderTwice(old(db.orders), order.(isCheckPrinted := true), order.(isPaid := true));
    SaveOrder(db, order.(isPaid := true));
    r := Ok(());
  }
}
