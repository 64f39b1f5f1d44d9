/**
 * The database the views and managers read and write: tables, meals,
 * users, orders, order items and statistics rows, with the invariant every
 * operation keeps. `Order.update_total_price` (apps/orders/models/order.py)
 * is the one operation defined here; the others live in the module of the
 * source file that defines them.
 */
module Store {
  import opened Common
  import opened Calendar
  import opened OrderModel
  import opened Statistics

  class Database {
    var tables: set<TableId>
    var meals: map<MealId, Meal>
    var users: map<UserId, Role>
    var orders: seq<Order>
    var items: seq<OrderItem>
    var stats: seq<Statistic>
    var nextOrderId: nat
    var nextItemId: nat

    ghost predicate Valid()
      reads this
    {
      && OrdersValid(orders, tables, nextOrderId)
      && ItemsValid(items, orders, meals, nextItemId)
      && StatsValid(stats)
    }
  }

  /** The failures the operations report; the comment gives the HTTP status of the response. */
  datatype Error =
    | UnpaidOrderExists    // 400: creating a second unpaid order for a table
    | InvalidTable         // 400: the order serializer rejects a table id that does not exist
    | OrderNotFound        // 404: no (current) order for the table
    | TableNotFound        // 404
    | TableIdRequired      // 400: a table id of 0
    | WaitressNotFound     // 404: no user of type waitress with that id
    | TableNotAssignable   // 404
    | MealIdRequired       // 400: missing (or, in a batch, zero) meal id
    | MealNotFound(meal: MealId) // 400
    | QuantityBelowOne     // 400: removal quantity under the serializer's min_value
    | ItemNotFound         // 400: the order has no line for the meal
    | CheckPrintable       // 404: a reset asked for while printing is allowed
    | BatchRaised          // 400: an exception inside the batch transaction

  /**
   * `Table.current_order` is used but not defined in the source: all the
   * model assumes of the value it yields for table `t` is that it is absent or
   * an unpaid order of `t`.
   */
  ghost predicate IsCurrentOrder(db: Database, t: TableId, cur: Option<OrderId>)
    reads db
  {
    cur.Some? ==>
      && cur.value in Ids(db.orders)
      && OrderById(db.orders, cur.value).table == t
      && !OrderById(db.orders, cur.value).isPaid
  }

  /** Likewise `Table.current_orders`: distinct unpaid orders of table `t`. */
  ghost predicate AreCurrentOrders(db: Database, t: TableId, curs: seq<OrderId>)
    reads db
  {
    && (forall i :: 0 <= i < |curs| ==> IsCurrentOrder(db, t, Some(curs[i])))
    && (forall i, j :: 0 <= i < j < |curs| ==> curs[i] != curs[j])
  }

  /** `order.save()` for an order row `o` that exists, on a table that exists. */
  method SaveOrder(db: Database, o: Order)
    requires db.Valid() && o.id in Ids(db.orders) && o.table in db.tables
    modifies db`orders
    ensures db.Valid()
    ensures db.orders == ReplaceOrder(old(db.orders), o)
  {
    var k := FindOrder(db.orders, o.id).value;
    ReplaceAt(db.orders, db.tables, db.nextOrderId, k, o);
    ReplaceOrderValid(db.orders, db.tables, db.nextOrderId, o);
    db.orders := db.orders[k := o];
  }

  /** Writing back the item rows, as an item `save()` or `delete()` does. */
  method SaveItems(db: Database, items: seq<OrderItem>)
    requires db.Valid() && ItemsValid(items, db.orders, db.meals, db.nextItemId)
    modifies db`items
    ensures db.Valid() && db.items == items
  {
    db.items := items;
  }

  /** Writing back the order and item rows together, as a cascading delete of orders does. */
  method SaveOrdersAndItems(db: Database, orders: seq<Order>, items: seq<OrderItem>)
    requires db.Valid()
    requires OrdersValid(orders, db.tables, db.nextOrderId) && ItemsValid(items, orders, db.meals, db.nextItemId)
    modifies db`orders, db`items
    ensures db.Valid() && db.orders == orders && db.items == items
  {
    db.orders, db.items := orders, items;
  }

  /**
   * `order.update_total_price()`: the order's total becomes the sum of the
   * stored prices of its items; no other field and no other row changes.
   */
  method UpdateTotalPrice(db: Database, oid: OrderId)
    requires db.Valid() && oid in Ids(db.orders)
    modifies db`orders
    ensures db.Valid()
    ensures db.orders == ReplaceOrder(old(db.orders), OrderById(old(db.orders), oid).(totalPrice := StoredTotal(db.items, oid)))
  {
    var o := OrderById(db.orders, oid);
    SaveOrder(db, o.(totalPrice := StoredTotal(db.items, oid)));
  }

  /** `orders.filter(id__in=ids).update(is_check_printed=v)`: only that flag of those orders changes. */
  function MarkPrinted(orders: seq<Order>, ids: seq<OrderId>, v: bool): (r: seq<Order>)
    ensures Ids(r) == Ids(orders)
  {
    seq(|orders|, i requires 0 <= i < |orders| => if orders[i].id in ids then orders[i].(isCheckPrinted := v) else orders[i])
  }

  /**
   * After the update every listed order carries flag `v`, every other order
   * is as before, and no other field of any order changes.
   */
  lemma MarkPrintedSpec(orders: seq<Order>, tables: set<TableId>, next: nat, ids: seq<OrderId>, v: bool)
    requires OrdersValid(orders, tables, next)
    ensures var r := MarkPrinted(orders, ids, v);
      && OrdersValid(r, tables, next)
      && (forall id :: id in ids && id in Ids(orders) ==> OrderById(r, id) == OrderById(orders, id).(isCheckPrinted := v))
      && (forall i :: 0 <= i < |orders| && orders[i].id !in ids ==> r[i] == orders[i])
  {
    var r := MarkPrinted(orders, ids, v);
    forall id | id in ids && id in Ids(orders)
      ensures OrderById(r, id) == OrderById(orders, id).(isCheckPrinted := v)
    {
      var k := FindOrder(orders, id).value;
      assert r[k].id == id;
      var j := FindOrder(r, id).value;
      assert j == k;
    }
  }

  /** `current_orders.update(is_check_printed=v)`. */
  method MarkOrdersPrinted(db: Database, ids: seq<OrderId>, v: bool)
    requires db.Valid()
    modifies db`orders
    ensures db.Valid()
    ensures db.orders == MarkPrinted(old(db.orders), ids, v)
  {
    MarkPrintedSpec(db.orders, db.tables, db.nextOrderId, ids, v);
    db.orders := MarkPrinted(db.orders, ids, v);
  }

  /** The order rows with the given ids, in that order. */
  function OrdersWithIds(orders: seq<Order>, ids: seq<OrderId>): seq<Order>
    requires forall i :: 0 <= i < |ids| ==> ids[i] in Ids(orders)
  {
    seq(|ids|, i requires 0 <= i < |ids| => OrderById(orders, ids[i]))
  }
}
