/**
 * The manager operations on a table's current order
 * (apps/orders/apis/managers.py): lowering or deleting a line, moving the
 * order to another table, handing it to another waitress, and closing it.
 */
module Managers {
  import opened Common
  import opened OrderModel
  import opened Store
  import opened OrderApi

  /**
   * The edit `DeleteOrderItemSerializer.save` makes to the item rows: lower
   * the line for meal `m` by `q`, deleting the row when nothing would be
   * left; `None` when the order has no such line.
   */
  function RemoveFromLine(items: seq<OrderItem>, oid: OrderId, m: MealId, q: int): (r: Option<seq<OrderItem>>)
    ensures r.None? <==> FindItem(items, oid, m).None?
  {
    match FindItem(items, oid, m)
    case None => None
    case Some(k) =>
      if items[k].quantity - q > 0 then Some(items[k := items[k].(quantity := items[k].quantity - q)])
      else Some(items[..k] + items[k + 1..])
  }

  /**
   * Removing `q` from a line holding `n` leaves `n - q` when that is
   * positive and no line at all otherwise; every other line keeps its
   * quantity and every other row survives.
   */
  lemma RemoveFromLineQuantity(items: seq<OrderItem>, orders: seq<Order>, meals: map<MealId, Meal>, next: nat, oid: OrderId, m: MealId, q: int)
    requires ItemsValid(items, orders, meals, next)
    requires FindItem(items, oid, m).Some?
    ensures var after := RemoveFromLine(items, oid, m, q).value;
      var n := LineQuantity(items, oid, m);
      && (n - q > 0 ==> LineQuantity(after, oid, m) == n - q)
      && (n - q <= 0 ==> FindItem(after, oid, m).None?)
      && (forall o, x :: (o != oid || x != m) ==> LineQuantity(after, o, x) == LineQuantity(items, o, x))
      && (forall it :: it in items && !(it.order == oid && it.meal == m) ==> it in after)
  {
    var k := FindItem(items, oid, m).value;
    var after := RemoveFromLine(items, oid, m, q).value;
    assert LineQuantity(items, oid, m) == items[k].quantity;
    if items[k].quantity - q > 0 {
      assert after == items[k := items[k].(quantity := items[k].quantity - q)];
      LowerLine(items, oid, m, k, items[k].quantity - q);
    } else {
      assert after == items[..k] + items[k + 1..];
      DeleteLine(items, orders, meals, next, oid, m, k);
    }
  }

  lemma LowerLine(items: seq<OrderItem>, oid: OrderId, m: MealId, k: nat, n: int)
    requires FindItem(items, oid, m) == Some(k)
    ensures var after := items[k := items[k].(quantity := n)];
      && LineQuantity(after, oid, m) == n
      && (forall o, x :: (o != oid || x != m) ==> LineQuantity(after, o, x) == LineQuantity(items, o, x))
      && (forall it :: it in items && !(it.order == oid && it.meal == m) ==> it in after)
  {
    var after := items[k := items[k].(quantity := n)];
    FindItemAt(after, oid, m, k);
    forall o, x | o != oid || x != m
      ensures LineQuantity(after, o, x) == LineQuantity(items, o, x)
    {
      match FindItem(items, o, x)
      case Some(j) => FindItemAt(after, o, x, j);
      case None =>
    }
    forall it | it in items && !(it.order == oid && it.meal == m)
      ensures it in after
    {
      var i :| 0 <= i < |items| && items[i] == it;
      assert after[i] == it;
    }
  }

  lemma DeleteLine(items: seq<OrderItem>, orders: seq<Order>, meals: map<MealId, Meal>, next: nat, oid: OrderId, m: MealId, k: nat)
    requires ItemsValid(items, orders, meals, next)
    requires FindItem(items, oid, m) == Some(k)
    ensures var after := items[..k] + items[k + 1..];
      && FindItem(after, oid, m).None?
      && (forall o, x :: (o != oid || x != m) ==> LineQuantity(after, o, x) == LineQuantity(items, o, x))
      && (forall it :: it in items && !(it.order == oid && it.meal == m) ==> it in after)
  {
    DeleteLineGone(items, orders, meals, next, oid, m, k);
    DeleteLineOthers(items, oid, m, k);
    DeleteLineKeeps(items, oid, m, k);
  }

  /** With one line per meal, deleting the line leaves none for the meal. */
  lemma DeleteLineGone(items: seq<OrderItem>, orders: seq<Order>, meals: map<MealId, Meal>, next: nat, oid: OrderId, m: MealId, k: nat)
    requires ItemsValid(items, orders, meals, next)
    requires FindItem(items, oid, m) == Some(k)
    ensures FindItem(items[..k] + items[k + 1..], oid, m).None?
  {
    var after := items[..k] + items[k + 1..];
    DeleteAt(items, k);
    forall i | 0 <= i < |after|
      ensures !(after[i].order == oid && after[i].meal == m)
    {
      if i >= k {
        assert !SameLine(items[k], items[i + 1]);
      }
    }
  }

  lemma DeleteLineOthers(items: seq<OrderItem>, oid: OrderId, m: MealId, k: nat)
    requires FindItem(items, oid, m) == Some(k)
    ensures var after := items[..k] + items[k + 1..];
      forall o, x :: (o != oid || x != m) ==> LineQuantity(after, o, x) == LineQuantity(items, o, x)
  {
    var after := items[..k] + items[k + 1..];
    DeleteAt(items, k);
    forall o, x | o != oid || x != m
      ensures LineQuantity(after, o, x) == LineQuantity(items, o, x)
    {
      DeleteOtherLine(items, oid, m, k, o, x);
    }
  }

  lemma DeleteOtherLine(items: seq<OrderItem>, oid: OrderId, m: MealId, k: nat, o: OrderId, x: MealId)
    requires FindItem(items, oid, m) == Some(k)
    requires o != oid || x != m
    ensures LineQuantity(items[..k] + items[k + 1..], o, x) == LineQuantity(items, o, x)
  {
    var after := items[..k] + items[k + 1..];
    DeleteAt(items, k);
    match FindItem(items, o, x)
    case Some(j) =>
      if j < k {
        FindItemAt(after, o, x, j);
      } else {
        FindItemAt(after, o, x, j - 1);
      }
    case None =>
  }

  lemma DeleteLineKeeps(items: seq<OrderItem>, oid: OrderId, m: MealId, k: nat)
    requires FindItem(items, oid, m) == Some(k)
    ensures var after := items[..k] + items[k + 1..];
      forall it :: it in items && !(it.order == oid && it.meal == m) ==> it in after
  {
    var after := items[..k] + items[k + 1..];
    DeleteAt(items, k);
    forall it | it in items && !(it.order == oid && it.meal == m)
      ensures it in after
    {
      var i :| 0 <= i < |items| && items[i] == it;
      if i < k {
        assert after[i] == it;
      } else {
        assert after[i - 1] == it;
      }
    }
  }

  /** The removal keeps the item table valid. */
  lemma RemoveFromLineValid(items: seq<OrderItem>, orders: seq<Order>, meals: map<MealId, Meal>, next: nat, oid: OrderId, m: MealId, q: int)
    requires ItemsValid(items, orders, meals, next)
    requires FindItem(items, oid, m).Some?
    ensures ItemsValid(RemoveFromLine(items, oid, m, q).value, orders, meals, next)
  {
    var k := FindItem(items, oid, m).value;
    if items[k].quantity - q > 0 {
      ItemsValidSetQuantity(items, orders, meals, next, k, items[k].quantity - q);
    } else {
      ItemsValidDelete(items, orders, meals, next, k);
    }
  }

  /**
   * Lowering a line leaves every stored total alone (the stored line price
   * is not written); deleting it takes its stored price out of its order's total.
   */
  lemma RemoveFromLineStoredTotal(items: seq<OrderItem>, oid: OrderId, m: MealId, q: int, o: OrderId)
    requires FindItem(items, oid, m).Some?
    ensures var k := FindItem(items, oid, m).value;
      StoredTotal(RemoveFromLine(items, oid, m, q).value, o)
        == StoredTotal(items, o) - (if items[k].quantity - q > 0 || o != oid then 0 else items[k].price)
  {
    var k := FindItem(items, oid, m).value;
    if items[k].quantity - q > 0 {
      StoredTotalUpdate(items, k, items[k].(quantity := items[k].quantity - q), o);
    } else {
      StoredTotalRemove(items, k, o);
    }
  }

  /**
   * `DeleteOrderItemAPIView.delete` with `DeleteOrderItemSerializer`: 404
   * unless the table exists and has a current order; the meal id is required
   * and must name a meal; the amount defaults to 1 and must be at least 1;
   * an order without a line for the meal is an error. Otherwise the line is
   * lowered or deleted and the order total recomputed; the order itself stays,
   * even when its last line goes. Nothing changes on an error.
   */
  method RemoveOrderItem(db: Database, t: TableId, cur: Option<OrderId>, mealId: Option<int>, quantity: Option<int>)
    returns (r: Result<(), Error>)
    requires db.Valid() && IsCurrentOrder(db, t, cur)
    modifies db`items, db`orders
    ensures db.Valid()
    ensures t !in db.tables || cur.None? ==> r == Err(OrderNotFound)
    ensures t in db.tables && cur.Some? && mealId.None? ==> r == Err(MealIdRequired)
    ensures t in db.tables && cur.Some? && mealId.Some? && mealId.value !in db.meals ==> r == Err(MealNotFound(mealId.value))
    ensures t in db.tables && cur.Some? && mealId.Some? && mealId.value in db.meals && quantity.GetOr(1) < 1 ==>
      r == Err(QuantityBelowOne)
    ensures t in db.tables && cur.Some? && mealId.Some? && mealId.value in db.meals && quantity.GetOr(1) >= 1 ==>
      if FindItem(old(db.items), cur.value, mealId.value).None? then r == Err(ItemNotFound)
      else
        && r.Ok?
        && db.items == RemoveFromLine(old(db.items), cur.value, mealId.value, quantity.GetOr(1)).value
        && db.orders == ReplaceOrder(old(db.orders), OrderById(old(db.orders), cur.value).(totalPrice := StoredTotal(db.items, cur.value)))
    ensures r.Err? ==> db.items == old(db.items) && db.orders == old(db.orders)
    ensures Ids(db.orders) == Ids(old(db.orders))
  {
    if t !in db.tables || cur.None? {
      return Err(OrderNotFound);
    }
    if mealId.None? {
      return Err(MealIdRequired);
    }
    var m := mealId.value;
    if m !in db.meals {
      return Err(MealNotFound(m));
    }
    var q := quantity.GetOr(1);
    if q < 1 {
      return Err(QuantityBelowOne);
    }
    var oid := cur.value;
    var found := FindItem(db.items, oid, m);
    if found.None? {
      return Err(ItemNotFound);
    }
    RemoveFromLineValid(db.items, db.orders, db.meals, db.nextItemId, oid, m, q);
    SaveItems(db, RemoveFromLine(db.items, oid, m, q).value);
    UpdateTotalPrice(db, oid);
    r := Ok(());
  }

  /**
   * `ChangeOrderTableAPIView.post`: the source table must exist, have a
   * current order, the new table must exist and be assignable (`assignable`
   * is `new_table.assignable_table`), each failing with 404 in this order;
   * then only the order's table changes.
   */
  method ChangeOrderTable(db: Database, t: TableId, cur: Option<OrderId>, newTable: TableId, assignable: bool)
    returns (r: Result<(), Error>)
    requires db.Valid() && IsCurrentOrder(db, t, cur)
    modifies db`orders
    ensures db.Valid()
    ensures t !in db.tables ==> r == Err(TableNotFound)
    ensures t in db.tables && cur.None? ==> r == Err(OrderNotFound)
    ensures t in db.tables && cur.Some? && newTable !in db.tables ==> r == Err(TableNotFound)
    ensures t in db.tables && cur.Some? && newTable in db.tables && !assignable ==> r == Err(TableNotAssignable)
    ensures t in db.tables && cur.Some? && newTable in db.tables && assignable ==>
      r.Ok? && db.orders == ReplaceOrder(old(db.orders), OrderById(old(db.orders), cur.value).(table := newTable))
    ensures r.Err? ==> db.orders == old(db.orders)
  {
    if t !in db.tables {
      return Err(TableNotFound);
    }
    if cur.None? {
      return Err(OrderNotFound);
    }
    if newTable !in db.tables {
      return Err(TableNotFound);
    }
    if !assignable {
      return Err(TableNotAssignable);
    }
    SaveOrder(db, OrderById(db.orders, cur.value).(table := newTable));
    r := Ok(());
  }

  /**
   * Moving the only unpaid order of table `t` to a table without one keeps
   * one unpaid order per table: `t` is then free and the new table holds it.
   */
  lemma MoveKeepsOneOpenPerTable(orders: seq<Order>, tables: set<TableId>, next: nat, oid: OrderId, t: TableId, newTable: TableId)
    requires OrdersValid(orders, tables, next) && OneOpenPerTable(orders)
    requires oid in Ids(orders) && OrderById(orders, oid).table == t && !OrderById(orders, oid).isPaid
    requires t != newTable && !HasOpenOrder(orders, newTable)
    ensures var after := ReplaceOrder(orders, OrderById(orders, oid).(table := newTable));
      OneOpenPerTable(after) && !HasOpenOrder(after, t) && HasOpenOrder(after, newTable)
  {
    var k := FindOrder(orders, oid).value;
    var after := ReplaceOrder(orders, OrderById(orders, oid).(table := newTable));
    assert forall i :: 0 <= i < |orders| && i != k ==> orders[i].id != oid && after[i] == orders[i];
    assert after[k].table == newTable && !after[k].isPaid;
  }

  /**
   * `ChangeWaitressAPIView.post`: the table must exist, then the new
   * waitress must be a user of type waitress (checked before the order),
   * then the table must have a current order; only the order's waitress changes.
   */
  method ChangeWaitress(db: Database, t: TableId, cur: Option<OrderId>, newWaitress: UserId)
    returns (r: Result<(), Error>)
    requires db.Valid() && IsCurrentOrder(db, t, cur)
    modifies db`orders
    ensures db.Valid()
    ensures t !in db.tables ==> r == Err(TableNotFound)
    ensures t in db.tables && !(newWaitress in db.users && db.users[newWaitress] == Waitress) ==> r == Err(WaitressNotFound)
    ensures t in db.tables && newWaitress in db.users && db.users[newWaitress] == Waitress && cur.None? ==> r == Err(OrderNotFound)
    ensures t in db.tables && newWaitress in db.users && db.users[newWaitress] == Waitress && cur.Some? ==>
      r.Ok? && db.orders == ReplaceOrder(old(db.orders), OrderById(old(db.orders), cur.value).(waitress := Some(newWaitress)))
    ensures r.Err? ==> db.orders == old(db.orders)
  {
    if t !in db.tables {
      return Err(TableNotFound);
    }
    if !(newWaitress in db.users && db.users[newWaitress] == Waitress) {
      return Err(WaitressNotFound);
    }
    if cur.None? {
      return Err(OrderNotFound);
    }
    SaveOrder(db, OrderById(db.orders, cur.value).(waitress := Some(newWaitress)));
    r := Ok(());
  }

  /**
   * `CloseTableOrderAPIView.delete` (managers): 404 when the table or its
   * current order is missing; otherwise the order is marked paid.
   */
  method CloseTableOrder(db: Database, t: TableId, cur: Option<OrderId>) returns (r: Result<(), Error>)
    requires db.Valid() && IsCurrentOrder(db, t, cur)
    modifies db`orders
    ensures db.Valid()
    ensures t !in db.tables ==> r == Err(TableNotFound)
    ensures t in db.tables && cur.None? ==> r == Err(OrderNotFound)
    ensures t in db.tables && cur.Some? ==>
      r.Ok? && db.orders == ReplaceOrder(old(db.orders), OrderById(old(db.orders), cur.value).(isPaid := true))
    ensures r.Err? ==> db.orders == old(db.orders)
  {
    if t !in db.tables {
      return Err(TableNotFound);
    }
    if cur.None? {
      return Err(OrderNotFound);
    }
    SaveOrder(db, OrderById(db.orders, cur.value).(isPaid := true));
    r := Ok(());
  }

  /**
   * Closing the only unpaid order of a table frees the table: a new order
   * can be created for it, and there is still one unpaid order per table.
   */
  lemma CloseFreesTable(orders: seq<Order>, tables: set<TableId>, next: nat, oid: OrderId, t: TableId)
    requires OrdersValid(orders, tables, next) && OneOpenPerTable(orders)
    requires oid in Ids(orders) && OrderById(orders, oid).table == t && !OrderById(orders, oid).isPaid
    ensures var after := ReplaceOrder(orders, OrderById(orders, oid).(isPaid := true));
      OneOpenPerTable(after) && !HasOpenOrder(after, t)
  {
    var k := FindOrder(orders, oid).value;
    var after := ReplaceOrder(orders, OrderById(orders, oid).(isPaid := true));
    assert forall i :: 0 <= i < |orders| && i != k ==> orders[i].id != oid && after[i] == orders[i];
    assert after[k].isPaid;
  }
}
