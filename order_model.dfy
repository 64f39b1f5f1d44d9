/**
 * The `Order` and `OrderItem` records and the row-level functions over them
 * (apps/orders/models/order.py), with meals, tables and users as the records
 * they reference.
 */
module OrderModel {
  import opened Common
  import opened Calendar

  type TableId = int
  type MealId = int
  type UserId = int
  type OrderId = nat
  type ItemId = nat

  /** Money in integer cents: the source keeps it in decimal fields with two places. */
  type Cents = int

  /** The `type` field of a user. */
  datatype Role = Waitress | Admin | CaptainWaitress | RestaurantOwner | OtherRole

  datatype User = User(id: UserId, role: Role)

  datatype Meal = Meal(name: string, price: Cents)

  /** One row of the order table; `created` is the calendar day of `created_at`. */
  datatype Order = Order(
    id: OrderId,
    table: TableId,
    waitress: Option<UserId>,
    isPaid: bool,
    isCheckPrinted: bool,
    totalPrice: Cents,
    created: Date)

  /** One row of the order-item table; `price` is a stored field, not derived from the meal. */
  datatype OrderItem = OrderItem(
    id: ItemId,
    order: OrderId,
    meal: MealId,
    quantity: int,
    isPrepared: bool,
    price: Cents)

  /** The row `Order.objects.create(table=t, waitress=w)` inserts: every other field at its default. */
  function NewOrder(id: OrderId, t: TableId, w: Option<UserId>, created: Date): Order {
    Order(id, t, w, false, false, 0, created)
  }

  /** The row `OrderItem.objects.create(order=o, meal=m, quantity=q)` inserts. */
  function NewItem(id: ItemId, o: OrderId, m: MealId, q: int): OrderItem {
    OrderItem(id, o, m, q, false, 0)
  }

  /** The ids of `orders`, position by position. */
  function Ids(orders: seq<Order>): (ids: seq<OrderId>)
    ensures |ids| == |orders|
    ensures forall i :: 0 <= i < |orders| ==> ids[i] == orders[i].id
  {
    seq(|orders|, i requires 0 <= i < |orders| => orders[i].id)
  }

  /** Position of the order with id `oid`. */
  function FindOrder(orders: seq<Order>, oid: OrderId): (r: Option<nat>)
    ensures r.Some? ==> r.value < |orders| && orders[r.value].id == oid
    ensures r.None? <==> oid !in Ids(orders)
  {
    if orders == [] then None
    else if orders[0].id == oid then Some(0)
    else match FindOrder(orders[1..], oid)
      case None =>
        assert forall i :: 1 <= i < |orders| ==> orders[i].id == orders[1..][i - 1].id;
        None
      case Some(i) => Some(i + 1)
  }

  /** The order with id `oid`. */
  function OrderById(orders: seq<Order>, oid: OrderId): (o: Order)
    requires oid in Ids(orders)
    ensures o in orders && o.id == oid
  {
    orders[FindOrder(orders, oid).value]
  }

  /** `orders` with the row whose id is `o.id` saved as `o` (Django's `o.save()`). */
  function ReplaceOrder(orders: seq<Order>, o: Order): (r: seq<Order>)
    ensures Ids(r) == Ids(orders)
  {
    seq(|orders|, i requires 0 <= i < |orders| => if orders[i].id == o.id then o else orders[i])
  }

  /** Two items are lines for the same meal of the same order. */
  predicate SameLine(a: OrderItem, b: OrderItem) {
    a.order == b.order && a.meal == b.meal
  }

  /** Position of the item for meal `m` in order `oid` (`OrderItem.objects.filter(order=oid, meal=m).first()`). */
  function FindItem(items: seq<OrderItem>, oid: OrderId, m: MealId): (r: Option<nat>)
    ensures r.Some? ==> r.value < |items| && items[r.value].order == oid && items[r.value].meal == m
    ensures r.Some? ==> forall j :: 0 <= j < r.value ==> !(items[j].order == oid && items[j].meal == m)
    ensures r.None? ==> forall j :: 0 <= j < |items| ==> !(items[j].order == oid && items[j].meal == m)
  {
    if items == [] then None
    else if items[0].order == oid && items[0].meal == m then Some(0)
    else match FindItem(items[1..], oid, m)
      case None =>
        assert forall j :: 1 <= j < |items| ==> items[j] == items[1..][j - 1];
        None
      case Some(i) =>
        assert forall j :: 1 <= j <= i ==> items[j] == items[1..][j - 1];
        Some(i + 1)
  }

  /** The items of order `oid`, in row order (`order.order_items.all()`). */
  function ItemsOf(items: seq<OrderItem>, oid: OrderId): seq<OrderItem>
  {
    if items == [] then []
    else if items[|items| - 1].order == oid then ItemsOf(items[..|items| - 1], oid) + [items[|items| - 1]]
    else ItemsOf(items[..|items| - 1], oid)
  }

  /** The stored price an item contributes to the total of order `oid`. */
  function PriceIn(it: OrderItem, oid: OrderId): Cents {
    if it.order == oid then it.price else 0
  }

  /** Sum of the stored `price` of the items of order `oid` (the aggregate of `update_total_price`). */
  function StoredTotal(items: seq<OrderItem>, oid: OrderId): Cents
  {
    if items == [] then 0
    else StoredTotal(items[..|items| - 1], oid) + PriceIn(items[|items| - 1], oid)
  }

  lemma {:induction false} StoredTotalConcat(a: seq<OrderItem>, b: seq<OrderItem>, oid: OrderId)
    ensures StoredTotal(a + b, oid) == StoredTotal(a, oid) + StoredTotal(b, oid)
  {
    if b == [] {
      assert a + b == a;
    } else {
      assert (a + b)[..|a + b| - 1] == a + b[..|b| - 1];
      StoredTotalConcat(a, b[..|b| - 1], oid);
    }
  }

  /** An order with no items has a stored total of zero. */
  lemma {:induction false} StoredTotalWithoutItems(items: seq<OrderItem>, oid: OrderId)
    requires forall i :: 0 <= i < |items| ==> items[i].order != oid
    ensures StoredTotal(items, oid) == 0
  {
    if items != [] {
      StoredTotalWithoutItems(items[..|items| - 1], oid);
    }
  }

  /** The stored total of an order is the sum of the stored prices of exactly its items. */
  lemma {:induction false} StoredTotalOfItemsOf(items: seq<OrderItem>, oid: OrderId)
    ensures StoredTotal(items, oid) == StoredTotal(ItemsOf(items, oid), oid)
    ensures forall it :: it in ItemsOf(items, oid) ==> it in items && it.order == oid
  {
    if items != [] {
      var init := items[..|items| - 1];
      StoredTotalOfItemsOf(init, oid);
      var last := items[|items| - 1];
      if last.order == oid {
        StoredTotalConcat(ItemsOf(init, oid), [last], oid);
        assert StoredTotal([last], oid) == StoredTotal([], oid) + PriceIn(last, oid);
      }
    }
  }

  /** Replacing one item changes the stored total of `oid` by the difference of the two contributions. */
  lemma StoredTotalUpdate(items: seq<OrderItem>, k: nat, x: OrderItem, oid: OrderId)
    requires k < |items|
    ensures StoredTotal(items[k := x], oid) == StoredTotal(items, oid) - PriceIn(items[k], oid) + PriceIn(x, oid)
  {
    assert items == items[..k] + [items[k]] + items[k + 1..];
    assert items[k := x] == items[..k] + [x] + items[k + 1..];
    StoredTotalConcat(items[..k] + [items[k]], items[k + 1..], oid);
    StoredTotalConcat(items[..k], [items[k]], oid);
    StoredTotalConcat(items[..k] + [x], items[k + 1..], oid);
    StoredTotalConcat(items[..k], [x], oid);
    assert StoredTotal([x], oid) == StoredTotal([], oid) + PriceIn(x, oid);
    assert StoredTotal([items[k]], oid) == StoredTotal([], oid) + PriceIn(items[k], oid);
  }

  /** Removing one item lowers the stored total of `oid` by that item's contribution. */
  lemma StoredTotalRemove(items: seq<OrderItem>, k: nat, oid: OrderId)
    requires k < |items|
    ensures StoredTotal(items[..k] + items[k + 1..], oid) == StoredTotal(items, oid) - PriceIn(items[k], oid)
  {
    assert items == items[..k] + [items[k]] + items[k + 1..];
    StoredTotalConcat(items[..k] + [items[k]], items[k + 1..], oid);
    StoredTotalConcat(items[..k], [items[k]], oid);
    StoredTotalConcat(items[..k], items[k + 1..], oid);
    assert StoredTotal([items[k]], oid) == StoredTotal([], oid) + PriceIn(items[k], oid);
  }

  /** Order ids increase along the table (so `.first()` is the first match) and stay below the next id. */
  ghost predicate OrdersValid(orders: seq<Order>, tables: set<TableId>, nextId: nat) {
    && (forall i, j :: 0 <= i < j < |orders| ==> orders[i].id < orders[j].id)
    && (forall i :: 0 <= i < |orders| ==> orders[i].id < nextId && orders[i].table in tables)
  }

  /**
   * Item ids increase and stay below the next id; every item's order and meal
   * exist (the cascading foreign keys); an order has at most one line per meal.
   */
  ghost predicate ItemsValid(items: seq<OrderItem>, orders: seq<Order>, meals: map<MealId, Meal>, nextId: nat) {
    && (forall i, j :: 0 <= i < j < |items| ==> items[i].id < items[j].id && !SameLine(items[i], items[j]))
    && (forall i :: 0 <= i < |items| ==> items[i].id < nextId && items[i].meal in meals)
    && (forall i :: 0 <= i < |items| ==> items[i].order in Ids(orders))
  }

  /** Saving an order found at position `k` is replacing the row with its id. */
  lemma ReplaceAt(orders: seq<Order>, tables: set<TableId>, next: nat, k: nat, o: Order)
    requires OrdersValid(orders, tables, next)
    requires k < |orders| && orders[k].id == o.id
    ensures orders[k := o] == ReplaceOrder(orders, o)
  {
  }

  /** Saving an order keeps the order table valid when its table exists. */
  lemma ReplaceOrderValid(orders: seq<Order>, tables: set<TableId>, next: nat, o: Order)
    requires OrdersValid(orders, tables, next)
    requires o.id in Ids(orders) && o.table in tables
    ensures OrdersValid(ReplaceOrder(orders, o), tables, next)
  {
    var r := ReplaceOrder(orders, o);
    assert forall i :: 0 <= i < |r| ==> r[i].id == orders[i].id;
    var k := FindOrder(orders, o.id).value;
    assert r[k] == o;
  }

  /** The quantity on the line for meal `m` in order `oid`, or 0 when the order has no such line. */
  function LineQuantity(items: seq<OrderItem>, oid: OrderId, m: MealId): int {
    match FindItem(items, oid, m)
    case None => 0
    case Some(k) => items[k].quantity
  }

  /** The items left once every order outside `orders` is deleted: the order foreign key cascades. */
  function KeepItems(items: seq<OrderItem>, orders: seq<Order>): seq<OrderItem>
  {
    if items == [] then []
    else if items[|items| - 1].order in Ids(orders) then KeepItems(items[..|items| - 1], orders) + [items[|items| - 1]]
    else KeepItems(items[..|items| - 1], orders)
  }

  /** Exactly the items of the surviving orders survive. */
  lemma {:induction false} KeepItemsMembers(items: seq<OrderItem>, orders: seq<Order>)
    ensures forall it :: it in KeepItems(items, orders) <==> it in items && it.order in Ids(orders)
  {
    if items != [] {
      KeepItemsMembers(items[..|items| - 1], orders);
      assert items == items[..|items| - 1] + [items[|items| - 1]];
    }
  }

  /** The cascade leaves a valid item table for the surviving orders. */
  lemma {:induction false} KeepItemsValid(items: seq<OrderItem>, orders: seq<Order>, kept: seq<Order>, meals: map<MealId, Meal>, next: nat)
    requires ItemsValid(items, orders, meals, next)
    ensures ItemsValid(KeepItems(items, kept), kept, meals, next)
  {
    if items != [] {
      var init := items[..|items| - 1];
      assert forall i :: 0 <= i < |init| ==> init[i] == items[i];
      KeepItemsValid(init, orders, kept, meals, next);
      KeepItemsMembers(init, kept);
      var k := KeepItems(init, kept);
      assert forall i :: 0 <= i < |k| ==> k[i] in init;
    }
  }

  /** Inserting an order appends its id. */
  lemma IdsAppend(orders: seq<Order>, o: Order)
    ensures Ids(orders + [o]) == Ids(orders) + [o.id]
  {
  }

  /** The first line for meal `m` in order `oid` is the one `FindItem` finds. */
  lemma FindItemAt(items: seq<OrderItem>, oid: OrderId, m: MealId, j: nat)
    requires j < |items| && items[j].order == oid && items[j].meal == m
    requires forall i :: 0 <= i < j ==> !(items[i].order == oid && items[i].meal == m)
    ensures FindItem(items, oid, m) == Some(j)
  {
  }

  /** Positions of the rows left after deleting the row at `k`. */
  lemma DeleteAt(items: seq<OrderItem>, k: nat)
    requires k < |items|
    ensures var after := items[..k] + items[k + 1..];
      && |after| == |items| - 1
      && (forall i :: 0 <= i < k ==> after[i] == items[i])
      && (forall i :: k <= i < |after| ==> after[i] == items[i + 1])
  {
  }

  /** Deleting an item row keeps the item table valid. */
  lemma ItemsValidDelete(items: seq<OrderItem>, orders: seq<Order>, meals: map<MealId, Meal>, next: nat, k: nat)
    requires ItemsValid(items, orders, meals, next) && k < |items|
    ensures ItemsValid(items[..k] + items[k + 1..], orders, meals, next)
  {
    var after := items[..k] + items[k + 1..];
    DeleteAt(items, k);
    forall i, j | 0 <= i < j < |after|
      ensures after[i].id < after[j].id && !SameLine(after[i], after[j])
    {
      var i' := if i < k then i else i + 1;
      var j' := if j < k then j else j + 1;
      assert after[i] == items[i'] && after[j] == items[j'] && i' < j';
    }
  }

  /** Changing the quantity of an item row keeps the item table valid. */
  lemma ItemsValidSetQuantity(items: seq<OrderItem>, orders: seq<Order>, meals: map<MealId, Meal>, next: nat, k: nat, q: int)
    requires ItemsValid(items, orders, meals, next) && k < |items|
    ensures ItemsValid(items[k := items[k].(quantity := q)], orders, meals, next)
  {
    var after := items[k := items[k].(quantity := q)];
    assert forall i :: 0 <= i < |items| ==> after[i].id == items[i].id && SameLine(after[i], items[i]);
  }

  /** Saving the same order twice leaves the second save. */
  lemma ReplaceOrderTwice(orders: seq<Order>, a: Order, b: Order)
    requires a.id == b.id
    ensures ReplaceOrder(ReplaceOrder(orders, a), b) == ReplaceOrder(orders, b)
  {
  }
}
