/**
 * Creating orders and adding meals to them (apps/orders/apis/orders.py):
 * `CreateOrderAPIView.post` with `OrderSerializer.create`, the single add of
 * `AddOrderItemAPIView.post` with `OrderItemSerializer`, and the batch add of
 * `AddMultipleOrderItemsAPIView`.
 */
module OrderApi {
  import opened Common
  import opened Calendar
  import opened OrderModel
  import opened Store

  /** `Order.objects.filter(table__id=t, is_paid=False).exists()`. */
  predicate HasOpenOrder(orders: seq<Order>, t: TableId) {
    exists i :: 0 <= i < |orders| && orders[i].table == t && !orders[i].isPaid
  }

  /** No table has two unpaid orders. */
  ghost predicate OneOpenPerTable(orders: seq<Order>) {
    forall i, j :: 0 <= i < j < |orders| && orders[i].table == orders[j].table ==> orders[i].isPaid || orders[j].isPaid
  }

  /**
   * `CreateOrderAPIView.post`: refused while the table has an unpaid order,
   * rejected by the serializer when the table does not exist, otherwise a new
   * order for the table with the requesting user as waitress.
   */
  method CreateOrder(db: Database, t: TableId, user: User, today: Date) returns (r: Result<OrderId, Error>)
    requires db.Valid()
    modifies db`orders, db`nextOrderId
    ensures db.Valid()
    ensures HasOpenOrder(old(db.orders), t) ==> r == Err(UnpaidOrderExists)
    ensures !HasOpenOrder(old(db.orders), t) && t !in db.tables ==> r == Err(InvalidTable)
    ensures !HasOpenOrder(old(db.orders), t) && t in db.tables ==> r == Ok(old(db.nextOrderId))
    ensures r.Err? ==> db.orders == old(db.orders) && db.nextOrderId == old(db.nextOrderId)
    ensures r.Ok? ==>
      && db.orders == old(db.orders) + [NewOrder(r.value, t, Some(user.id), today)]
      && db.nextOrderId == r.value + 1
    ensures OneOpenPerTable(old(db.orders)) ==> OneOpenPerTable(db.orders)
  {
    if HasOpenOrder(db.orders, t) {
      return Err(UnpaidOrderExists);
    }
    if t !in db.tables {
      return Err(InvalidTable);
    }
    var id := db.nextOrderId;
    IdsAppend(db.orders, NewOrder(id, t, Some(user.id), today));
    db.orders := db.orders + [NewOrder(id, t, Some(user.id), today)];
    db.nextOrderId := id + 1;
    r := Ok(id);
  }

  /** A new order is the only unpaid order of its table and carries the defaults of the order record. */
  lemma CreatedOrderIsOnlyOpenOne(orders: seq<Order>, id: OrderId, t: TableId, u: UserId, today: Date)
    requires !HasOpenOrder(orders, t)
    ensures var after := orders + [NewOrder(id, t, Some(u), today)];
      && HasOpenOrder(after, t)
      && (forall i :: 0 <= i < |after| - 1 ==> after[i].table == t ==> after[i].isPaid)
      && !after[|after| - 1].isPaid && !after[|after| - 1].isCheckPrinted
      && after[|after| - 1].totalPrice == 0 && after[|after| - 1].waitress == Some(u)
  {
    var after := orders + [NewOrder(id, t, Some(u), today)];
    assert after[|after| - 1].table == t && !after[|after| - 1].isPaid;
  }

  /** Position of `user.orders.filter(table__id=t, is_paid=False).first()`: the user's lowest-id unpaid order on `t`. */
  function OwnOpenOrder(orders: seq<Order>, t: TableId, u: UserId): (r: Option<nat>)
    ensures r.Some? ==> r.value < |orders| && orders[r.value].table == t && !orders[r.value].isPaid && orders[r.value].waitress == Some(u)
    ensures r.Some? ==> forall j :: 0 <= j < r.value ==> !(orders[j].table == t && !orders[j].isPaid && orders[j].waitress == Some(u))
    ensures r.None? ==> forall j :: 0 <= j < |orders| ==> !(orders[j].table == t && !orders[j].isPaid && orders[j].waitress == Some(u))
  {
    if orders == [] then None
    else if orders[0].table == t && !orders[0].isPaid && orders[0].waitress == Some(u) then Some(0)
    else match OwnOpenOrder(orders[1..], t, u)
      case None =>
        assert forall j :: 1 <= j < |orders| ==> orders[j] == orders[1..][j - 1];
        None
      case Some(i) =>
        assert forall j :: 1 <= j <= i ==> orders[j] == orders[1..][j - 1];
        Some(i + 1)
  }

  /** Whether the user's type is `admin` or `captain_waitress`. */
  predicate Privileged(user: User) {
    user.role == Admin || user.role == CaptainWaitress
  }

  /**
   * The order both add views work on (`AddOrderItemAPIView.post`,
   * `get_order`): the user's own unpaid order for the table, or for
   * privileged users the table's current order `cur` when the table exists.
   */
  function TargetOrder(orders: seq<Order>, tables: set<TableId>, user: User, t: TableId, cur: Option<OrderId>): Option<OrderId>
  {
    if Privileged(user) then
      if t in tables then cur else None
    else match OwnOpenOrder(orders, t, user.id)
      case None => None
      case Some(i) => Some(orders[i].id)
  }

  /**
   * A plain user reaches only their own unpaid order for the table, the
   * lowest-numbered one, and none exactly when they have none; a privileged
   * user reaches the current order of an existing table.
   */
  lemma TargetOrderSpec(orders: seq<Order>, tables: set<TableId>, next: nat, user: User, t: TableId, cur: Option<OrderId>)
    requires OrdersValid(orders, tables, next)
    requires cur.Some? ==> cur.value in Ids(orders) && OrderById(orders, cur.value).table == t && !OrderById(orders, cur.value).isPaid
    ensures var r := TargetOrder(orders, tables, user, t, cur);
      && (r.Some? ==> r.value in Ids(orders) && OrderById(orders, r.value).table == t && !OrderById(orders, r.value).isPaid)
      && (r.Some? && !Privileged(user) ==> OrderById(orders, r.value).waitress == Some(user.id))
      && (r.Some? && !Privileged(user) ==> forall o :: o in orders && o.table == t && !o.isPaid && o.waitress == Some(user.id) ==> r.value <= o.id)
      && (r.None? && !Privileged(user) ==> forall o :: o in orders && o.table == t && o.waitress == Some(user.id) ==> o.isPaid)
      && (Privileged(user) ==> r == (if t in tables then cur else None))
  {
    if !Privileged(user) {
      match OwnOpenOrder(orders, t, user.id)
      case None =>
      case Some(i) =>
        assert orders[i].id in Ids(orders);
        assert OrderById(orders, orders[i].id) == orders[i];
        forall o | o in orders && o.table == t && !o.isPaid && o.waitress == Some(user.id)
          ensures orders[i].id <= o.id
        {
          var j :| 0 <= j < |orders| && orders[j] == o;
          if j < i {
            assert false;
          } else if i < j {
            assert orders[i].id < orders[j].id;
          }
        }
    }
  }

  /** The order-item rows together with the id the next inserted row gets. */
  datatype ItemTable = ItemTable(rows: seq<OrderItem>, nextId: nat)

  /**
   * `get_or_create(meal=m, order=oid, defaults={'quantity': q})`, followed by
   * raising the quantity of the row by `q` when it already existed.
   */
  function AddToLine(tbl: ItemTable, oid: OrderId, m: MealId, q: int): ItemTable {
    match FindItem(tbl.rows, oid, m)
    case Some(k) => ItemTable(tbl.rows[k := tbl.rows[k].(quantity := tbl.rows[k].quantity + q)], tbl.nextId)
    case None => ItemTable(tbl.rows + [NewItem(tbl.nextId, oid, m, q)], tbl.nextId + 1)
  }

  /**
   * Adding `q` of meal `m` raises the quantity of that line by `q` (a missing
   * line counting as 0, so a new line holds exactly `q`); every other line
   * and every other row stays as it was, and a row is added only when the
   * line did not exist.
   */
  lemma AddToLineQuantity(tbl: ItemTable, oid: OrderId, m: MealId, q: int)
    ensures var after := AddToLine(tbl, oid, m, q).rows;
      && LineQuantity(after, oid, m) == LineQuantity(tbl.rows, oid, m) + q
      && (forall o, n :: (o != oid || n != m) ==> LineQuantity(after, o, n) == LineQuantity(tbl.rows, o, n))
      && |after| == (if FindItem(tbl.rows, oid, m).Some? then |tbl.rows| else |tbl.rows| + 1)
      && (forall i :: 0 <= i < |tbl.rows| && !(tbl.rows[i].order == oid && tbl.rows[i].meal == m) ==> after[i] == tbl.rows[i])
  {
    var after := AddToLine(tbl, oid, m, q).rows;
    match FindItem(tbl.rows, oid, m)
    case Some(k) =>
      FindItemAt(after, oid, m, k);
      forall o, n | o != oid || n != m
        ensures LineQuantity(after, o, n) == LineQuantity(tbl.rows, o, n)
      {
        match FindItem(tbl.rows, o, n)
        case Some(j) => FindItemAt(after, o, n, j);
        case None =>
      }
    case None =>
      FindItemAt(after, oid, m, |tbl.rows|);
      forall o, n | o != oid || n != m
        ensures LineQuantity(after, o, n) == LineQuantity(tbl.rows, o, n)
      {
        match FindItem(tbl.rows, o, n)
        case Some(j) => FindItemAt(after, o, n, j);
        case None =>
      }
  }

  /** Adding never changes a stored total: the stored line price is not written, and a new row stores 0. */
  lemma AddToLineStoredTotal(tbl: ItemTable, oid: OrderId, m: MealId, q: int, o: OrderId)
    ensures StoredTotal(AddToLine(tbl, oid, m, q).rows, o) == StoredTotal(tbl.rows, o)
  {
    match FindItem(tbl.rows, oid, m)
    case Some(k) =>
      StoredTotalUpdate(tbl.rows, k, tbl.rows[k].(quantity := tbl.rows[k].quantity + q), o);
    case None =>
      var x := NewItem(tbl.nextId, oid, m, q);
      StoredTotalConcat(tbl.rows, [x], o);
      assert StoredTotal([x], o) == StoredTotal([], o) + PriceIn(x, o);
  }

  /** Adding to an existing order a meal that exists keeps the item table valid: still one line per meal. */
  lemma AddToLineValid(tbl: ItemTable, orders: seq<Order>, meals: map<MealId, Meal>, oid: OrderId, m: MealId, q: int)
    requires ItemsValid(tbl.rows, orders, meals, tbl.nextId)
    requires oid in Ids(orders) && m in meals
    ensures var after := AddToLine(tbl, oid, m, q);
      ItemsValid(after.rows, orders, meals, after.nextId)
  {
  }

  /**
   * Shared by both add paths: get-or-create the line for meal `m` in order
   * `oid` and raise its quantity; `line` is the row afterwards.
   */
  method AddLine(db: Database, oid: OrderId, m: MealId, q: int) returns (line: OrderItem)
    requires ItemsValid(db.items, db.orders, db.meals, db.nextItemId) && oid in Ids(db.orders) && m in db.meals
    modifies db`items, db`nextItemId
    ensures ItemsValid(db.items, db.orders, db.meals, db.nextItemId)
    ensures ItemTable(db.items, db.nextItemId) == AddToLine(ItemTable(old(db.items), old(db.nextItemId)), oid, m, q)
    ensures line in db.items && line.order == oid && line.meal == m && line.quantity == LineQuantity(db.items, oid, m)
  {
    var tbl := ItemTable(db.items, db.nextItemId);
    var after := AddToLine(tbl, oid, m, q);
    AddToLineValid(tbl, db.orders, db.meals, oid, m, q);
    AddToLineFinds(tbl, oid, m, q);
    line := after.rows[FindItem(after.rows, oid, m).value];
    db.items, db.nextItemId := after.rows, after.nextId;
  }

  /** After adding, the line for the meal exists. */
  lemma AddToLineFinds(tbl: ItemTable, oid: OrderId, m: MealId, q: int)
    ensures FindItem(AddToLine(tbl, oid, m, q).rows, oid, m).Some?
  {
    var after := AddToLine(tbl, oid, m, q).rows;
    match FindItem(tbl.rows, oid, m)
    case Some(k) => FindItemAt(after, oid, m, k);
    case None => FindItemAt(after, oid, m, |tbl.rows|);
  }

  /**
   * `OrderItemSerializer.create`: the line for meal `m` in order `oid` is
   * added to, then the order's total is recomputed; the refreshed row is
   * returned.
   */
  method CreateOrderItem(db: Database, oid: OrderId, m: MealId, q: int) returns (line: OrderItem)
    requires db.Valid() && oid in Ids(db.orders) && m in db.meals
    modifies db`items, db`nextItemId, db`orders
    ensures db.Valid()
    ensures ItemTable(db.items, db.nextItemId) == AddToLine(ItemTable(old(db.items), old(db.nextItemId)), oid, m, q)
    ensures db.orders == ReplaceOrder(old(db.orders), OrderById(old(db.orders), oid).(totalPrice := StoredTotal(db.items, oid)))
    ensures line in db.items && line.order == oid && line.meal == m && line.quantity == LineQuantity(db.items, oid, m)
  {
    line := AddLine(db, oid, m, q);
    UpdateTotalPrice(db, oid);
  }

  /**
   * `AddOrderItemAPIView.post`: 404 without a target order; the serializer
   * requires a meal id that exists; then the line is added (quantity
   * defaulting to 1) and the order total recomputed. Nothing changes on an error.
   */
  method AddOrderItem(db: Database, user: User, t: TableId, cur: Option<OrderId>, mealId: Option<int>, quantity: Option<int>)
    returns (r: Result<OrderItem, Error>)
    requires db.Valid() && IsCurrentOrder(db, t, cur)
    modifies db`items, db`nextItemId, db`orders
    ensures db.Valid()
    ensures TargetOrder(old(db.orders), db.tables, user, t, cur).None? ==> r == Err(OrderNotFound)
    ensures TargetOrder(old(db.orders), db.tables, user, t, cur).Some? && mealId.None? ==> r == Err(MealIdRequired)
    ensures TargetOrder(old(db.orders), db.tables, user, t, cur).Some? && mealId.Some? && mealId.value !in db.meals ==>
      r == Err(MealNotFound(mealId.value))
    ensures r.Err? ==> db.items == old(db.items) && db.nextItemId == old(db.nextItemId) && db.orders == old(db.orders)
    ensures TargetOrder(old(db.orders), db.tables, user, t, cur).Some? && mealId.Some? && mealId.value in db.meals ==>
      var oid := TargetOrder(old(db.orders), db.tables, user, t, cur).value;
      var m := mealId.value;
      && ItemTable(db.items, db.nextItemId) == AddToLine(ItemTable(old(db.items), old(db.nextItemId)), oid, m, quantity.GetOr(1))
      && db.orders == ReplaceOrder(old(db.orders), OrderById(old(db.orders), oid).(totalPrice := StoredTotal(db.items, oid)))
      && r.Ok? && r.value in db.items && r.value.order == oid && r.value.meal == m
      && r.value.quantity == LineQuantity(db.items, oid, m)
  {
    TargetOrderSpec(db.orders, db.tables, db.nextOrderId, user, t, cur);
    var target := TargetOrder(db.orders, db.tables, user, t, cur);
    if target.None? {
      return Err(OrderNotFound);
    }
    if mealId.None? {
      return Err(MealIdRequired);
    }
    var m := mealId.value;
    if m !in db.meals {
      return Err(MealNotFound(m));
    }
    var oid := target.value;
    var line := CreateOrderItem(db, oid, m, quantity.GetOr(1));
    r := Ok(line);
  }

  /** One entry of a batch request; a key absent from the entry is `None`. */
  datatype Entry = Entry(mealId: Option<int>, quantity: Option<int>)

  /** One element of the batch result: the meal and the quantity of its line after the entry. */
  datatype Summary = Summary(meal: MealId, quantity: int)

  /** A batch after some entries: the item table, the summaries so far, and the error that stopped it. */
  datatype Batch = Batch(items: ItemTable, summaries: seq<Summary>, stop: Option<Error>)

  /** `validate_meal`: a missing or zero id is required, an id with no meal is not found. */
  function ValidateMeal(meals: map<MealId, Meal>, id: Option<int>): (r: Result<MealId, Error>)
    ensures r.Ok? <==> id.Some? && id.value != 0 && id.value in meals
    ensures r.Ok? ==> r.value == id.value
    ensures r.Err? ==> r.error == (if id.None? || id.value == 0 then MealIdRequired else MealNotFound(id.value))
  {
    if id.None? || id.value == 0 then Err(MealIdRequired)
    else if id.value !in meals then Err(MealNotFound(id.value))
    else Ok(id.value)
  }

  /** One iteration of `process_items`: a stopped batch stays stopped. */
  function Step(meals: map<MealId, Meal>, oid: OrderId, b: Batch, e: Entry): Batch {
    if b.stop.Some? then b
    else match ValidateMeal(meals, e.mealId)
      case Err(err) => b.(stop := Some(err))
      case Ok(m) =>
        var after := AddToLine(b.items, oid, m, e.quantity.GetOr(1));
        Batch(after, b.summaries + [Summary(m, LineQuantity(after.rows, oid, m))], None)
  }

  /** `process_items` over `entries`, without an exception. */
  function RunBatch(meals: map<MealId, Meal>, oid: OrderId, tbl: ItemTable, entries: seq<Entry>): Batch {
    if entries == [] then Batch(tbl, [], None)
    else Step(meals, oid, RunBatch(meals, oid, tbl, entries[..|entries| - 1]), entries[|entries| - 1])
  }

  /** The quantity the entries for meal `m` add (each defaulting to 1). */
  function QuantityFor(entries: seq<Entry>, m: MealId): int {
    if entries == [] then 0
    else
      var e := entries[|entries| - 1];
      QuantityFor(entries[..|entries| - 1], m) + (if e.mealId == Some(m) then e.quantity.GetOr(1) else 0)
  }

  /** The meal id of a batch entry whose id has passed validation. */
  function MealOf(e: Entry): MealId {
    e.mealId.GetOr(0)
  }

  /**
   * A batch whose meal ids are all valid runs to the end with one summary
   * per entry, and every line ends raised by the sum of its entries' quantities.
   */
  lemma {:induction false} BatchAllValid(meals: map<MealId, Meal>, oid: OrderId, tbl: ItemTable, entries: seq<Entry>)
    requires forall i :: 0 <= i < |entries| ==> ValidateMeal(meals, entries[i].mealId).Ok?
    ensures var b := RunBatch(meals, oid, tbl, entries);
      && b.stop.None?
      && |b.summaries| == |entries|
      && (forall n :: LineQuantity(b.items.rows, oid, n) == LineQuantity(tbl.rows, oid, n) + QuantityFor(entries, n))
  {
    if entries != [] {
      var init := entries[..|entries| - 1];
      var e := entries[|entries| - 1];
      assert forall i :: 0 <= i < |init| ==> init[i] == entries[i];
      BatchAllValid(meals, oid, tbl, init);
      var prev := RunBatch(meals, oid, tbl, init);
      var m := MealOf(e);
      assert ValidateMeal(meals, e.mealId) == Ok(m);
      AddToLineQuantity(prev.items, oid, m, e.quantity.GetOr(1));
      var after := AddToLine(prev.items, oid, m, e.quantity.GetOr(1));
      forall n
        ensures LineQuantity(after.rows, oid, n) == LineQuantity(tbl.rows, oid, n) + QuantityFor(entries, n)
      {
      }
    }
  }

  /** The summary entry `i` should produce: its meal and that line's quantity once entries 0 through `i` are added. */
  function SummaryAfter(tbl: ItemTable, oid: OrderId, entries: seq<Entry>, i: nat): Summary
    requires i < |entries|
  {
    var m := MealOf(entries[i]);
    Summary(m, LineQuantity(tbl.rows, oid, m) + QuantityFor(entries[..i + 1], m))
  }

  /** What entry `i` should produce does not depend on the entries after it. */
  lemma SummaryAfterPrefix(tbl: ItemTable, oid: OrderId, entries: seq<Entry>, k: nat, i: nat)
    requires i < k <= |entries|
    ensures SummaryAfter(tbl, oid, entries[..k], i) == SummaryAfter(tbl, oid, entries, i)
  {
    assert entries[..k][..i + 1] == entries[..i + 1];
  }

  /**
   * A valid entry on a running batch adds its quantity to its line and
   * appends the summary of that line, raised by the entry's quantity.
   */
  lemma StepSummary(meals: map<MealId, Meal>, oid: OrderId, b: Batch, e: Entry)
    requires b.stop.None? && ValidateMeal(meals, e.mealId).Ok?
    ensures var m, q := MealOf(e), e.quantity.GetOr(1);
      var after := AddToLine(b.items, oid, m, q);
      && Step(meals, oid, b, e) == Batch(after, b.summaries + [Summary(m, LineQuantity(b.items.rows, oid, m) + q)], None)
      && LineQuantity(after.rows, oid, m) == LineQuantity(b.items.rows, oid, m) + q
  {
    AddToLineQuantity(b.items, oid, MealOf(e), e.quantity.GetOr(1));
  }

  /** With all meal ids valid, the batch without its last entry runs to the end and raises `m`'s line by its entries. */
  lemma InitLineQuantity(meals: map<MealId, Meal>, oid: OrderId, tbl: ItemTable, entries: seq<Entry>, m: MealId)
    requires entries != []
    requires forall i :: 0 <= i < |entries| ==> ValidateMeal(meals, entries[i].mealId).Ok?
    ensures var init := entries[..|entries| - 1];
      var prev := RunBatch(meals, oid, tbl, init);
      prev.stop.None? && LineQuantity(prev.items.rows, oid, m) == LineQuantity(tbl.rows, oid, m) + QuantityFor(init, m)
  {
    var init := entries[..|entries| - 1];
    assert forall i :: 0 <= i < |init| ==> init[i] == entries[i];
    BatchAllValid(meals, oid, tbl, init);
  }

  /** The summary after a valid last entry adds its quantity to the quantity before it. */
  lemma SummaryAfterLast(tbl: ItemTable, oid: OrderId, entries: seq<Entry>)
    requires entries != [] && entries[|entries| - 1].mealId.Some?
    ensures var e := entries[|entries| - 1];
      var m := MealOf(e);
      SummaryAfter(tbl, oid, entries, |entries| - 1)
        == Summary(m, LineQuantity(tbl.rows, oid, m) + QuantityFor(entries[..|entries| - 1], m) + e.quantity.GetOr(1))
  {
    assert entries[..|entries|] == entries;
  }

  /** With all meal ids valid, the last entry appends the summary of its line after the whole batch. */
  lemma BatchLastSummary(meals: map<MealId, Meal>, oid: OrderId, tbl: ItemTable, entries: seq<Entry>)
    requires entries != []
    requires forall i :: 0 <= i < |entries| ==> ValidateMeal(meals, entries[i].mealId).Ok?
    ensures RunBatch(meals, oid, tbl, entries).summaries
      == RunBatch(meals, oid, tbl, entries[..|entries| - 1]).summaries + [SummaryAfter(tbl, oid, entries, |entries| - 1)]
  {
    var e := entries[|entries| - 1];
    var init := entries[..|entries| - 1];
    var prev := RunBatch(meals, oid, tbl, init);
    var m, q := MealOf(e), e.quantity.GetOr(1);
    InitLineQuantity(meals, oid, tbl, entries, m);
    SummaryAfterLast(tbl, oid, entries);
    StepSummary(meals, oid, prev, e);
    var s := Summary(m, LineQuantity(prev.items.rows, oid, m) + q);
    assert RunBatch(meals, oid, tbl, entries).summaries == prev.summaries + [s];
    assert SummaryAfter(tbl, oid, entries, |entries| - 1) == s;
  }

  /**
   * The summaries of a batch whose meal ids are all valid follow the input
   * order, each holding its line's quantity right after that entry.
   */
  lemma {:induction false} BatchSummaries(meals: map<MealId, Meal>, oid: OrderId, tbl: ItemTable, entries: seq<Entry>)
    requires forall i :: 0 <= i < |entries| ==> ValidateMeal(meals, entries[i].mealId).Ok?
    ensures var b := RunBatch(meals, oid, tbl, entries);
      && |b.summaries| == |entries|
      && (forall i :: 0 <= i < |entries| ==> b.summaries[i] == SummaryAfter(tbl, oid, entries, i))
  {
    if entries != [] {
      var k := |entries| - 1;
      var init := entries[..k];
      assert forall i :: 0 <= i < |init| ==> init[i] == entries[i];
      BatchSummaries(meals, oid, tbl, init);
      BatchLastSummary(meals, oid, tbl, entries);
      forall i | 0 <= i < k {
        SummaryAfterPrefix(tbl, oid, entries, k, i);
      }
    }
  }

  /** Once a batch has stopped, later entries change nothing. */
  lemma {:induction false} StopIsFinal(meals: map<MealId, Meal>, oid: OrderId, tbl: ItemTable, entries: seq<Entry>, k: nat)
    requires k <= |entries|
    requires RunBatch(meals, oid, tbl, entries[..k]).stop.Some?
    ensures RunBatch(meals, oid, tbl, entries) == RunBatch(meals, oid, tbl, entries[..k])
  {
    if k < |entries| {
      var init := entries[..|entries| - 1];
      assert init[..k] == entries[..k];
      StopIsFinal(meals, oid, tbl, init, k);
    } else {
      assert entries[..k] == entries;
    }
  }

  /**
   * The first missing or unknown meal id stops the batch with its error, and
   * the entries before it stay applied.
   */
  lemma BatchStopsAtFirstInvalid(meals: map<MealId, Meal>, oid: OrderId, tbl: ItemTable, entries: seq<Entry>, j: nat)
    requires j < |entries|
    requires forall i :: 0 <= i < j ==> ValidateMeal(meals, entries[i].mealId).Ok?
    requires ValidateMeal(meals, entries[j].mealId).Err?
    ensures RunBatch(meals, oid, tbl, entries)
         == RunBatch(meals, oid, tbl, entries[..j]).(stop := Some(ValidateMeal(meals, entries[j].mealId).error))
  {
    var pre := entries[..j];
    assert forall i :: 0 <= i < |pre| ==> pre[i] == entries[i];
    BatchAllValid(meals, oid, tbl, pre);
    assert entries[..j + 1][..j] == pre;
    StopIsFinal(meals, oid, tbl, entries, j + 1);
  }

  /** Running one more entry of a batch is one more `Step`. */
  lemma BatchPrefixStep(meals: map<MealId, Meal>, oid: OrderId, tbl: ItemTable, entries: seq<Entry>, i: nat)
    requires i < |entries|
    ensures RunBatch(meals, oid, tbl, entries[..i + 1]) == Step(meals, oid, RunBatch(meals, oid, tbl, entries[..i]), entries[i])
  {
    assert entries[..i + 1][..i] == entries[..i];
  }

  /**
   * A batch that stops at entry `i` ends with the table it had before that
   * entry and that entry's error, and never reaches a later exception.
   */
  lemma StopsBeforeRaise(meals: map<MealId, Meal>, oid: OrderId, tbl: ItemTable, entries: seq<Entry>, i: nat, raiseAt: Option<nat>)
    requires i < |entries| && (raiseAt.None? || raiseAt.value > i)
    requires RunBatch(meals, oid, tbl, entries[..i]).stop.None?
    requires ValidateMeal(meals, entries[i].mealId).Err?
    ensures !Raises(meals, oid, tbl, entries, raiseAt)
    ensures RunBatch(meals, oid, tbl, entries)
      == RunBatch(meals, oid, tbl, entries[..i]).(stop := Some(ValidateMeal(meals, entries[i].mealId).error))
  {
    BatchPrefixStep(meals, oid, tbl, entries, i);
    StopIsFinal(meals, oid, tbl, entries, i + 1);
    if raiseAt.Some? && raiseAt.value < |entries| {
      assert entries[..raiseAt.value][..i + 1] == entries[..i + 1];
      StopIsFinal(meals, oid, tbl, entries[..raiseAt.value], i + 1);
    }
  }

  /** The exception `raiseAt` is raised while processing an entry the batch reaches. */
  predicate Raises(meals: map<MealId, Meal>, oid: OrderId, tbl: ItemTable, entries: seq<Entry>, raiseAt: Option<nat>) {
    raiseAt.Some? && raiseAt.value < |entries| && RunBatch(meals, oid, tbl, entries[..raiseAt.value]).stop.None?
  }

  /**
   * The body of `with transaction.atomic()` in `process_items`: the entries
   * in order, until an exception (raised at entry `raiseAt`, if the batch
   * gets there) or a missing or unknown meal id, whose error is returned
   * from inside the transaction. `raised` reports the exception; the
   * rollback is the caller's.
   */
  method AtomicBatch(db: Database, oid: OrderId, entries: seq<Entry>, raiseAt: Option<nat>)
    returns (r: Result<seq<Summary>, Error>, raised: bool)
    requires db.Valid() && oid in Ids(db.orders)
    modifies db`items, db`nextItemId
    ensures ItemsValid(db.items, db.orders, db.meals, db.nextItemId)
    ensures var before := ItemTable(old(db.items), old(db.nextItemId));
      var b := RunBatch(db.meals, oid, before, entries);
      && (raised <==> Raises(db.meals, oid, before, entries, raiseAt))
      && (!raised ==>
            && ItemTable(db.items, db.nextItemId) == b.items
            && r == (if b.stop.Some? then Err(b.stop.value) else Ok(b.summaries)))
  {
    ghost var before := ItemTable(db.items, db.nextItemId);
    ghost var meals := db.meals;
    var summaries: seq<Summary> := [];
    var i := 0;
    while i < |entries|
      invariant 0 <= i <= |entries|
      invariant ItemsValid(db.items, db.orders, db.meals, db.nextItemId)
      invariant db.meals == meals
      invariant RunBatch(meals, oid, before, entries[..i]) == Batch(ItemTable(db.items, db.nextItemId), summaries, None)
      invariant raiseAt.Some? ==> raiseAt.value >= i
    {
      if raiseAt.Some? && raiseAt.value == i {
        return Err(BatchRaised), true;
      }
      var e := entries[i];
      var v := ValidateMeal(db.meals, e.mealId);
      BatchPrefixStep(meals, oid, before, entries, i);
      if v.Err? {
        StopsBeforeRaise(meals, oid, before, entries, i, raiseAt);
        return Err(v.error), false;
      }
      ghost var b := Batch(ItemTable(db.items, db.nextItemId), summaries, None);
      StepSummary(meals, oid, b, e);
      var line := AddLine(db, oid, v.value, e.quantity.GetOr(1));
      summaries := summaries + [Summary(line.meal, line.quantity)];
      assert Step(meals, oid, b, e) == Batch(ItemTable(db.items, db.nextItemId), summaries, None);
      i := i + 1;
    }
    assert entries[..i] == entries;
    r, raised := Ok(summaries), false;
  }

  /**
   * `process_items`: the atomic batch, and on an exception the rollback of
   * every entry, reported as an error.
   */
  method ProcessItems(db: Database, oid: OrderId, entries: seq<Entry>, raiseAt: Option<nat>) returns (r: Result<seq<Summary>, Error>)
    requires db.Valid() && oid in Ids(db.orders)
    modifies db`items, db`nextItemId
    ensures db.Valid()
    ensures var before := ItemTable(old(db.items), old(db.nextItemId));
      var b := RunBatch(db.meals, oid, before, entries);
      && (Raises(db.meals, oid, before, entries, raiseAt) ==>
            r == Err(BatchRaised) && db.items == old(db.items) && db.nextItemId == old(db.nextItemId))
      && (!Raises(db.meals, oid, before, entries, raiseAt) ==>
            && ItemTable(db.items, db.nextItemId) == b.items
            && r == (if b.stop.Some? then Err(b.stop.value) else Ok(b.summaries)))
  {
    var before := ItemTable(db.items, db.nextItemId);
    var raised;
    r, raised := AtomicBatch(db, oid, entries, raiseAt);
    if raised {
      db.items, db.nextItemId := before.rows, before.nextId;
      r := Err(BatchRaised);
    }
  }

  /**
   * `AddMultipleOrderItemsAPIView.post`: 404 without a target order;
   * otherwise `process_items`, and only a batch that ran to the end
   * recomputes the order total.
   */
  method AddMultipleOrderItems(db: Database, user: User, t: TableId, cur: Option<OrderId>, entries: seq<Entry>, raiseAt: Option<nat>)
    returns (r: Result<seq<Summary>, Error>)
    requires db.Valid() && IsCurrentOrder(db, t, cur)
    modifies db`items, db`nextItemId, db`orders
    ensures db.Valid()
    ensures TargetOrder(old(db.orders), db.tables, user, t, cur).None? ==>
      r == Err(OrderNotFound) && db.items == old(db.items) && db.nextItemId == old(db.nextItemId) && db.orders == old(db.orders)
    ensures TargetOrder(old(db.orders), db.tables, user, t, cur).Some? ==>
      var oid := TargetOrder(old(db.orders), db.tables, user, t, cur).value;
      var before := ItemTable(old(db.items), old(db.nextItemId));
      var b := RunBatch(db.meals, oid, before, entries);
      && (Raises(db.meals, oid, before, entries, raiseAt) ==>
            r == Err(BatchRaised) && db.items == old(db.items) && db.nextItemId == old(db.nextItemId))
      && (!Raises(db.meals, oid, before, entries, raiseAt) ==>
            ItemTable(db.items, db.nextItemId) == b.items && r == (if b.stop.Some? then Err(b.stop.value) else Ok(b.summaries)))
      && (r.Err? ==> db.orders == old(db.orders))
      && (r.Ok? ==> db.orders == ReplaceOrder(old(db.orders), OrderById(old(db.orders), oid).(totalPrice := StoredTotal(db.items, oid))))
  {
    var target := TargetOrder(db.orders, db.tables, user, t, cur);
    if target.None? {
      return Err(OrderNotFound);
    }
    var oid := target.value;
    assert oid in Ids(db.orders) by {
      TargetOrderSpec(db.orders, db.tables, db.nextOrderId, user, t, cur);
    }
    ghost var orders0 := db.orders;
    r := ProcessItems(db, oid, entries, raiseAt);
    assert db.orders == orders0;
    if r.Ok? {
      UpdateTotalPrice(db, oid);
    }
  }
}
