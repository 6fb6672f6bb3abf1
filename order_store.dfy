/** The local order store and the five order routes of the backend.

    The store holds the three tables `orders`, `order_items` and
    `order_status_history` as sequences in insertion order. Every SQL
    statement a route awaits is one method of `Store`; a statement fails
    exactly when SQLite would refuse the row (a repeated PRIMARY KEY, a
    repeated UNIQUE `order_number`, a NULL in a NOT NULL column). Row ids
    (uuid v4) and `order_number` (`Date.now()`) come in as parameters;
    `CURRENT_TIMESTAMP` is the store's own strictly increasing `clock`. */
module OrderStore {
  import opened Common

  const DefaultStatus := "pending"
  const DefaultCurrency := "USD"
  const CreatedNote := "Order created"

  const CreateFailed := "Failed to create order"
  const UpdateFailed := "Failed to update order status"

  /** A row of `orders`. `status` has a DEFAULT but no NOT NULL, so an
      update can store NULL in it. */
  datatype OrderRow = OrderRow(
    id: string,
    orderNumber: int,
    customerName: string,
    customerEmail: string,
    status: Option<string>,
    totalPrice: int,
    currency: string,
    createdAt: nat,
    updatedAt: nat)

  /** A row of `order_items`; `product_id` is the only nullable column. */
  datatype ItemRow = ItemRow(
    id: string,
    orderId: string,
    productName: string,
    productId: Option<string>,
    quantity: int,
    price: int)

  /** A row of `order_status_history`; `notes` is nullable. */
  datatype HistoryRow = HistoryRow(
    id: string,
    orderId: string,
    status: string,
    timestamp: nat,
    notes: Option<string>)

  /** One element of the request's `items` array; a missing JSON field is `None`. */
  datatype ItemInput = ItemInput(id: Option<string>, name: Option<string>, quantity: Option<int>, price: Option<int>)

  /** The body of a 201 reply to a create request. */
  datatype Created = Created(id: string, orderNumber: int)

  /** The body of a 200 reply to a get-by-id request: the order row with its items and history. */
  datatype OrderDetail = OrderDetail(order: OrderRow, items: seq<ItemRow>, history: seq<HistoryRow>)

  /** A route's reply: 200/201 with a body, 404, or 500 with its message. */
  datatype Response<T> = Ok(value: T) | NotFound | ServerError(message: string)

  // ---------------------------------------------------------------- tables

  function OrderIds(t: seq<OrderRow>): set<string> {
    set i | 0 <= i < |t| :: t[i].id
  }

  function OrderNumbers(t: seq<OrderRow>): set<int> {
    set i | 0 <= i < |t| :: t[i].orderNumber
  }

  function ItemIds(t: seq<ItemRow>): set<string> {
    set i | 0 <= i < |t| :: t[i].id
  }

  function HistoryIds(t: seq<HistoryRow>): set<string> {
    set i | 0 <= i < |t| :: t[i].id
  }

  /** Two rows of `orders`, the first written earlier: distinct PRIMARY KEY,
      distinct UNIQUE `order_number`, and an earlier `created_at`. */
  predicate OrderBefore(a: OrderRow, b: OrderRow) {
    a.id != b.id && a.orderNumber != b.orderNumber && a.createdAt < b.createdAt
  }

  /** Two rows of `order_items`: distinct PRIMARY KEY. */
  predicate ItemBefore(a: ItemRow, b: ItemRow) {
    a.id != b.id
  }

  /** Two rows of `order_status_history`, the first written earlier:
      distinct PRIMARY KEY and an earlier `timestamp`. */
  predicate HistoryBefore(a: HistoryRow, b: HistoryRow) {
    a.id != b.id && a.timestamp < b.timestamp
  }

  predicate OrdersOrdered(t: seq<OrderRow>) {
    forall i, j :: 0 <= i < j < |t| ==> OrderBefore(t[i], t[j])
  }

  predicate ItemsOrdered(t: seq<ItemRow>) {
    forall i, j :: 0 <= i < j < |t| ==> ItemBefore(t[i], t[j])
  }

  predicate HistoryOrdered(t: seq<HistoryRow>) {
    forall i, j :: 0 <= i < j < |t| ==> HistoryBefore(t[i], t[j])
  }

  /** `SELECT * FROM orders WHERE id = ?` as `db.get` reads it: the first matching row. */
  function FindOrder(t: seq<OrderRow>, id: string): (r: Option<OrderRow>)
    ensures r.None? <==> id !in OrderIds(t)
    ensures r.Some? ==> r.value in t && r.value.id == id
  {
    if t == [] then None
    else if t[0].id == id then Some(t[0])
    else
      var r := FindOrder(t[1..], id);
      assert OrderIds(t) == {t[0].id} + OrderIds(t[1..]) by {
        forall x | x in OrderIds(t) ensures x in {t[0].id} + OrderIds(t[1..]) {
          var i :| 0 <= i < |t| && t[i].id == x;
          if i > 0 { assert t[1..][i - 1].id == x; }
        }
      }
      r
  }

  /** `SELECT * FROM order_items WHERE order_id = ?`: exactly the rows of
      that order, in table order. */
  function ItemsOf(t: seq<ItemRow>, id: string): (r: seq<ItemRow>)
    ensures forall x :: x in r <==> x in t && x.orderId == id
  {
    Filter(t, (x: ItemRow) => x.orderId == id)
  }

  /** `SELECT * FROM order_status_history WHERE order_id = ?`: exactly the
      entries of that order, in table (that is, timestamp) order, oldest first. */
  function HistoryOf(t: seq<HistoryRow>, id: string): (r: seq<HistoryRow>)
    ensures forall x :: x in r <==> x in t && x.orderId == id
  {
    Filter(t, (x: HistoryRow) => x.orderId == id)
  }

  /** `DELETE FROM order_items WHERE order_id = ?`. */
  function ItemsNotOf(t: seq<ItemRow>, id: string): (r: seq<ItemRow>)
    ensures forall x :: x in r <==> x in t && x.orderId != id
  {
    Filter(t, (x: ItemRow) => x.orderId != id)
  }

  /** `DELETE FROM order_status_history WHERE order_id = ?`. */
  function HistoryNotOf(t: seq<HistoryRow>, id: string): (r: seq<HistoryRow>)
    ensures forall x :: x in r <==> x in t && x.orderId != id
  {
    Filter(t, (x: HistoryRow) => x.orderId != id)
  }

  /** `DELETE FROM orders WHERE id = ?`. */
  function OrdersWithout(t: seq<OrderRow>, id: string): (r: seq<OrderRow>)
    ensures forall x :: x in r <==> x in t && x.id != id
  {
    Filter(t, (x: OrderRow) => x.id != id)
  }

  /** `UPDATE orders SET status = ?, updated_at = CURRENT_TIMESTAMP WHERE id = ?`:
      only the rows with that id change, and only in `status` and `updated_at`. */
  function WithStatus(t: seq<OrderRow>, id: string, status: Option<string>, now: nat): (r: seq<OrderRow>)
    ensures |r| == |t|
    ensures forall i :: 0 <= i < |t| ==> r[i].id == t[i].id
    ensures forall i :: 0 <= i < |t| && t[i].id != id ==> r[i] == t[i]
    ensures forall i :: 0 <= i < |t| && t[i].id == id ==> r[i] == t[i].(status := status, updatedAt := now)
  {
    Map(t, (o: OrderRow) => if o.id == id then o.(status := status, updatedAt := now) else o)
  }

  /** The order's status is the status of its newest history entry, and it has one. */
  predicate StatusAgrees(o: OrderRow, history: seq<HistoryRow>) {
    var h := HistoryOf(history, o.id);
    h != [] && o.status == Some(h[|h| - 1].status)
  }

  /** The NOT NULL columns of `order_items` that come from the request are present. */
  predicate Complete(x: ItemInput) {
    x.name.Some? && x.quantity.Some? && x.price.Some?
  }

  /** Whether a create request's item `k` can be inserted: its NOT NULL
      fields are present and its id is new to the table and to the rows this
      request inserted before it. */
  predicate ItemAccepted(t: seq<ItemRow>, inputs: seq<ItemInput>, ids: seq<string>, k: nat)
    requires |ids| == |inputs| && k < |inputs|
  {
    Complete(inputs[k]) && ids[k] !in ItemIds(t) && ids[k] !in ids[..k]
  }

  /** The index of the first item whose insert fails, or `|inputs|` when all succeed. */
  function FirstRejected(t: seq<ItemRow>, inputs: seq<ItemInput>, ids: seq<string>, from: nat := 0): (r: nat)
    requires |ids| == |inputs| && from <= |inputs|
    ensures from <= r <= |inputs|
    ensures forall k :: from <= k < r ==> ItemAccepted(t, inputs, ids, k)
    ensures forall k :: from <= k < r ==> Complete(inputs[k])
    ensures r < |inputs| ==> !ItemAccepted(t, inputs, ids, r)
    decreases |inputs| - from
  {
    if from == |inputs| then from
    else if ItemAccepted(t, inputs, ids, from) then FirstRejected(t, inputs, ids, from + 1)
    else from
  }

  /** The row `INSERT INTO order_items` writes for an item: name, product
      id, quantity and price copied from the request. */
  function ItemRowOf(id: string, orderId: string, input: ItemInput): (r: ItemRow)
    requires Complete(input)
    ensures r.id == id && r.orderId == orderId
    ensures Some(r.productName) == input.name && r.productId == input.id
    ensures Some(r.quantity) == input.quantity && Some(r.price) == input.price
  {
    ItemRow(id, orderId, input.name.value, input.id, input.quantity.value, input.price.value)
  }

  /** Items with every NOT NULL field present and ids that are new and
      pairwise distinct are all inserted. */
  lemma AllItemsAccepted(t: seq<ItemRow>, inputs: seq<ItemInput>, ids: seq<string>)
    requires |ids| == |inputs|
    requires forall k :: 0 <= k < |inputs| ==> Complete(inputs[k])
    requires forall k :: 0 <= k < |ids| ==> ids[k] !in ItemIds(t)
    requires forall i, j :: 0 <= i < j < |ids| ==> ids[i] != ids[j]
    ensures FirstRejected(t, inputs, ids) == |inputs|
  {
    forall k | 0 <= k < |inputs| ensures ItemAccepted(t, inputs, ids, k) {
      forall x | x in ids[..k] ensures x != ids[k] {
        var i :| 0 <= i < k && ids[..k][i] == x;
      }
    }
  }

  /** The rows written for the first `n` items of a create request. */
  function NewItemRows(orderId: string, inputs: seq<ItemInput>, ids: seq<string>, n: nat): (r: seq<ItemRow>)
    requires |ids| == |inputs| && n <= |inputs|
    requires forall k :: 0 <= k < n ==> Complete(inputs[k])
    ensures |r| == n
    ensures forall k :: 0 <= k < n ==> r[k] == ItemRowOf(ids[k], orderId, inputs[k])
  {
    seq(n, k requires 0 <= k < n => ItemRowOf(ids[k], orderId, inputs[k]))
  }

  // ------------------------------------------------------ lemmas on tables

  lemma HistoryOfAppend(h: seq<HistoryRow>, x: HistoryRow, id: string)
    ensures HistoryOf(h + [x], id) == HistoryOf(h, id) + (if x.orderId == id then [x] else [])
  {
    FilterConcat(h, [x], (e: HistoryRow) => e.orderId == id);
  }

  /** Deleting one order's history leaves every other order's history as it was. */
  lemma {:induction false} HistoryOfAfterDelete(h: seq<HistoryRow>, gone: string, id: string)
    ensures HistoryOf(HistoryNotOf(h, gone), id) == if id == gone then [] else HistoryOf(h, id)
  {
    if h != [] {
      HistoryOfAfterDelete(h[1..], gone, id);
      var rest := HistoryNotOf(h[1..], gone);
      if h[0].orderId != gone {
        assert HistoryNotOf(h, gone) == [h[0]] + rest;
        assert ([h[0]] + rest)[1..] == rest;
      }
    }
  }

  /** Deleting one order's items leaves no item of it behind. */
  lemma ItemsOfAfterDelete(t: seq<ItemRow>, gone: string)
    ensures ItemsOf(ItemsNotOf(t, gone), gone) == []
  {
    FilterKeepsNone(ItemsNotOf(t, gone), (x: ItemRow) => x.orderId == gone);
  }

  /** A table grown by a row after all others keeps its order relation. */
  lemma OrdersAppend(t: seq<OrderRow>, row: OrderRow, clock: nat)
    requires OrdersOrdered(t)
    requires forall i :: 0 <= i < |t| ==> t[i].createdAt < clock
    requires row.id !in OrderIds(t) && row.orderNumber !in OrderNumbers(t) && row.createdAt == clock
    ensures OrdersOrdered(t + [row])
  {
    assert forall i :: 0 <= i < |t| ==> t[i].id in OrderIds(t) && t[i].orderNumber in OrderNumbers(t);
    AppendPairwise(t, row, OrderBefore);
  }

  lemma ItemsAppend(t: seq<ItemRow>, row: ItemRow)
    requires ItemsOrdered(t) && row.id !in ItemIds(t)
    ensures ItemsOrdered(t + [row])
  {
    assert forall i :: 0 <= i < |t| ==> t[i].id in ItemIds(t);
    AppendPairwise(t, row, ItemBefore);
  }

  lemma HistoryAppend(t: seq<HistoryRow>, row: HistoryRow, clock: nat)
    requires HistoryOrdered(t)
    requires forall i :: 0 <= i < |t| ==> t[i].timestamp < clock
    requires row.id !in HistoryIds(t) && row.timestamp == clock
    ensures HistoryOrdered(t + [row])
  {
    assert forall i :: 0 <= i < |t| ==> t[i].id in HistoryIds(t);
    AppendPairwise(t, row, HistoryBefore);
  }

  /** Ids of a table grown by the rows of a create request. */
  lemma ItemIdsGrow(t: seq<ItemRow>, rows: seq<ItemRow>, ids: seq<string>)
    requires |rows| == |ids|
    requires forall k :: 0 <= k < |rows| ==> rows[k].id == ids[k]
    ensures ItemIds(t + rows) == ItemIds(t) + set k | 0 <= k < |ids| :: ids[k]
  {
    var u := t + rows;
    forall x | x in ItemIds(u) ensures x in ItemIds(t) + set k | 0 <= k < |ids| :: ids[k] {
      var i :| 0 <= i < |u| && u[i].id == x;
      if i >= |t| { assert ids[i - |t|] == x; }
    }
    forall x | x in ItemIds(t) ensures x in ItemIds(u) {
      var i :| 0 <= i < |t| && t[i].id == x;
      assert u[i].id == x;
    }
    forall k | 0 <= k < |ids| ensures ids[k] in ItemIds(u) {
      assert u[|t| + k].id == ids[k];
    }
  }

  /** The ids of the orders left after a delete. */
  lemma OrderIdsWithout(t: seq<OrderRow>, id: string)
    ensures OrderIds(OrdersWithout(t, id)) == OrderIds(t) - {id}
  {
    var r := OrdersWithout(t, id);
    forall x | x in OrderIds(r) ensures x in OrderIds(t) - {id} {
      var i :| 0 <= i < |r| && r[i].id == x;
      assert r[i] in t;
      var j :| 0 <= j < |t| && t[j] == r[i];
    }
    forall x | x in OrderIds(t) - {id} ensures x in OrderIds(r) {
      var j :| 0 <= j < |t| && t[j].id == x;
      assert t[j] in r;
      var i :| 0 <= i < |r| && r[i] == t[j];
    }
  }

  // ----------------------------------------------------------------- store

  class Store {
    var orders: seq<OrderRow>
    var items: seq<ItemRow>
    var history: seq<HistoryRow>
    /** The value `CURRENT_TIMESTAMP` gives the next statement. */
    var clock: nat

    /** What SQLite and the statements keep true: keys unique, and every
        timestamp earlier than the clock and increasing in table order. */
    ghost predicate Valid()
      reads this
    {
      && OrdersOrdered(orders)
      && ItemsOrdered(items)
      && HistoryOrdered(history)
      && (forall i :: 0 <= i < |orders| ==> orders[i].createdAt <= orders[i].updatedAt < clock)
      && (forall i :: 0 <= i < |history| ==> history[i].timestamp < clock)
    }

    /** Every item row belongs to an order that exists. The declared FOREIGN
        KEY is not enforced; the routes keep this by writing items only after
        their order and deleting them before it. */
    ghost predicate ItemsOwned()
      reads this
    {
      forall i :: 0 <= i < |items| ==> items[i].orderId in OrderIds(orders)
    }

    /** Every order's status is its newest history entry's status. */
    ghost predicate Consistent()
      reads this
    {
      forall i :: 0 <= i < |orders| ==> StatusAgrees(orders[i], history)
    }

    /** A fresh database file: the three `CREATE TABLE IF NOT EXISTS` on empty tables. */
    constructor ()
      ensures Valid() && ItemsOwned() && Consistent()
      ensures orders == [] && items == [] && history == []
    {
      orders, items, history, clock := [], [], [], 0;
    }

    // ------------------------------------------------------ statements

    /** `INSERT INTO orders (id, order_number, customer_name, customer_email, total_price)`;
        `status`, `currency` and both timestamps take their defaults. */
    method InsertOrder(id: string, orderNumber: int, customerName: Option<string>,
                       customerEmail: Option<string>, totalPrice: Option<int>) returns (ok: bool)
      requires Valid()
      modifies this
      ensures Valid()
      ensures ok == (customerName.Some? && customerEmail.Some? && totalPrice.Some?
                     && id !in OrderIds(old(orders)) && orderNumber !in OrderNumbers(old(orders)))
      ensures ok ==> orders == old(orders) + [OrderRow(id, orderNumber, customerName.value, customerEmail.value,
                                                      Some(DefaultStatus), totalPrice.value, DefaultCurrency,
                                                      old(clock), old(clock))]
      ensures ok ==> clock == old(clock) + 1
      ensures !ok ==> orders == old(orders) && clock == old(clock)
      ensures items == old(items) && history == old(history)
    {
      ok := customerName.Some? && customerEmail.Some? && totalPrice.Some?
            && id !in OrderIds(orders) && orderNumber !in OrderNumbers(orders);
      if ok {
        var row := OrderRow(id, orderNumber, customerName.value, customerEmail.value,
                            Some(DefaultStatus), totalPrice.value, DefaultCurrency, clock, clock);
        OrdersAppend(orders, row, clock);
        orders := orders + [row];
        clock := clock + 1;
      }
    }

    /** `INSERT INTO order_items (id, order_id, product_name, product_id, quantity, price)`. */
    method InsertItem(id: string, orderId: string, input: ItemInput) returns (ok: bool)
      requires Valid()
      modifies this
      ensures Valid()
      ensures ok == (Complete(input) && id !in ItemIds(old(items)))
      ensures items == if ok then old(items) + [ItemRowOf(id, orderId, input)] else old(items)
      ensures orders == old(orders) && history == old(history) && clock == old(clock)
    {
      ok := Complete(input) && id !in ItemIds(items);
      if ok {
        ItemsAppend(items, ItemRowOf(id, orderId, input));
        items := items + [ItemRowOf(id, orderId, input)];
      }
    }

    /** `INSERT INTO order_status_history (id, order_id, status, notes)`;
        `timestamp` takes its default. */
    method InsertHistory(id: string, orderId: string, status: Option<string>, notes: Option<string>)
      returns (ok: bool)
      requires Valid()
      modifies this
      ensures Valid()
      ensures ok == (status.Some? && id !in HistoryIds(old(history)))
      ensures ok ==> history == old(history) + [HistoryRow(id, orderId, status.value, old(clock), notes)]
      ensures ok ==> clock == old(clock) + 1
      ensures !ok ==> history == old(history) && clock == old(clock)
      ensures orders == old(orders) && items == old(items)
    {
      ok := status.Some? && id !in HistoryIds(history);
      if ok {
        var row := HistoryRow(id, orderId, status.value, clock, notes);
        HistoryAppend(history, row, clock);
        history := history + [row];
        clock := clock + 1;
      }
    }

    /** `UPDATE orders SET status = ?, updated_at = CURRENT_TIMESTAMP WHERE id = ?`;
        no constraint can refuse it, since `status` is nullable. */
    method UpdateStatusRow(id: string, status: Option<string>)
      requires Valid()
      modifies this
      ensures Valid()
      ensures orders == WithStatus(old(orders), id, status, old(clock))
      ensures clock == old(clock) + 1
      ensures items == old(items) && history == old(history)
    {
      var updated := WithStatus(orders, id, status, clock);
      assert OrdersOrdered(updated) by {
        forall i, j | 0 <= i < j < |updated| ensures OrderBefore(updated[i], updated[j]) {
          assert OrderBefore(orders[i], orders[j]);
        }
      }
      orders := updated;
      clock := clock + 1;
    }

    /** The three `DELETE ... WHERE` statements of the delete route, in order. */
    method DeleteRows(id: string)
      requires Valid()
      modifies this
      ensures Valid()
      ensures items == ItemsNotOf(old(items), id)
      ensures history == HistoryNotOf(old(history), id)
      ensures orders == OrdersWithout(old(orders), id)
      ensures clock == old(clock)
    {
      FilterPairwise(items, (x: ItemRow) => x.orderId != id, ItemBefore);
      items := ItemsNotOf(items, id);
      FilterPairwise(history, (x: HistoryRow) => x.orderId != id, HistoryBefore);
      history := HistoryNotOf(history, id);
      FilterPairwise(orders, (x: OrderRow) => x.id != id, OrderBefore);
      orders := OrdersWithout(orders, id);
    }

    /** The `for (const item of items)` loop of the create route: one insert
        per item, stopping at the first that fails. */
    method InsertItems(orderId: string, inputs: seq<ItemInput>, ids: seq<string>) returns (n: nat)
      requires Valid()
      requires |ids| == |inputs|
      modifies this
      ensures Valid()
      ensures n == FirstRejected(old(items), inputs, ids)
      ensures items == old(items) + NewItemRows(orderId, inputs, ids, n)
      ensures orders == old(orders) && history == old(history) && clock == old(clock)
    {
      ghost var items0 := items;
      n := 0;
      while n < |inputs|
        invariant 0 <= n <= |inputs|
        invariant Valid()
        invariant orders == old(orders) && history == old(history) && clock == old(clock)
        invariant forall k :: 0 <= k < n ==> ItemAccepted(items0, inputs, ids, k)
        invariant forall k :: 0 <= k < n ==> Complete(inputs[k])
        invariant items == items0 + NewItemRows(orderId, inputs, ids, n)
      {
        assert ids[n] !in ItemIds(items) <==> ids[n] !in ItemIds(items0) && ids[n] !in ids[..n] by {
          ItemIdsGrow(items0, NewItemRows(orderId, inputs, ids, n), ids[..n]);
          assert (set k | 0 <= k < |ids[..n]| :: ids[..n][k]) == set x | x in ids[..n];
        }
        var ok := InsertItem(ids[n], orderId, inputs[n]);
        if !ok {
          assert !ItemAccepted(items0, inputs, ids, n);
          return;
        }
        assert items == items0 + NewItemRows(orderId, inputs, ids, n + 1) by {
          assert NewItemRows(orderId, inputs, ids, n + 1) == NewItemRows(orderId, inputs, ids, n) + [ItemRowOf(ids[n], orderId, inputs[n])];
        }
        n := n + 1;
      }
    }

    // ---------------------------------------------------------- routes

    /** POST /api/orders. The order row, then one item row per input item,
        then the 'pending' history row; the first statement that fails ends
        the route with a 500, and nothing already written is rolled back.
        A missing `items` array makes the loop throw after the order row is
        written. */
    method CreateOrder(customerName: Option<string>, customerEmail: Option<string>,
                       inputs: Option<seq<ItemInput>>, totalPrice: Option<int>,
                       orderId: string, orderNumber: int, itemIds: seq<string>, historyId: string)
      returns (r: Response<Created>)
      requires Valid()
      requires inputs.Some? ==> |itemIds| == |inputs.value|
      modifies this
      ensures Valid()
      ensures old(ItemsOwned()) ==> ItemsOwned()
      ensures r.Ok? || r == ServerError(CreateFailed)
      // the order row is refused: nothing is written
      ensures !(customerName.Some? && customerEmail.Some? && totalPrice.Some?
                && orderId !in OrderIds(old(orders)) && orderNumber !in OrderNumbers(old(orders)))
              ==> r.ServerError? && orders == old(orders) && items == old(items) && history == old(history)
      // the order row is written with its defaults
      ensures (customerName.Some? && customerEmail.Some? && totalPrice.Some?
               && orderId !in OrderIds(old(orders)) && orderNumber !in OrderNumbers(old(orders)))
              ==> orders == old(orders) + [OrderRow(orderId, orderNumber, customerName.value, customerEmail.value,
                                                   Some(DefaultStatus), totalPrice.value, DefaultCurrency,
                                                   old(clock), old(clock))]
      // no `items` array: the order row stays, nothing else is written
      ensures inputs.None? ==> r.ServerError? && items == old(items) && history == old(history)
      // the item rows written are those before the first refused one; if one is refused, no history
      ensures inputs.Some? && |orders| > |old(orders)| ==>
                var n := FirstRejected(old(items), inputs.value, itemIds);
                items == old(items) + NewItemRows(orderId, inputs.value, itemIds, n)
                && (n < |inputs.value| ==> r.ServerError? && history == old(history))
      // every item written: the history row decides the reply
      ensures inputs.Some? && |orders| > |old(orders)| && FirstRejected(old(items), inputs.value, itemIds) == |inputs.value|
              ==> if historyId !in HistoryIds(old(history)) then
                    r == Ok(Created(orderId, orderNumber))
                    && history == old(history) + [HistoryRow(historyId, orderId, DefaultStatus, old(clock) + 1, Some(CreatedNote))]
                  else
                    r.ServerError? && history == old(history)
      ensures r.Ok? && old(Consistent()) ==> Consistent()
    {
      ghost var wasOwned, wasConsistent := ItemsOwned(), Consistent();
      ghost var orders0, items0, history0 := orders, items, history;
      var ok := InsertOrder(orderId, orderNumber, customerName, customerEmail, totalPrice);
      if !ok {
        return ServerError(CreateFailed);
      }
      ghost var row := orders[|orders| - 1];
      OwnedAfterInsertOrder(orders0, row, items0);
      if inputs.None? {
        return ServerError(CreateFailed);
      }
      var n := InsertItems(orderId, inputs.value, itemIds);
      OwnedAfterItems(orders0, row, items0, NewItemRows(orderId, inputs.value, itemIds, n));
      if n < |inputs.value| {
        return ServerError(CreateFailed);
      }
      ok := InsertHistory(historyId, orderId, Some(DefaultStatus), Some(CreatedNote));
      if !ok {
        return ServerError(CreateFailed);
      }
      r := Ok(Created(orderId, orderNumber));
      if wasConsistent {
        ConsistentAfterCreate(orders0, row, history0, history[|history| - 1]);
      }
    }

    /** GET /api/orders: every order row, newest first, with neither items nor history. */
    method ListOrders() returns (r: seq<OrderRow>)
      requires Valid()
      ensures |r| == |orders|
      ensures forall i :: 0 <= i < |r| ==> r[i] == orders[|orders| - 1 - i]
      ensures forall i, j :: 0 <= i < j < |r| ==> r[i].createdAt > r[j].createdAt
    {
      r := Reverse(orders);
      forall i, j | 0 <= i < j < |r| ensures r[i].createdAt > r[j].createdAt {
        assert OrderBefore(orders[|orders| - 1 - j], orders[|orders| - 1 - i]);
      }
    }

    /** GET /api/orders/:id: 404 when no row has the id; otherwise the row
        with exactly its own item rows and its history newest first. */
    method GetOrder(id: string) returns (r: Response<OrderDetail>)
      requires Valid()
      ensures r.NotFound? <==> id !in OrderIds(orders)
      ensures !r.ServerError?
      ensures r.Ok? ==> r.value.order in orders && r.value.order.id == id
      ensures r.Ok? ==> forall x :: x in r.value.items <==> x in items && x.orderId == id
      ensures r.Ok? ==> r.value.items == ItemsOf(items, id) && ItemsOrdered(r.value.items)
      ensures r.Ok? ==> forall x :: x in r.value.history <==> x in history && x.orderId == id
      ensures r.Ok? ==> r.value.history == Reverse(HistoryOf(history, id))
      ensures r.Ok? ==> forall i, j :: 0 <= i < j < |r.value.history| ==>
                          r.value.history[i].timestamp > r.value.history[j].timestamp
    {
      var found := FindOrder(orders, id);
      if found.None? {
        return NotFound;
      }
      var own := HistoryOf(history, id);
      FilterPairwise(items, (x: ItemRow) => x.orderId == id, ItemBefore);
      FilterPairwise(history, (x: HistoryRow) => x.orderId == id, HistoryBefore);
      var newestFirst := Reverse(own);
      forall i, j | 0 <= i < j < |newestFirst| ensures newestFirst[i].timestamp > newestFirst[j].timestamp {
        assert HistoryBefore(own[|own| - 1 - j], own[|own| - 1 - i]);
      }
      assert forall x :: x in newestFirst <==> x in own by {
        forall x | x in own ensures x in newestFirst {
          var i :| 0 <= i < |own| && own[i] == x;
          assert newestFirst[|own| - 1 - i] == x;
        }
      }
      r := Ok(OrderDetail(found.value, ItemsOf(items, id), newestFirst));
    }

    /** PATCH /api/orders/:id/status. Nothing checks that the id exists nor
        that the status is one of the known ones; the history row is written
        whether or not an order row matched, with notes `notes || ''`. */
    method UpdateStatus(id: string, status: Option<string>, notes: Option<string>, historyId: string)
      returns (r: Response<()>)
      requires Valid()
      modifies this
      ensures Valid()
      ensures old(ItemsOwned()) ==> ItemsOwned()
      ensures orders == WithStatus(old(orders), id, status, old(clock))
      ensures id !in OrderIds(old(orders)) ==> orders == old(orders)
      ensures items == old(items)
      ensures r == (if status.Some? && historyId !in HistoryIds(old(history)) then Ok(()) else ServerError(UpdateFailed))
      ensures r.Ok? ==> history == old(history) + [HistoryRow(historyId, id, status.value, old(clock) + 1, Some(notes.GetOr("")))]
      ensures r.ServerError? ==> history == old(history)
      ensures r.Ok? && old(Consistent()) ==> Consistent()
    {
      ghost var wasOwned, wasConsistent := ItemsOwned(), Consistent();
      ghost var orders0, history0 := orders, history;
      UpdateStatusRow(id, status);
      WithStatusKeeps(orders0, id, status, old(clock));
      var ok := InsertHistory(historyId, id, status, Some(notes.GetOr("")));
      if !ok {
        return ServerError(UpdateFailed);
      }
      r := Ok(());
      if wasConsistent {
        ConsistentAfterUpdate(orders0, history0, id, status, orders, history[|history| - 1]);
      }
    }

    /** DELETE /api/orders/:id: items, then history, then the order row.
        Always a success; an unknown id deletes nothing. */
    method DeleteOrder(id: string) returns (r: Response<()>)
      requires Valid()
      modifies this
      ensures Valid()
      ensures r == Ok(())
      ensures old(ItemsOwned()) ==> ItemsOwned()
      ensures old(Consistent()) ==> Consistent()
      ensures items == ItemsNotOf(old(items), id)
      ensures history == HistoryNotOf(old(history), id)
      ensures orders == OrdersWithout(old(orders), id)
      ensures id !in OrderIds(orders) && ItemsOf(items, id) == [] && HistoryOf(history, id) == []
      ensures (forall i :: 0 <= i < |old(items)| ==> old(items)[i].orderId != id)
              && (forall i :: 0 <= i < |old(history)| ==> old(history)[i].orderId != id)
              && id !in OrderIds(old(orders))
              ==> orders == old(orders) && items == old(items) && history == old(history)
    {
      ghost var orders0, items0, history0 := orders, items, history;
      ghost var wasOwned, wasConsistent := ItemsOwned(), Consistent();
      DeleteRows(id);
      r := Ok(());
      OrderIdsWithout(orders0, id);
      HistoryOfAfterDelete(history0, id, id);
      ItemsOfAfterDelete(items0, id);
      if wasOwned {
        OwnedAfterDelete(orders0, items0, id);
      }
      if wasConsistent {
        ConsistentAfterDelete(orders0, history0, id);
      }
      DeleteOfAbsent(orders0, items0, history0, id);
    }
  }

  // -------------------------------------------- lemmas behind the routes

  /** The status update leaves the set of order ids alone, and an unknown id leaves every row alone. */
  lemma WithStatusKeeps(t: seq<OrderRow>, id: string, status: Option<string>, now: nat)
    ensures OrderIds(WithStatus(t, id, status, now)) == OrderIds(t)
    ensures id !in OrderIds(t) ==> WithStatus(t, id, status, now) == t
  {
    var r := WithStatus(t, id, status, now);
    forall x | x in OrderIds(r) ensures x in OrderIds(t) {
      var i :| 0 <= i < |r| && r[i].id == x;
    }
    forall x | x in OrderIds(t) ensures x in OrderIds(r) {
      var i :| 0 <= i < |t| && t[i].id == x;
      assert r[i].id == x;
    }
    if id !in OrderIds(t) {
      assert forall i :: 0 <= i < |t| ==> t[i].id in OrderIds(t);
    }
  }

  /** A new order row keeps every existing item owned. */
  lemma OwnedAfterInsertOrder(orders: seq<OrderRow>, row: OrderRow, items: seq<ItemRow>)
    ensures (forall i :: 0 <= i < |items| ==> items[i].orderId in OrderIds(orders)) ==>
            forall i :: 0 <= i < |items| ==> items[i].orderId in OrderIds(orders + [row])
  {
    forall i | 0 <= i < |items| && items[i].orderId in OrderIds(orders)
      ensures items[i].orderId in OrderIds(orders + [row])
    {
      var j :| 0 <= j < |orders| && orders[j].id == items[i].orderId;
      assert (orders + [row])[j].id == items[i].orderId;
    }
  }

  /** Item rows written for a new order are owned by it. */
  lemma OwnedAfterItems(orders: seq<OrderRow>, row: OrderRow, items: seq<ItemRow>, rows: seq<ItemRow>)
    requires forall i :: 0 <= i < |rows| ==> rows[i].orderId == row.id
    ensures (forall i :: 0 <= i < |items| ==> items[i].orderId in OrderIds(orders)) ==>
            forall i :: 0 <= i < |items + rows| ==> (items + rows)[i].orderId in OrderIds(orders + [row])
  {
    assert (orders + [row])[|orders|].id == row.id;
    OwnedAfterInsertOrder(orders, row, items);
  }

  /** A new order whose creation entry is appended keeps every order's
      status equal to its newest history entry. */
  lemma ConsistentAfterCreate(orders: seq<OrderRow>, row: OrderRow, history: seq<HistoryRow>, entry: HistoryRow)
    requires row.id !in OrderIds(orders)
    requires entry.orderId == row.id && row.status == Some(entry.status)
    requires forall i :: 0 <= i < |orders| ==> StatusAgrees(orders[i], history)
    ensures forall i :: 0 <= i < |orders + [row]| ==> StatusAgrees((orders + [row])[i], history + [entry])
  {
    forall i | 0 <= i < |orders + [row]| ensures StatusAgrees((orders + [row])[i], history + [entry]) {
      var o := (orders + [row])[i];
      HistoryOfAppend(history, entry, o.id);
      if i < |orders| {
        assert o.id in OrderIds(orders);
      }
    }
  }

  /** A status written to the order rows and appended to the history keeps
      every order's status equal to its newest history entry, whether or
      not an order row has the id. */
  lemma ConsistentAfterUpdate(orders: seq<OrderRow>, history: seq<HistoryRow>, id: string,
                              status: Option<string>, updated: seq<OrderRow>, entry: HistoryRow)
    requires |updated| == |orders|
    requires forall i :: 0 <= i < |orders| ==> updated[i].id == orders[i].id
    requires forall i :: 0 <= i < |orders| ==> updated[i].status == if orders[i].id == id then status else orders[i].status
    requires entry.orderId == id && status == Some(entry.status)
    requires forall i :: 0 <= i < |orders| ==> StatusAgrees(orders[i], history)
    ensures forall i :: 0 <= i < |updated| ==> StatusAgrees(updated[i], history + [entry])
  {
    forall i | 0 <= i < |updated| ensures StatusAgrees(updated[i], history + [entry]) {
      HistoryOfAppend(history, entry, updated[i].id);
    }
  }

  /** Deleting an order with its items keeps every remaining item owned. */
  lemma OwnedAfterDelete(orders: seq<OrderRow>, items: seq<ItemRow>, id: string)
    requires forall i :: 0 <= i < |items| ==> items[i].orderId in OrderIds(orders)
    ensures forall i :: 0 <= i < |ItemsNotOf(items, id)| ==> ItemsNotOf(items, id)[i].orderId in OrderIds(OrdersWithout(orders, id))
  {
    OrderIdsWithout(orders, id);
    var kept := ItemsNotOf(items, id);
    forall i | 0 <= i < |kept| ensures kept[i].orderId in OrderIds(orders) {
      var j :| 0 <= j < |items| && items[j] == kept[i];
    }
  }

  /** Deleting an order with its history keeps every remaining order's status agreeing. */
  lemma ConsistentAfterDelete(orders: seq<OrderRow>, history: seq<HistoryRow>, id: string)
    requires forall i :: 0 <= i < |orders| ==> StatusAgrees(orders[i], history)
    ensures forall i :: 0 <= i < |OrdersWithout(orders, id)| ==> StatusAgrees(OrdersWithout(orders, id)[i], HistoryNotOf(history, id))
  {
    var kept := OrdersWithout(orders, id);
    forall i | 0 <= i < |kept| ensures StatusAgrees(kept[i], HistoryNotOf(history, id)) {
      var o := kept[i];
      assert o in orders && o.id != id;
      var j :| 0 <= j < |orders| && orders[j] == o;
      assert StatusAgrees(o, history);
      assert HistoryOf(HistoryNotOf(history, id), o.id) == HistoryOf(history, o.id) by {
        HistoryOfAfterDelete(history, id, o.id);
      }
    }
  }

  /** Deleting an id no row carries changes nothing. */
  lemma DeleteOfAbsent(orders: seq<OrderRow>, items: seq<ItemRow>, history: seq<HistoryRow>, id: string)
    ensures (forall i :: 0 <= i < |items| ==> items[i].orderId != id)
            && (forall i :: 0 <= i < |history| ==> history[i].orderId != id)
            && id !in OrderIds(orders)
            ==> OrdersWithout(orders, id) == orders && ItemsNotOf(items, id) == items && HistoryNotOf(history, id) == history
  {
    if (forall i :: 0 <= i < |items| ==> items[i].orderId != id)
       && (forall i :: 0 <= i < |history| ==> history[i].orderId != id)
       && id !in OrderIds(orders) {
      FilterKeepsAll(items, (x: ItemRow) => x.orderId != id);
      FilterKeepsAll(history, (x: HistoryRow) => x.orderId != id);
      assert forall i :: 0 <= i < |orders| ==> orders[i].id in OrderIds(orders);
      FilterKeepsAll(orders, (x: OrderRow) => x.id != id);
    }
  }

  /** A delete followed by a lookup of the same id: the lookup is a 404,
      whether or not the order existed. */
  method DeleteThenGet(store: Store, id: string) returns (r: Response<OrderDetail>)
    requires store.Valid()
    modifies store
    ensures r == NotFound
  {
    var deleted := store.DeleteOrder(id);
    r := store.GetOrder(id);
  }

  /** A create request without an `items` array fails after its order row
      is written, and nothing rolls that row back: the store is left with a
      'pending' order that has no history entry, so `Consistent` no longer
      holds. */
  method CreateWithoutItemsBreaksConsistency(store: Store, customerName: string, customerEmail: string,
                                             totalPrice: int, orderId: string, orderNumber: int,
                                             historyId: string)
    returns (r: Response<Created>)
    requires store.Valid()
    requires orderId !in OrderIds(store.orders) && orderNumber !in OrderNumbers(store.orders)
    requires forall i :: 0 <= i < |store.history| ==> store.history[i].orderId != orderId
    modifies store
    ensures r == ServerError(CreateFailed)
    ensures !store.Consistent()
  {
    r := store.CreateOrder(Some(customerName), Some(customerEmail), None, Some(totalPrice),
                           orderId, orderNumber, [], historyId);
    ghost var o := store.orders[|store.orders| - 1];
    assert o.id == orderId;
    FilterKeepsNone(store.history, (x: HistoryRow) => x.orderId == orderId);
    assert !StatusAgrees(o, store.history);
  }

  /** A status change without a status stores NULL in the order row and
      then fails on the history insert; nothing rolls the update back, so the
      order's status no longer agrees with its history. */
  method UpdateWithoutStatusBreaksConsistency(store: Store, id: string, notes: Option<string>, historyId: string)
    returns (r: Response<()>)
    requires store.Valid()
    requires id in OrderIds(store.orders)
    modifies store
    ensures r == ServerError(UpdateFailed)
    ensures !store.Consistent()
  {
    r := store.UpdateStatus(id, None, notes, historyId);
    ghost var i :| 0 <= i < |old(store.orders)| && old(store.orders)[i].id == id;
    assert store.orders[i].status == None;
    assert !StatusAgrees(store.orders[i], store.history);
  }
}
