/** The storefront's top-level component and the paths through which its
    views reach the order store: the `currentPage`, `cart` and `orders` state
    cells, the create request built from the cart, and the checkout, status
    change and delete flows end to end. A `fetch` either throws (the network
    failed) or delivers the route's reply; which one happens is a parameter. */
module App {
  import opened Common
  import opened Cart
  import Checkout
  import OrderPanel
  import OrderStore

  const ShopPage := "shop"
  const CartPage := "cart"
  const OrdersPage := "orders"

  /** How an awaited `fetch` settles. */
  datatype Fetch<T> = Threw | Replied(reply: OrderStore.Response<T>)

  /** `response.ok`: the route answered with a 2xx status. */
  predicate Succeeded<T>(f: Fetch<T>) {
    f.Replied? && f.reply.Ok?
  }

  /** How the create route reads one element of the request's `items`:
      every field the storefront sends is present. */
  function ItemInputOf(p: PayloadItem): OrderStore.ItemInput {
    OrderStore.ItemInput(Some(p.id), Some(p.name), Some(p.quantity), Some(p.price))
  }

  function ItemInputs(body: OrderPayload): seq<OrderStore.ItemInput> {
    Map(body.items, ItemInputOf)
  }

  /** Every item the storefront sends passes the NOT NULL checks, and the row
      written for it copies the cart line's name, product id, quantity and
      price; so an item insert can fail only on a repeated row id. */
  lemma SentItemsAreComplete(customerName: string, customerEmail: string, cart: seq<Line>,
                             ids: seq<string>, orderId: string)
    requires |ids| == |cart|
    ensures |ItemInputs(Payload(customerName, customerEmail, cart))| == |cart|
    ensures forall k :: 0 <= k < |cart| ==> OrderStore.Complete(ItemInputs(Payload(customerName, customerEmail, cart))[k])
    ensures forall k :: 0 <= k < |cart| ==>
              OrderStore.ItemRowOf(ids[k], orderId, ItemInputs(Payload(customerName, customerEmail, cart))[k])
              == OrderStore.ItemRow(ids[k], orderId, cart[k].name, Some(cart[k].id), cart[k].quantity, cart[k].price)
  {
    PayloadMatchesCart(customerName, customerEmail, cart);
  }

  /** The component's state cells. */
  class Storefront {
    var currentPage: string
    var cart: seq<Line>
    var orders: seq<OrderStore.OrderRow>

    constructor ()
      ensures currentPage == ShopPage && cart == [] && orders == []
    {
      currentPage := ShopPage;
      cart := [];
      orders := [];
    }

    /** A navigation button's `setCurrentPage`. */
    method Navigate(page: string)
      modifies this
      ensures currentPage == page && cart == old(cart) && orders == old(orders)
    {
      currentPage := page;
    }

    method AddToCart(p: Product)
      modifies this
      ensures cart == Cart.AddToCart(old(cart), p)
      ensures currentPage == old(currentPage) && orders == old(orders)
    {
      cart := Cart.AddToCart(cart, p);
    }

    method RemoveFromCart(productId: string)
      modifies this
      ensures cart == Cart.RemoveFromCart(old(cart), productId)
      ensures currentPage == old(currentPage) && orders == old(orders)
    {
      cart := Cart.RemoveFromCart(cart, productId);
    }

    method UpdateCartQuantity(productId: string, quantity: int)
      modifies this
      ensures cart == Cart.UpdateCartQuantity(old(cart), productId, quantity)
      ensures currentPage == old(currentPage) && orders == old(orders)
    {
      if quantity <= 0 {
        RemoveFromCart(productId);
      } else {
        cart := Cart.UpdateCartQuantity(cart, productId, quantity);
      }
    }

    /** `fetchOrders()`: the list replaces `orders` only on a successful reply;
        a failure is logged and swallowed. */
    method FetchOrders(result: Fetch<seq<OrderStore.OrderRow>>)
      modifies this
      ensures orders == if Succeeded(result) then result.reply.value else old(orders)
      ensures cart == old(cart) && currentPage == old(currentPage)
    {
      if result.Replied? && result.reply.Ok? {
        orders := result.reply.value;
      }
    }

    /** `createOrder(customerName, customerEmail)`: send the cart as a create
        request; on a successful reply empty the cart and show the orders page.
        Nothing is ever thrown to the caller: a failed `fetch` and an error
        reply both leave the state alone and return nothing. The list refresh
        it starts without awaiting is `FetchOrders`. */
    method CreateOrder(customerName: string, customerEmail: string, result: Fetch<OrderStore.Created>)
      returns (sent: OrderPayload, data: Option<OrderStore.Created>)
      modifies this
      ensures sent == Payload(customerName, customerEmail, old(cart))
      ensures Succeeded(result) ==> cart == [] && currentPage == OrdersPage && data == Some(result.reply.value)
      ensures !Succeeded(result) ==> cart == old(cart) && currentPage == old(currentPage) && data == None
      ensures orders == old(orders)
    {
      sent := Payload(customerName, customerEmail, cart);
      data := None;
      if result.Replied? && result.reply.Ok? {
        data := Some(result.reply.value);
        cart := [];
        currentPage := OrdersPage;
      }
    }
  }

  /** The ids a create request needs are all new, and the item ids pairwise distinct. */
  ghost predicate FreshIds(store: OrderStore.Store, orderId: string, orderNumber: int,
                           itemIds: seq<string>, historyId: string)
    reads store
  {
    && orderId !in OrderStore.OrderIds(store.orders)
    && orderNumber !in OrderStore.OrderNumbers(store.orders)
    && (forall k :: 0 <= k < |itemIds| ==> itemIds[k] !in OrderStore.ItemIds(store.items))
    && (forall i, j :: 0 <= i < j < |itemIds| ==> itemIds[i] != itemIds[j])
    && historyId !in OrderStore.HistoryIds(store.history)
  }

  /** The order row the create route writes for `body`, with its column defaults. */
  function CreatedRow(body: OrderPayload, orderId: string, orderNumber: int, clock: nat): OrderStore.OrderRow {
    OrderStore.OrderRow(orderId, orderNumber, body.customerName, body.customerEmail,
                        Some(OrderStore.DefaultStatus), body.totalPrice, OrderStore.DefaultCurrency, clock, clock)
  }

  /** The item rows the create route writes for the cart's lines, in cart order. */
  function CartRows(orderId: string, cart: seq<Line>, itemIds: seq<string>): (r: seq<OrderStore.ItemRow>)
    requires |itemIds| == |cart|
    ensures |r| == |cart|
  {
    seq(|cart|, k requires 0 <= k < |cart| =>
      OrderStore.ItemRow(itemIds[k], orderId, cart[k].name, Some(cart[k].id), cart[k].quantity, cart[k].price))
  }

  /** The first history entry of a new order, written one tick after its row. */
  function CreatedEntry(historyId: string, orderId: string, clock: nat): OrderStore.HistoryRow {
    OrderStore.HistoryRow(historyId, orderId, OrderStore.DefaultStatus, clock + 1, Some(OrderStore.CreatedNote))
  }

  /** Every table still starts with its rows from before: the create route only appends. */
  ghost predicate Kept(store: OrderStore.Store, orders0: seq<OrderStore.OrderRow>,
                       items0: seq<OrderStore.ItemRow>, history0: seq<OrderStore.HistoryRow>)
    reads store
  {
    && |orders0| <= |store.orders| && store.orders[..|orders0|] == orders0
    && |items0| <= |store.items| && store.items[..|items0|] == items0
    && |history0| <= |store.history| && store.history[..|history0|] == history0
  }

  /** The tables are the earlier ones followed by exactly what the create route
      writes for `body`: its order row, one item row per cart line and the
      'pending' entry. */
  ghost predicate Posted(store: OrderStore.Store, orders0: seq<OrderStore.OrderRow>,
                         items0: seq<OrderStore.ItemRow>, history0: seq<OrderStore.HistoryRow>, clock0: nat,
                         body: OrderPayload, cart: seq<Line>,
                         orderId: string, orderNumber: int, itemIds: seq<string>, historyId: string)
    requires |itemIds| == |cart|
    reads store
  {
    && store.orders == orders0 + [CreatedRow(body, orderId, orderNumber, clock0)]
    && store.items == items0 + CartRows(orderId, cart, itemIds)
    && store.history == history0 + [CreatedEntry(historyId, orderId, clock0)]
  }

  /** `fetchOrders()` reaching the list route: `orders` becomes every order row, newest first. */
  method Refresh(app: Storefront, store: OrderStore.Store)
    requires store.Valid()
    modifies app
    ensures app.orders == Reverse(store.orders)
    ensures app.cart == old(app.cart) && app.currentPage == old(app.currentPage)
  {
    var listed := store.ListOrders();
    assert listed == Reverse(store.orders);
    app.FetchOrders(Replied(OrderStore.Ok(listed)));
  }

  /** The unawaited `fetchOrders()` a status change or a delete starts: it
      reaches the list route when `refreshed`; otherwise its `fetch` throws
      or gets a non-ok reply, either of which `fetchOrders` logs and
      swallows (a thrown `fetch` stands for both). */
  method RefreshOrFail(app: Storefront, store: OrderStore.Store, refreshed: bool)
    requires store.Valid()
    modifies app
    ensures app.orders == if refreshed then Reverse(store.orders) else old(app.orders)
    ensures app.cart == old(app.cart) && app.currentPage == old(app.currentPage)
  {
    if refreshed {
      Refresh(app, store);
    } else {
      app.FetchOrders(Threw);
    }
  }

  /** The create route on `body`, the request the storefront sends: it
      always passes the NOT NULL checks, never touches an earlier row, and
      with fresh ids it writes the order, one item row per cart line and the
      first history entry, keeping every invariant. */
  method PostOrder(store: OrderStore.Store, body: OrderPayload, cart: seq<Line>,
                   orderId: string, orderNumber: int, itemIds: seq<string>, historyId: string)
    returns (r: OrderStore.Response<OrderStore.Created>)
    requires store.Valid()
    requires body == Payload(body.customerName, body.customerEmail, cart) && |itemIds| == |cart|
    modifies store
    ensures store.Valid()
    ensures old(store.ItemsOwned()) ==> store.ItemsOwned()
    ensures Kept(store, old(store.orders), old(store.items), old(store.history))
    ensures old(FreshIds(store, orderId, orderNumber, itemIds, historyId)) ==>
              && r == OrderStore.Ok(OrderStore.Created(orderId, orderNumber))
              && Posted(store, old(store.orders), old(store.items), old(store.history), old(store.clock),
                        body, cart, orderId, orderNumber, itemIds, historyId)
              && CreatedRow(body, orderId, orderNumber, old(store.clock)).totalPrice == Total(cart)
              && (old(store.Consistent()) ==> store.Consistent())
  {
    ghost var orders0, items0, history0 := store.orders, store.items, store.history;
    ghost var wasFresh := FreshIds(store, orderId, orderNumber, itemIds, historyId);
    SentItemsAreComplete(body.customerName, body.customerEmail, cart, itemIds, orderId);
    var inputs := ItemInputs(body);
    if wasFresh {
      OrderStore.AllItemsAccepted(store.items, inputs, itemIds);
    }
    r := store.CreateOrder(Some(body.customerName), Some(body.customerEmail), Some(inputs),
                           Some(body.totalPrice), orderId, orderNumber, itemIds, historyId);
    assert Kept(store, orders0, items0, history0) by {
      if |store.orders| > |orders0| {
        var n := OrderStore.FirstRejected(items0, inputs, itemIds);
        assert store.items == items0 + OrderStore.NewItemRows(orderId, inputs, itemIds, n);
      }
    }
    if wasFresh {
      assert OrderStore.NewItemRows(orderId, inputs, itemIds, |inputs|) == CartRows(orderId, cart, itemIds);
    }
  }

  /** `createOrder` with the create route behind its `fetch` when
      `delivered`: the cart is emptied exactly when the route succeeds. */
  method SendCart(app: Storefront, store: OrderStore.Store, customerName: string, customerEmail: string,
                  delivered: bool, orderId: string, orderNumber: int, itemIds: seq<string>, historyId: string)
    returns (sent: OrderPayload, reply: Option<OrderStore.Response<OrderStore.Created>>)
    requires store.Valid()
    requires |itemIds| == |app.cart|
    modifies app, store
    ensures store.Valid()
    ensures sent == Payload(customerName, customerEmail, old(app.cart))
    ensures app.orders == old(app.orders)
    ensures reply.Some? <==> delivered
    ensures reply.Some? && reply.value.Ok? ==> app.cart == [] && app.currentPage == OrdersPage
    ensures !(reply.Some? && reply.value.Ok?) ==> app.cart == old(app.cart) && app.currentPage == old(app.currentPage)
    ensures old(store.ItemsOwned()) ==> store.ItemsOwned()
    ensures Kept(store, old(store.orders), old(store.items), old(store.history))
    ensures !delivered ==> store.orders == old(store.orders) && store.items == old(store.items)
                           && store.history == old(store.history) && store.clock == old(store.clock)
    ensures delivered && old(FreshIds(store, orderId, orderNumber, itemIds, historyId)) ==>
              && reply == Some(OrderStore.Ok(OrderStore.Created(orderId, orderNumber)))
              && Posted(store, old(store.orders), old(store.items), old(store.history), old(store.clock),
                        sent, old(app.cart), orderId, orderNumber, itemIds, historyId)
              && (old(store.Consistent()) ==> store.Consistent())
  {
    var result: Fetch<OrderStore.Created> := Threw;
    reply := None;
    if delivered {
      var body := Payload(customerName, customerEmail, app.cart);
      var r := PostOrder(store, body, app.cart, orderId, orderNumber, itemIds, historyId);
      reply := Some(r);
      result := Replied(r);
    }
    var data;
    sent, data := app.CreateOrder(customerName, customerEmail, result);
  }

  /** Submitting the checkout form: validation, then `createOrder`, which
      reaches the create route when `delivered` and fails in `fetch`
      otherwise. Because `createOrder` never throws, every submission that
      passes validation clears both fields and the "Failed to create order"
      message can never appear, even when no order was created. */
  method PlaceOrder(app: Storefront, form: Checkout.CheckoutForm, store: OrderStore.Store, delivered: bool,
                    orderId: string, orderNumber: int, itemIds: seq<string>, historyId: string)
    returns (sent: Option<OrderPayload>, reply: Option<OrderStore.Response<OrderStore.Created>>)
    requires store.Valid()
    requires |itemIds| == |app.cart|
    modifies app, form, store
    ensures store.Valid()
    ensures form.error != Checkout.SubmitFailed
    ensures app.orders == old(app.orders)
    ensures sent.None? <==> Checkout.CheckoutError(old(form.customerName), old(form.customerEmail), |old(app.cart)|).Some?
    // a failed check: its message, and nothing sent
    ensures sent.None? ==>
              && form.error == Checkout.CheckoutError(old(form.customerName), old(form.customerEmail), |old(app.cart)|).value
              && form.customerName == old(form.customerName) && form.customerEmail == old(form.customerEmail)
              && form.isSubmitting == old(form.isSubmitting)
              && reply == None
              && app.cart == old(app.cart) && app.currentPage == old(app.currentPage)
              && store.orders == old(store.orders) && store.items == old(store.items) && store.history == old(store.history)
    // every check passed: the untrimmed fields are sent, then cleared
    ensures sent.Some? ==>
              && sent.value == Payload(old(form.customerName), old(form.customerEmail), old(app.cart))
              && form.customerName == "" && form.customerEmail == "" && form.error == "" && !form.isSubmitting
              && (reply.Some? <==> delivered)
              && (app.cart == [] <==> reply.Some? && reply.value.Ok?)
              && (app.cart == [] ==> app.currentPage == OrdersPage)
              && (app.cart != [] ==> app.cart == old(app.cart) && app.currentPage == old(app.currentPage))
    ensures old(store.ItemsOwned()) ==> store.ItemsOwned()
    ensures Kept(store, old(store.orders), old(store.items), old(store.history))
    ensures !delivered ==> store.orders == old(store.orders) && store.items == old(store.items)
                           && store.history == old(store.history) && store.clock == old(store.clock)
    // with fresh ids the order goes through, the route writes exactly its rows and the cart is emptied
    ensures sent.Some? && delivered && old(FreshIds(store, orderId, orderNumber, itemIds, historyId)) ==>
              && reply == Some(OrderStore.Ok(OrderStore.Created(orderId, orderNumber))) && app.cart == []
              && Posted(store, old(store.orders), old(store.items), old(store.history), old(store.clock),
                        sent.value, old(app.cart), orderId, orderNumber, itemIds, historyId)
              && (old(store.Consistent()) ==> store.Consistent())
  {
    ghost var name0, email0, cart0 := form.customerName, form.customerEmail, app.cart;
    ghost var verdict := Checkout.CheckoutError(name0, email0, |cart0|);
    Checkout.ValidationMessages(name0, email0, |cart0|);
    var proceed := form.Validate(|app.cart|);
    sent, reply := None, None;
    if !proceed {
      assert form.error == verdict.value;
      return;
    }
    assert form.error == "" && |cart0| > 0;
    var posted;
    posted, reply := SendCart(app, store, form.customerName, form.customerEmail, delivered,
                              orderId, orderNumber, itemIds, historyId);
    sent := Some(posted);
    form.Settle(false);
  }

  /** Choosing a new status in the order view: the view forwards the order's
      notes and empties them, and the status route runs when `delivered`. A
      successful reply starts `fetchOrders()`, which reaches the list route
      when `refreshed` and otherwise fails and leaves the list as it was. */
  method ChangeStatus(app: Storefront, panel: OrderPanel.Panel, store: OrderStore.Store, delivered: bool,
                      refreshed: bool, orderId: string, newStatus: string, historyId: string)
    returns (reply: Option<OrderStore.Response<()>>)
    requires store.Valid()
    modifies app, panel, store
    ensures store.Valid()
    ensures panel.statusNotes == old(panel.statusNotes)[orderId := ""]
    ensures panel.expandedOrderId == old(panel.expandedOrderId)
    ensures app.cart == old(app.cart) && app.currentPage == old(app.currentPage)
    ensures store.items == old(store.items)
    ensures old(store.ItemsOwned()) ==> store.ItemsOwned()
    ensures !delivered ==>
              reply == None && store.orders == old(store.orders) && store.history == old(store.history)
              && store.clock == old(store.clock) && app.orders == old(app.orders)
    ensures delivered ==>
              && reply == Some(if historyId !in OrderStore.HistoryIds(old(store.history)) then OrderStore.Ok(())
                               else OrderStore.ServerError(OrderStore.UpdateFailed))
              && store.orders == OrderStore.WithStatus(old(store.orders), orderId, Some(newStatus), old(store.clock))
    // the notes typed for the order end up in its newest history row, and the list shows the new state
    ensures reply.Some? && reply.value.Ok? ==>
              && store.history == old(store.history) +
                   [OrderStore.HistoryRow(historyId, orderId, newStatus, old(store.clock) + 1,
                                          Some(OrderPanel.NotesFor(old(panel.statusNotes), orderId)))]
              && app.orders == (if refreshed then Reverse(store.orders) else old(app.orders))
              && (old(store.Consistent()) ==> store.Consistent())
    ensures reply.Some? && !reply.value.Ok? ==> store.history == old(store.history) && app.orders == old(app.orders)
  {
    var request := panel.HandleStatusChange(orderId, newStatus);
    reply := None;
    if !delivered {
      return;
    }
    var r := store.UpdateStatus(request.orderId, Some(request.status), Some(request.notes), historyId);
    reply := Some(r);
    if r.Ok? {
      RefreshOrFail(app, store, refreshed);
    }
  }

  /** The delete button: the delete route runs when `delivered`, and its
      success starts `fetchOrders()`. When that reaches the list route
      (`refreshed`) the list holds no row of that order; when it fails the
      list is left as it was. */
  method RemoveOrder(app: Storefront, store: OrderStore.Store, delivered: bool, refreshed: bool, orderId: string)
    returns (reply: Option<OrderStore.Response<()>>)
    requires store.Valid()
    modifies app, store
    ensures store.Valid()
    ensures app.cart == old(app.cart) && app.currentPage == old(app.currentPage)
    ensures old(store.ItemsOwned()) ==> store.ItemsOwned()
    ensures old(store.Consistent()) ==> store.Consistent()
    ensures !delivered ==>
              && reply == None && app.orders == old(app.orders) && store.orders == old(store.orders)
              && store.items == old(store.items) && store.history == old(store.history) && store.clock == old(store.clock)
    ensures delivered ==>
              && reply == Some(OrderStore.Ok(()))
              && store.orders == OrderStore.OrdersWithout(old(store.orders), orderId)
              && store.items == OrderStore.ItemsNotOf(old(store.items), orderId)
              && store.history == OrderStore.HistoryNotOf(old(store.history), orderId)
              && orderId !in OrderStore.OrderIds(store.orders)
              && app.orders == (if refreshed then Reverse(store.orders) else old(app.orders))
              && (refreshed ==> forall i :: 0 <= i < |app.orders| ==> app.orders[i].id != orderId)
  {
    reply := None;
    if !delivered {
      return;
    }
    var r := store.DeleteOrder(orderId);
    reply := Some(r);
    RefreshOrFail(app, store, refreshed);
    forall i | refreshed && 0 <= i < |app.orders| ensures app.orders[i].id != orderId {
      assert app.orders[i] == store.orders[|store.orders| - 1 - i];
      assert store.orders[|store.orders| - 1 - i].id in OrderStore.OrderIds(store.orders);
    }
  }
}
