/** The storefront's shopping cart: the pure list transformations of the
    app component (`addToCart`, `removeFromCart`, `updateCartQuantity`),
    the cart total, and the order request built from the cart. Prices are
    integer cents. */
module Cart {
  import opened Common

  /** What the catalog hands to `addToCart`. */
  datatype Product = Product(id: string, name: string, price: int, image: string)

  /** A cart line: the product's fields spread, plus a quantity. */
  datatype Line = Line(id: string, name: string, price: int, image: string, quantity: int)

  /** One element of the request's `items`. */
  datatype PayloadItem = PayloadItem(id: string, name: string, quantity: int, price: int)

  /** The JSON body of the create request. */
  datatype OrderPayload = OrderPayload(customerName: string, customerEmail: string,
                                       items: seq<PayloadItem>, totalPrice: int)

  /** `cart.find(item => item.id === id)` finds a line. */
  predicate HasId(cart: seq<Line>, id: string) {
    exists i :: 0 <= i < |cart| && cart[i].id == id
  }

  /** No two lines share a product id. */
  predicate DistinctIds(cart: seq<Line>) {
    forall i, j :: 0 <= i < j < |cart| ==> cart[i].id != cart[j].id
  }

  /** Every line has a quantity of at least one. */
  predicate PositiveQuantities(cart: seq<Line>) {
    forall i :: 0 <= i < |cart| ==> cart[i].quantity >= 1
  }

  function NewLine(p: Product): Line {
    Line(p.id, p.name, p.price, p.image, 1)
  }

  /** `addToCart(product)`: one more of a product already in the cart, or a
      new line with quantity 1 at the end. */
  function AddToCart(cart: seq<Line>, p: Product): seq<Line> {
    if HasId(cart, p.id) then
      Map(cart, (l: Line) => if l.id == p.id then l.(quantity := l.quantity + 1) else l)
    else
      cart + [NewLine(p)]
  }

  /** `removeFromCart(productId)`. */
  function RemoveFromCart(cart: seq<Line>, id: string): seq<Line> {
    Filter(cart, (l: Line) => l.id != id)
  }

  /** `updateCartQuantity(productId, quantity)`. */
  function UpdateCartQuantity(cart: seq<Line>, id: string, quantity: int): seq<Line> {
    if quantity <= 0 then RemoveFromCart(cart, id)
    else Map(cart, (l: Line) => if l.id == id then l.(quantity := quantity) else l)
  }

  function LineTotal(l: Line): int {
    l.price * l.quantity
  }

  /** `cart.reduce((sum, item) => sum + item.price * item.quantity, 0)`, folded from the left. */
  function Total(cart: seq<Line>): int {
    if cart == [] then 0 else Total(cart[..|cart| - 1]) + LineTotal(cart[|cart| - 1])
  }

  /** The number of units in the cart, as opposed to the number of lines. */
  function Units(cart: seq<Line>): int {
    if cart == [] then 0 else Units(cart[..|cart| - 1]) + cart[|cart| - 1].quantity
  }

  /** The cart badge, `Cart ({cart.length})`: the number of lines. */
  function Badge(cart: seq<Line>): nat {
    |cart|
  }

  function PayloadItemOf(l: Line): PayloadItem {
    PayloadItem(l.id, l.name, l.quantity, l.price)
  }

  /** The body `createOrder` sends. */
  function Payload(customerName: string, customerEmail: string, cart: seq<Line>): OrderPayload {
    OrderPayload(customerName, customerEmail, Map(cart, PayloadItemOf), Total(cart))
  }

  /** The sum the server would compute from the items it receives. */
  function ItemsTotal(items: seq<PayloadItem>): int {
    if items == [] then 0 else ItemsTotal(items[..|items| - 1]) + items[|items| - 1].price * items[|items| - 1].quantity
  }

  // ---------------------------------------------------------------- lemmas

  /** A product not in the cart lands at the end with quantity 1; the lines before it are untouched. */
  lemma AddNewProduct(cart: seq<Line>, p: Product)
    requires !HasId(cart, p.id)
    ensures |AddToCart(cart, p)| == |cart| + 1
    ensures AddToCart(cart, p)[..|cart|] == cart
    ensures AddToCart(cart, p)[|cart|] == Line(p.id, p.name, p.price, p.image, 1)
  {
  }

  /** A product already in the cart raises its line's quantity by one; the
      cart keeps its length and every other line. */
  lemma AddExistingProduct(cart: seq<Line>, p: Product)
    requires HasId(cart, p.id)
    ensures |AddToCart(cart, p)| == |cart|
    ensures forall i :: 0 <= i < |cart| && cart[i].id == p.id ==>
              AddToCart(cart, p)[i] == cart[i].(quantity := cart[i].quantity + 1)
    ensures forall i :: 0 <= i < |cart| && cart[i].id != p.id ==> AddToCart(cart, p)[i] == cart[i]
  {
  }

  lemma AddKeepsDistinct(cart: seq<Line>, p: Product)
    requires DistinctIds(cart)
    ensures DistinctIds(AddToCart(cart, p))
  {
    var r := AddToCart(cart, p);
    if !HasId(cart, p.id) {
      forall i, j | 0 <= i < j < |r| ensures r[i].id != r[j].id {
        if j == |cart| {
          assert r[i] == cart[i];
        }
      }
    }
  }

  lemma RemoveKeepsDistinct(cart: seq<Line>, id: string)
    requires DistinctIds(cart)
    ensures DistinctIds(RemoveFromCart(cart, id))
  {
    FilterPairwise(cart, (l: Line) => l.id != id, (a: Line, b: Line) => a.id != b.id);
  }

  lemma UpdateKeepsDistinct(cart: seq<Line>, id: string, quantity: int)
    requires DistinctIds(cart)
    ensures DistinctIds(UpdateCartQuantity(cart, id, quantity))
  {
    if quantity <= 0 {
      RemoveKeepsDistinct(cart, id);
    }
  }

  /** Removing a product present once drops exactly its line and keeps the
      others in their original order. */
  lemma RemoveAt(cart: seq<Line>, k: nat)
    requires DistinctIds(cart) && k < |cart|
    ensures RemoveFromCart(cart, cart[k].id) == cart[..k] + cart[k + 1..]
  {
    var id := cart[k].id;
    var keep := (l: Line) => l.id != id;
    assert cart == cart[..k] + ([cart[k]] + cart[k + 1..]);
    FilterConcat(cart[..k], [cart[k]] + cart[k + 1..], keep);
    FilterConcat([cart[k]], cart[k + 1..], keep);
    FilterKeepsAll(cart[..k], keep);
    FilterKeepsAll(cart[k + 1..], keep);
  }

  /** Removing or updating a product that is not in the cart changes nothing. */
  lemma AbsentIdUnchanged(cart: seq<Line>, id: string, quantity: int)
    requires !HasId(cart, id)
    ensures RemoveFromCart(cart, id) == cart
    ensures UpdateCartQuantity(cart, id, quantity) == cart
  {
    FilterKeepsAll(cart, (l: Line) => l.id != id);
  }

  /** A positive quantity is set on the matching lines only; nothing else moves. */
  lemma UpdatePositive(cart: seq<Line>, id: string, quantity: int)
    requires quantity > 0
    ensures |UpdateCartQuantity(cart, id, quantity)| == |cart|
    ensures forall i :: 0 <= i < |cart| && cart[i].id == id ==>
              UpdateCartQuantity(cart, id, quantity)[i] == cart[i].(quantity := quantity)
    ensures forall i :: 0 <= i < |cart| && cart[i].id != id ==> UpdateCartQuantity(cart, id, quantity)[i] == cart[i]
  {
  }

  /** Starting from lines of positive quantity, the three operations keep every quantity positive. */
  lemma OperationsKeepPositive(cart: seq<Line>, p: Product, id: string, quantity: int)
    requires PositiveQuantities(cart)
    ensures PositiveQuantities(AddToCart(cart, p))
    ensures PositiveQuantities(RemoveFromCart(cart, id))
    ensures PositiveQuantities(UpdateCartQuantity(cart, id, quantity))
  {
    var removed := RemoveFromCart(cart, id);
    forall i | 0 <= i < |removed| ensures removed[i].quantity >= 1 {
      var j :| 0 <= j < |cart| && cart[j] == removed[i];
    }
  }

  lemma {:induction false} TotalConcat(a: seq<Line>, b: seq<Line>)
    ensures Total(a + b) == Total(a) + Total(b)
  {
    if b != [] {
      assert (a + b)[..|a + b| - 1] == a + b[..|b| - 1];
      TotalConcat(a, b[..|b| - 1]);
    } else {
      assert a + b == a;
    }
  }

  lemma {:induction false} UnitsConcat(a: seq<Line>, b: seq<Line>)
    ensures Units(a + b) == Units(a) + Units(b)
  {
    if b != [] {
      assert (a + b)[..|a + b| - 1] == a + b[..|b| - 1];
      UnitsConcat(a, b[..|b| - 1]);
    } else {
      assert a + b == a;
    }
  }

  lemma TotalSplit(a: seq<Line>, x: Line, b: seq<Line>)
    ensures Total(a + [x] + b) == Total(a) + LineTotal(x) + Total(b)
  {
    TotalConcat(a + [x], b);
    assert (a + [x])[..|a + [x]| - 1] == a;
  }

  lemma UnitsSplit(a: seq<Line>, x: Line, b: seq<Line>)
    ensures Units(a + [x] + b) == Units(a) + x.quantity + Units(b)
  {
    UnitsConcat(a + [x], b);
    assert (a + [x])[..|a + [x]| - 1] == a;
  }

  lemma BumpLineTotal(l: Line, delta: int)
    ensures LineTotal(l.(quantity := l.quantity + delta)) == LineTotal(l) + l.price * delta
  {
    var p, q := l.price, l.quantity;
    assert p * (q + delta) == p * q + p * delta;
  }

  /** Changing the quantity of the line at `k` by `delta` changes the total
      by `delta` times its price and the units by `delta`. */
  lemma BumpLine(cart: seq<Line>, k: nat, delta: int)
    requires k < |cart|
    ensures Total(cart[k := cart[k].(quantity := cart[k].quantity + delta)]) == Total(cart) + cart[k].price * delta
    ensures Units(cart[k := cart[k].(quantity := cart[k].quantity + delta)]) == Units(cart) + delta
  {
    var x := cart[k].(quantity := cart[k].quantity + delta);
    var before, after := cart[..k], cart[k + 1..];
    assert cart == before + [cart[k]] + after;
    assert cart[k := x] == before + [x] + after;
    TotalSplit(before, cart[k], after);
    TotalSplit(before, x, after);
    UnitsSplit(before, cart[k], after);
    UnitsSplit(before, x, after);
    BumpLineTotal(cart[k], delta);
  }

  lemma AddExistingTotal(cart: seq<Line>, p: Product, k: nat)
    requires DistinctIds(cart) && k < |cart| && cart[k].id == p.id
    ensures Total(AddToCart(cart, p)) == Total(cart) + cart[k].price
    ensures Units(AddToCart(cart, p)) == Units(cart) + 1
  {
    var r := AddToCart(cart, p);
    var bumped := cart[k := cart[k].(quantity := cart[k].quantity + 1)];
    forall i | 0 <= i < |cart| ensures r[i] == bumped[i] {
      if i != k {
        assert cart[i].id != cart[k].id by {
          if i < k { assert cart[i].id != cart[k].id; } else { assert cart[k].id != cart[i].id; }
        }
      }
    }
    assert r == bumped;
    BumpLine(cart, k, 1);
  }

  /** Adding a product raises the units by one. A new line adds the
      product's price to the total and grows the badge; an existing line adds
      its own recorded price and leaves the badge alone. */
  lemma AddToCartTotals(cart: seq<Line>, p: Product)
    requires DistinctIds(cart)
    ensures Units(AddToCart(cart, p)) == Units(cart) + 1
    ensures !HasId(cart, p.id) ==> Total(AddToCart(cart, p)) == Total(cart) + p.price
    ensures forall k :: 0 <= k < |cart| && cart[k].id == p.id ==> Total(AddToCart(cart, p)) == Total(cart) + cart[k].price
    ensures Badge(AddToCart(cart, p)) == Badge(cart) + (if HasId(cart, p.id) then 0 else 1)
  {
    var r := AddToCart(cart, p);
    if HasId(cart, p.id) {
      forall k | 0 <= k < |cart| && cart[k].id == p.id ensures Total(r) == Total(cart) + cart[k].price {
        AddExistingTotal(cart, p, k);
      }
      var k :| 0 <= k < |cart| && cart[k].id == p.id;
      AddExistingTotal(cart, p, k);
    } else {
      assert r[..|r| - 1] == cart;
    }
  }

  /** Dropping the line at `k` lowers the total by that line's amount. */
  lemma TotalWithout(cart: seq<Line>, k: nat)
    requires k < |cart|
    ensures Total(cart[..k] + cart[k + 1..]) == Total(cart) - LineTotal(cart[k])
  {
    var before, x, after := cart[..k], cart[k], cart[k + 1..];
    assert cart == before + [x] + after;
    TotalSplit(before, x, after);
    TotalConcat(before, after);
  }

  /** Removing a line takes its line total off the cart total. */
  lemma RemoveAtTotal(cart: seq<Line>, k: nat)
    requires DistinctIds(cart) && k < |cart|
    ensures Total(RemoveFromCart(cart, cart[k].id)) == Total(cart) - LineTotal(cart[k])
  {
    RemoveAt(cart, k);
    TotalWithout(cart, k);
  }

  /** The request has one item per cart line, in cart order, with id, name,
      quantity and price copied; its total is the sum over its own items,
      which is 0 for an empty cart. */
  lemma {:induction false} PayloadMatchesCart(customerName: string, customerEmail: string, cart: seq<Line>)
    ensures var b := Payload(customerName, customerEmail, cart);
      && b.customerName == customerName && b.customerEmail == customerEmail
      && |b.items| == |cart|
      && (forall i :: 0 <= i < |cart| ==> b.items[i] == PayloadItem(cart[i].id, cart[i].name, cart[i].quantity, cart[i].price))
      && b.totalPrice == ItemsTotal(b.items)
      && (cart == [] ==> b.totalPrice == 0)
  {
    if cart != [] {
      var init := cart[..|cart| - 1];
      PayloadMatchesCart(customerName, customerEmail, init);
      assert Map(cart, PayloadItemOf)[..|cart| - 1] == Map(init, PayloadItemOf);
    }
  }
}
