# Order management storefront: a Dafny model

This project models the order-handling core of a small shop. The shop has
two halves:

- A Node/Express backend that keeps orders in three SQLite tables.
- A React storefront with three views: a product catalog, a shopping cart
  with a checkout form, and an order-management list.

The model has eight modules.

- **`OrderStore`** (`order_store.dfy`) holds the tables `orders`,
  `order_items` and `order_status_history` as fields of the class `Store`.
  - The five order routes are methods of `Store`, and so is each SQL
    statement they await.
  - A statement fails exactly when SQLite would refuse its row: a repeated
    PRIMARY KEY, a repeated UNIQUE `order_number`, or a NULL in a NOT NULL
    column.
  - A route that fails midway keeps what it already wrote, because nothing
    is rolled back. The status update checks neither that the order exists
    nor that the status is a known one.
  - `Store.Valid` is the class invariant. It says keys are unique and
    timestamps increase along each table. Two more predicates hold between
    the routes. `ItemsOwned` says every item row has an order; the declared
    foreign key is not enforced. Every route preserves it. `Consistent` says
    an order's status is its newest history entry's status. A successful
    route preserves it, and so does every delete. A failed create or status
    change can break it, because nothing is rolled back.
    `OrderStore.CreateWithoutItemsBreaksConsistency` and
    `OrderStore.UpdateWithoutStatusBreaksConsistency` show one case each.
  - Row ids (uuid) and `order_number` (`Date.now()`) are parameters.
    `CURRENT_TIMESTAMP` is the store's own clock, which increases strictly.
- **`Cart`** (`cart.dfy`) holds the cart helpers of the top-level component
  as functions over `seq<Line>`:
  - add, remove and update quantity;
  - the total, the unit count and the cart badge;
  - the JSON body of the create request.
- **`Checkout`** (`checkout.dfy`) covers the checkout form.
  - The ordered validation chain is the function `CheckoutError`.
  - The email regex `^[^\s@]+@[^\s@]+\.[^\s@]+$` is a string predicate. A
    lemma proves it equivalent to a plain description of the format.
  - The form's four state cells are the class `CheckoutForm`.
  - The number input and the −/+ buttons of each cart line are modelled as
    quantity normalisation.
- **`Catalog`** (`catalog.dfy`) covers the product catalog:
  - the case-insensitive search filter;
  - the tag stripping and 100-character cut of the description;
  - the price and image fallbacks;
  - the product handed to the cart.
- **`OrderPanel`** (`order_panel.dfy`) covers the order-management view:
  - the expand/collapse toggle and the per-order notes map, as the class
    `Panel`;
  - the status option labels;
  - the conditions under which the empty-list message, the items table and
    the history appear.
- **`App`** (`app.dfy`) covers the top-level component:
  - its state cells `currentPage`, `cart` and `orders`, as the class
    `Storefront`;
  - the three flows end to end, each with a `Store` behind the `fetch`:
    checkout (`PlaceOrder`), status change (`ChangeStatus`) and delete
    (`RemoveOrder`).
- **`Text`** (`text.dfy`) holds the JavaScript string operations the views
  use, over ASCII: `\s`, `trim`, `toLowerCase`, `includes`, `startsWith`,
  `parseInt`, and a price's decimal text.
- **`Common`** (`common.dfy`) holds `Option` and generic `Filter`, `Map`
  and `Reverse`, with their lemmas.

Prices are integer cents. `parseFloat` of a price text becomes a decimal
reader into cents, `Text.ParseCents`, and `toFixed(2)` becomes
`Text.FormatCents`. The two are proved to round-trip.

A `fetch` either throws or delivers the route's reply. Which one happens is
a parameter, `delivered`, of the flows in `App`.

`createOrder` in the top-level component catches every error and never
rethrows. So in `App.PlaceOrder` every submission that passes validation
clears both form fields. The form's "Failed to create order" message can
never appear, even when no order was created. The contract of
`App.PlaceOrder` states both facts.

## Model

| member | source | states |
|---|---|---|
| OrderStore.FindOrder | backend/server.js:94-95 | no order is found exactly when no row has the id; a found row is in the table and has that id |
| OrderStore.ItemsOf | backend/server.js:97 | a row is selected exactly when it is in the table and carries the order's id |
| OrderStore.HistoryOf | backend/server.js:98 | an entry is selected exactly when it is in the table and carries the order's id |
| OrderStore.ItemsNotOf | backend/server.js:129 | a row is kept exactly when it does not belong to the deleted order |
| OrderStore.HistoryNotOf | backend/server.js:130 | an entry is kept exactly when it does not belong to the deleted order |
| OrderStore.OrdersWithout | backend/server.js:131 | an order row is kept exactly when its id differs from the deleted one |
| OrderStore.WithStatus | backend/server.js:113 | same length and ids; rows with the id change only in status and updated_at; all other rows are unchanged |
| OrderStore.FirstRejected | backend/server.js:56-63 | every item before the result is insertable (NOT NULL fields present, id new); the item at the result, if any, is not |
| OrderStore.ItemRowOf | backend/server.js:58-62 | the item row carries the new id and order id, with name, product id, quantity and price copied from the request item |
| OrderStore.AllItemsAccepted | backend/db.js:27-32 | complete items with new, pairwise distinct ids are all inserted |
| OrderStore.NewItemRows | backend/server.js:56-63 | the rows written for the first n items, one per item, in order |
| OrderStore.HistoryOfAppend | backend/server.js:114-117 | appending an entry extends only its own order's history, at the newest end |
| OrderStore.HistoryOfAfterDelete | backend/server.js:130 | after a delete, the deleted order has no history and every other order's history is as before |
| OrderStore.ItemsOfAfterDelete | backend/server.js:129 | after a delete, no item of the deleted order is left |
| OrderStore.OrdersAppend | backend/db.js:12-13 | a new row with a new id, a new order number and the current time keeps the orders table ordered |
| OrderStore.ItemsAppend | backend/db.js:27 | a new row with a new id keeps item ids unique |
| OrderStore.HistoryAppend | backend/db.js:40-43 | a new entry with a new id and the current time keeps history ids unique and timestamps increasing |
| OrderStore.OrderIdsWithout | backend/server.js:131 | the ids left after a delete are the old ids minus the deleted one |
| OrderStore.Store.Valid | backend/db.js:10-47 | definition: the PRIMARY KEY and UNIQUE columns of the three tables, and the DEFAULT CURRENT_TIMESTAMP columns increasing; kept by every statement method of Store |
| OrderStore.Store.ItemsOwned | backend/db.js:33 | definition: the declared FOREIGN KEY of order_items, which SQLite does not enforce here; kept by every route (CreateOrder, UpdateStatus, DeleteOrder) |
| OrderStore.Store.Consistent | backend/server.js:65-70 | definition: each order's status is its newest history entry's; kept by successful routes and every delete (ConsistentAfterCreate, ConsistentAfterUpdate, ConsistentAfterDelete), broken by failed ones (CreateWithoutItemsBreaksConsistency, UpdateWithoutStatusBreaksConsistency) |
| OrderStore.Store.constructor | backend/db.js:10-47 | three empty tables satisfying every invariant |
| OrderStore.Store.InsertOrder | backend/server.js:49-53 | succeeds exactly when name, email and total are present and the id and order number are new; then appends the row with status 'pending', currency 'USD' and the current time; otherwise nothing changes |
| OrderStore.Store.InsertItem | backend/server.js:58-62 | succeeds exactly when the NOT NULL fields are present and the id is new; then appends the copied row; otherwise nothing changes |
| OrderStore.Store.InsertHistory | backend/server.js:67-71 | succeeds exactly when a status is given and the id is new; then appends the entry stamped with the current time |
| OrderStore.Store.UpdateStatusRow | backend/server.js:113 | sets status and updated_at on the rows with the id; cannot fail |
| OrderStore.Store.DeleteRows | backend/server.js:129-131 | removes the order's items, then its history, then its row |
| OrderStore.Store.InsertItems | backend/server.js:56-63 | inserts items in order up to the first refused one and returns its index; the table grows by exactly those rows |
| OrderStore.Store.CreateOrder | backend/server.js:43-78 | a refused order row writes nothing (e.g. a repeated order number); otherwise the row is written with its defaults, then items up to the first refused one, and the 'pending'/'Order created' entry only when all items went in; no rollback; the reply is 201 only on full success, else 500; keeps Valid and ItemsOwned always, and Consistent after a success |
| OrderStore.Store.ListOrders | backend/server.js:81-89 | every order row, newest first (created_at strictly decreasing) |
| OrderStore.Store.GetOrder | backend/server.js:92-105 | 404 exactly when no row has the id; otherwise the row, exactly its item rows in table order and none twice, and exactly its history newest first |
| OrderStore.Store.UpdateStatus | backend/server.js:108-124 | the order rows get the status with no check of the value or the id; an unknown id changes no row; one history entry with notes defaulting to '' is appended and earlier entries kept; success exactly when a status is given and the history id is new; after a success the status still agrees with the newest entry |
| OrderStore.Store.DeleteOrder | backend/server.js:127-137 | always succeeds; removes every item and history row of the order and then the order; an id nothing carries changes nothing; keeps every invariant |
| OrderStore.WithStatusKeeps | backend/server.js:113 | the update keeps the set of order ids, and an unknown id changes nothing |
| OrderStore.OwnedAfterInsertOrder | backend/db.js:33 | a new order row keeps every existing item owned by an order |
| OrderStore.OwnedAfterItems | backend/server.js:56-63 | item rows written for the new order are owned by it |
| OrderStore.ConsistentAfterCreate | backend/server.js:66-71 | the new order's 'pending' status agrees with its creation entry, and no other order's status changes |
| OrderStore.ConsistentAfterUpdate | backend/server.js:113-117 | the status written to the order agrees with the appended newest entry, whether or not a row matched |
| OrderStore.OwnedAfterDelete | backend/server.js:129-131 | after the cascade every remaining item still has its order |
| OrderStore.ConsistentAfterDelete | backend/server.js:129-131 | after the cascade every remaining order's status agrees with its history |
| OrderStore.DeleteOfAbsent | backend/server.js:129-132 | deleting an id no row carries leaves all three tables unchanged |
| OrderStore.DeleteThenGet | backend/server.js:129-132 | a lookup after a delete of the same id is a 404 |
| OrderStore.CreateWithoutItemsBreaksConsistency | backend/server.js:43-78 | a create without an items array fails with a 500 after its order row is written, leaving a 'pending' order with no history, so Consistent no longer holds |
| OrderStore.UpdateWithoutStatusBreaksConsistency | backend/server.js:108-124 | a status change without a status stores NULL in the row and then fails with a 500, so Consistent no longer holds |
| Text.Trim | storefront/src/components/ShoppingCart.jsx:21 | definition of `trim()`; properties in TrimStart, TrimEnd, TrimEmptyIffBlank |
| Text.TrimStart | storefront/src/components/ShoppingCart.jsx:21 | a suffix of the input with only white space removed before it, and no white space at its start |
| Text.TrimStartOfNonSpace | storefront/src/components/ShoppingCart.jsx:21 | text that does not start with white space loses nothing at its start |
| Text.TrimEnd | storefront/src/components/ShoppingCart.jsx:21 | a prefix of the input with only white space removed after it, and no white space at its end |
| Text.TrimEmptyIffBlank | storefront/src/components/ShoppingCart.jsx:21 | the trimmed text is empty exactly when the text is all white space |
| Text.LowerChar | storefront/src/components/ProductCatalog.jsx:31 | upper-case letters move to lower case; other characters stay; the result is never upper case |
| Text.UpperChar | storefront/src/components/OrderManagement.jsx:107 | lower-case letters move to upper case; other characters stay; the result is never lower case |
| Text.ToLower | storefront/src/components/ProductCatalog.jsx:31 | same length, each character lower-cased |
| Text.ToLowerIdempotent | storefront/src/components/ProductCatalog.jsx:31 | lower-casing twice is lower-casing once |
| Text.ContainsEmpty | storefront/src/components/ProductCatalog.jsx:31 | every string includes the empty string |
| Text.Contains | storefront/src/components/ProductCatalog.jsx:31 | definition of `includes`; properties in ContainsEmpty, Catalog.EmptyTermKeepsAll |
| Text.LeadingDigits | storefront/src/components/ShoppingCart.jsx:87 | the longest all-digit prefix |
| Text.LeadingDigitsOf | storefront/src/components/ShoppingCart.jsx:87 | a digit run followed by a non-digit is read whole |
| Text.DecimalValue | storefront/src/components/ShoppingCart.jsx:87 | the decimal text of n denotes n |
| Text.ParseInt | storefront/src/components/ShoppingCart.jsx:87 | definition of base-ten `parseInt`; properties in ParseIntDigits, ParseIntNegated, ParseIntWithoutDigits, ParseIntDecimal |
| Text.UnsignedInt | storefront/src/components/ShoppingCart.jsx:87 | an unsigned reading is never negative |
| Text.UnsignedIntOfDigits | storefront/src/components/ShoppingCart.jsx:87 | a non-empty digit string is read whole, as its value |
| Text.ParseIntDigits | storefront/src/components/ShoppingCart.jsx:87 | parseInt reads a digit string as its value |
| Text.ParseIntNegated | storefront/src/components/ShoppingCart.jsx:87 | parseInt reads a minus sign followed by a digit string as the negated value |
| Text.ParseIntWithoutDigits | storefront/src/components/ShoppingCart.jsx:87 | text with no digit, the empty text included, is not a number |
| Text.ParseIntDecimal | storefront/src/components/ShoppingCart.jsx:87 | parseInt reads back the decimal text of every integer |
| Text.FractionCents | storefront/src/components/ProductCatalog.jsx:102 | the fraction digits give fewer than 100 cents |
| Text.FormatCents | storefront/src/components/ProductCatalog.jsx:96 | the text is a non-empty run of digits, then '.', then two digits |
| Text.ParseCents | storefront/src/components/ProductCatalog.jsx:102 | definition of `parseFloat` on a price, in cents; properties in ParseCentsOfDigitStart, ParseCentsOfParts, ParseCentsFormat |
| Text.FractionDigits | storefront/src/components/ProductCatalog.jsx:102 | the fraction part read after a '.' is all digits |
| Text.ParseCentsOfDigitStart | storefront/src/components/ProductCatalog.jsx:102 | a text starting with a digit is read without a sign |
| Text.UnsignedCentsOf | storefront/src/components/ProductCatalog.jsx:102 | the whole part is the full digit run, and the fraction is read from what follows it |
| Text.ParseCentsOfParts | storefront/src/components/ProductCatalog.jsx:102 | digits, a '.' and two digits are read as whole × 100 plus the two fraction digits |
| Text.ParseCentsFormat | storefront/src/components/ProductCatalog.jsx:102 | reading back a price printed with two decimals gives the same cents |
| Cart.AddToCart | storefront/src/App.jsx:16-27 | definition; properties in AddNewProduct, AddExistingProduct, AddKeepsDistinct, OperationsKeepPositive, AddExistingTotal, AddToCartTotals |
| Cart.RemoveFromCart | storefront/src/App.jsx:30-32 | definition; properties in RemoveAt, RemoveKeepsDistinct, AbsentIdUnchanged, RemoveAtTotal |
| Cart.UpdateCartQuantity | storefront/src/App.jsx:35-43 | definition; properties in UpdateKeepsDistinct, UpdatePositive, AbsentIdUnchanged, OperationsKeepPositive, Checkout.QuantityButtons |
| Cart.Total | storefront/src/components/ShoppingCart.jsx:15 | definition of the `reduce` total; properties in TotalConcat, TotalSplit, BumpLine, AddToCartTotals, TotalWithout, RemoveAtTotal |
| Cart.Badge | storefront/src/App.jsx:141 | definition of the `Cart (n)` count, the number of lines; properties in AddToCartTotals |
| Cart.Payload | storefront/src/App.jsx:48-61 | definition of the create request's body; properties in PayloadMatchesCart, App.SentItemsAreComplete |
| Cart.AddNewProduct | storefront/src/App.jsx:24-26 | a product not in the cart is appended with quantity 1, after the unchanged lines |
| Cart.AddExistingProduct | storefront/src/App.jsx:17-23 | a product in the cart raises its line's quantity by 1; the length and every other line are unchanged |
| Cart.AddKeepsDistinct | storefront/src/App.jsx:16-27 | adding keeps product ids distinct |
| Cart.RemoveKeepsDistinct | storefront/src/App.jsx:30-32 | removing keeps product ids distinct |
| Cart.UpdateKeepsDistinct | storefront/src/App.jsx:35-43 | updating a quantity keeps product ids distinct |
| Cart.RemoveAt | storefront/src/App.jsx:30-32 | removing a product drops exactly its line and keeps the rest in order |
| Cart.AbsentIdUnchanged | storefront/src/App.jsx:35-43 | removing or updating an id not in the cart leaves it unchanged |
| Cart.UpdatePositive | storefront/src/App.jsx:38-42 | a positive quantity is set on the matching line only |
| Cart.OperationsKeepPositive | storefront/src/App.jsx:16-43 | from positive quantities, add, remove and update keep every quantity positive |
| Cart.TotalConcat | storefront/src/components/ShoppingCart.jsx:15 | the total of two carts joined is the sum of their totals |
| Cart.UnitsConcat | storefront/src/App.jsx:16-27 | the unit count of two carts joined is the sum of their counts; the source keeps no unit count (its badge at App.jsx:141 counts lines), and `Cart.Units` exists only to state what adding a product does in AddToCartTotals |
| Cart.BumpLine | storefront/src/components/ShoppingCart.jsx:15 | changing one line's quantity by d changes the total by d times its price and the units by d |
| Cart.AddExistingTotal | storefront/src/App.jsx:17-23 | adding a product already at line k raises the total by that line's price and the units by 1 |
| Cart.AddToCartTotals | storefront/src/App.jsx:16-27 | adding raises the units by 1 and the total by the price; the badge (lines, not units) grows only for a new product |
| Cart.TotalWithout | storefront/src/components/ShoppingCart.jsx:15 | dropping one line lowers the total by that line's price times quantity |
| Cart.RemoveAtTotal | storefront/src/App.jsx:30-32 | removing a line lowers the total by that line's price times quantity |
| Cart.PayloadMatchesCart | storefront/src/App.jsx:48-61 | the body has the names, one item per line in cart order with id, name, quantity and price copied, and a total equal to the sum over its items, 0 for an empty cart |
| Checkout.EmailRegex | storefront/src/components/ShoppingCart.jsx:31 | definition of the regex test; properties in RegexToShape, ShapeToRegex, EmailRegexIffShape |
| Checkout.CheckoutError | storefront/src/components/ShoppingCart.jsx:21-39 | definition of the validation chain; properties in CheckoutErrorCases, ValidationMessages, CheckoutForm.Validate |
| Checkout.RegexToShape | storefront/src/components/ShoppingCart.jsx:31 | text the regex accepts has the described email shape |
| Checkout.ShapeToRegex | storefront/src/components/ShoppingCart.jsx:31 | text of the described email shape is accepted by the regex |
| Checkout.EmailRegexIffShape | storefront/src/components/ShoppingCart.jsx:31 | the regex accepts exactly: no white space, exactly one '@' with text before it, and after it a '.' that is neither first nor last |
| Checkout.CheckoutErrorCases | storefront/src/components/ShoppingCart.jsx:21-39 | each message exactly when its check fails and every earlier one passes (blank name, then blank email, then email format, then empty cart); no message exactly when all pass |
| Checkout.ValidationMessages | storefront/src/components/ShoppingCart.jsx:21-47 | validation sets only one of its four messages, never the submission-failure one, and passes nothing for an empty cart |
| Checkout.CheckoutForm.constructor | storefront/src/components/ShoppingCart.jsx:10-13 | empty fields and error, not submitting |
| Checkout.CheckoutForm.EditName | storefront/src/components/ShoppingCart.jsx:120 | the name becomes the typed text; nothing else changes |
| Checkout.CheckoutForm.EditEmail | storefront/src/components/ShoppingCart.jsx:132 | the email becomes the typed text; nothing else changes |
| Checkout.CheckoutForm.Validate | storefront/src/components/ShoppingCart.jsx:19-41 | proceeds exactly when no check fails; the error is the failing check's message, or '' when none fails; submitting is set only when proceeding; the fields are untouched |
| Checkout.CheckoutForm.Settle | storefront/src/components/ShoppingCart.jsx:43-49 | submitting is off afterwards; a returned call clears both fields; a thrown one keeps them and sets the failure message |
| Checkout.InputQuantity | storefront/src/components/ShoppingCart.jsx:87 | definition of `parseInt`, falling back to 1 for NaN and 0; properties in InputQuantityCases, InputQuantityWithoutDigits, InputQuantityNonZero |
| Checkout.InputQuantityCases | storefront/src/components/ShoppingCart.jsx:87 | a typed number passes through unless it is 0, which becomes 1; a negative number passes through and removes the line |
| Checkout.InputQuantityWithoutDigits | storefront/src/components/ShoppingCart.jsx:87 | text with no digit, the empty text included, becomes 1 |
| Checkout.InputQuantityNonZero | storefront/src/components/ShoppingCart.jsx:87 | the input never hands on 0 |
| Checkout.QuantityButtons | storefront/src/components/ShoppingCart.jsx:79-92 | '−' on quantity 1 removes exactly that line; '+' does what adding the same product does |
| Catalog.Matches | storefront/src/components/ProductCatalog.jsx:31-32 | definition of the filter callback; properties in FilteredProducts, EmptyTermKeepsAll, SearchIgnoresCase, MissingBodySearchesTitle |
| Catalog.FilteredProducts | storefront/src/components/ProductCatalog.jsx:30-33 | no longer than the input; holds exactly the matching products |
| Catalog.FilteredConcat | storefront/src/components/ProductCatalog.jsx:30-33 | filtering keeps the input's order |
| Catalog.EmptyTermKeepsAll | storefront/src/components/ProductCatalog.jsx:30-33 | an empty term keeps every product, so the list is empty only when nothing was fetched |
| Catalog.SearchIgnoresCase | storefront/src/components/ProductCatalog.jsx:30-33 | terms equal up to letter case select the same products |
| Catalog.MissingBodySearchesTitle | storefront/src/components/ProductCatalog.jsx:32 | without a non-empty description only the title is searched |
| Catalog.CloseAt | storefront/src/components/ProductCatalog.jsx:93 | the first '>' at or after a position, or the end |
| Catalog.StripTags | storefront/src/components/ProductCatalog.jsx:93 | stripping never lengthens the text |
| Catalog.NoCloseUnchanged | storefront/src/components/ProductCatalog.jsx:93 | text with no '>' is unchanged |
| Catalog.StripLeavesNoTag | storefront/src/components/ProductCatalog.jsx:93 | after stripping no '<' is followed anywhere later by '>' |
| Catalog.NoTagUnchanged | storefront/src/components/ProductCatalog.jsx:93 | text without a tag is unchanged |
| Catalog.StripTagsIdempotent | storefront/src/components/ProductCatalog.jsx:93 | stripping is idempotent, and text with no '<' is unchanged |
| Catalog.Take | storefront/src/components/ProductCatalog.jsx:93 | the prefix of length min(length, n) |
| Catalog.Description | storefront/src/components/ProductCatalog.jsx:93 | definition of the card's description; properties in DescriptionShape |
| Catalog.DescriptionShape | storefront/src/components/ProductCatalog.jsx:93 | 'No description' without a description; otherwise at most the first 100 characters of the stripped text, whole when it is that short, with no tag |
| Catalog.PriceText | storefront/src/components/ProductCatalog.jsx:79 | definition of the price fallback; properties in DefaultPriceIsZero, CartProductFields |
| Catalog.ImageOf | storefront/src/components/ProductCatalog.jsx:80 | definition of the image fallback; properties in CartProductFields |
| Catalog.ShowsImg | storefront/src/components/ProductCatalog.jsx:85 | definition of the `startsWith('http')` test; properties in CartProductFields |
| Catalog.CartProductOf | storefront/src/components/ProductCatalog.jsx:99-104 | definition of the object handed to `onAddToCart`; properties in CartProductFields |
| Catalog.DefaultPriceIsZero | storefront/src/components/ProductCatalog.jsx:79 | the '0.00' fallback reads as 0 cents |
| Catalog.CartProductFields | storefront/src/components/ProductCatalog.jsx:99-104 | id and title are handed on; a price printed with two decimals is read exactly; no variants means price 0; no image means the placeholder, never an img; an image is an img exactly when its src starts with 'http' |
| OrderPanel.Label | storefront/src/components/OrderManagement.jsx:107 | same length; the first character upper-cased and the rest unchanged |
| OrderPanel.StatusLabels | storefront/src/components/OrderManagement.jsx:105-109 | the five options, in order, read Pending, Processing, Shipped, Delivered, Cancelled |
| OrderPanel.Toggled | storefront/src/components/OrderManagement.jsx:24 | definition of the new `expandedOrderId`; properties in ToggleTwice, AtMostOneExpanded, Panel.ToggleOrderDetails |
| OrderPanel.ToggleTwice | storefront/src/components/OrderManagement.jsx:23-25 | a click collapses the open order and expands any other; two clicks restore a collapsed view or that order's expansion |
| OrderPanel.NotesFor | storefront/src/components/OrderManagement.jsx:18 | definition of the order's stored notes, falling back to ''; properties in NotesReset, Panel.HandleStatusChange |
| OrderPanel.NotesReset | storefront/src/components/OrderManagement.jsx:20 | after the reset that order's notes read '' and every other order's notes are unchanged |
| OrderPanel.AtMostOneExpanded | storefront/src/components/OrderManagement.jsx:67 | among orders with distinct ids at most one shows its details |
| OrderPanel.FromListed | backend/server.js:83-84 | listed orders carry their rows, in order, with neither items nor history |
| OrderPanel.ShowsItemsTable | storefront/src/components/OrderManagement.jsx:71 | definition of the items-table condition; properties in ListedOrdersShowNoDetails |
| OrderPanel.ShowsHistory | storefront/src/components/OrderManagement.jsx:121 | definition of the history condition; properties in ListedOrdersShowNoDetails |
| OrderPanel.ListTitle | storefront/src/components/OrderManagement.jsx:27-35 | definition of the 'No Orders Yet' heading for an empty list; properties in ListedOrdersShowNoDetails |
| OrderPanel.ItemsNote | storefront/src/components/OrderManagement.jsx:71-93 | definition of the 'No items in this order' text; properties in ListedOrdersShowNoDetails |
| OrderPanel.ListedOrdersShowNoDetails | storefront/src/components/OrderManagement.jsx:27-121 | an order from the list route never shows an items table or a history and reads 'No items in this order'; 'No Orders Yet' shows exactly when the list route returned no row; a detail reply with items and history shows both, and one with an empty items list reads 'No items in this order' |
| OrderPanel.Panel.constructor | storefront/src/components/OrderManagement.jsx:14-15 | nothing expanded, no notes |
| OrderPanel.Panel.ToggleOrderDetails | storefront/src/components/OrderManagement.jsx:23-25 | the expanded id becomes the toggled value; the notes are unchanged |
| OrderPanel.Panel.EditNotes | storefront/src/components/OrderManagement.jsx:116 | that order's notes become the typed text; the rest is unchanged |
| OrderPanel.Panel.HandleStatusChange | storefront/src/components/OrderManagement.jsx:17-21 | forwards the order id, the new status and the stored notes (or ''); then that order's notes are '' and the others unchanged |
| App.SentItemsAreComplete | storefront/src/App.jsx:55-60 | every item sent passes the NOT NULL checks, and its row copies the cart line's name, id, quantity and price |
| App.Storefront.constructor | storefront/src/App.jsx:9-11 | the shop page, an empty cart, no orders |
| App.Storefront.Navigate | storefront/src/App.jsx:131-154 | only the page changes |
| App.Storefront.AddToCart | storefront/src/App.jsx:16-27 | the cart becomes the added cart; nothing else changes |
| App.Storefront.RemoveFromCart | storefront/src/App.jsx:30-32 | the cart becomes the filtered cart; nothing else changes |
| App.Storefront.UpdateCartQuantity | storefront/src/App.jsx:35-43 | the cart becomes the updated cart (removal when the quantity is not positive); nothing else changes |
| App.Storefront.FetchOrders | storefront/src/App.jsx:78-88 | the list replaces orders only on a successful reply; a failure changes nothing |
| App.Storefront.CreateOrder | storefront/src/App.jsx:46-75 | sends the body built from the cart; empties the cart and shows the orders page exactly on a successful reply; otherwise the state is unchanged and nothing is returned or thrown |
| App.Refresh | storefront/src/App.jsx:78-88 | the list becomes every stored order, newest first |
| App.RefreshOrFail | storefront/src/App.jsx:78-88 | the unawaited `fetchOrders()`: the list becomes every stored order, newest first, when the list route is reached, and stays as it was when the fetch fails |
| App.PostOrder | storefront/src/App.jsx:49-63 | the storefront's body always passes the NOT NULL checks, because the model's total is a number and never NaN; earlier rows of every table are kept; with fresh ids the reply is 201 and the tables gain exactly the order row with the cart total, one item row per cart line and the 'pending'/'Order created' entry, keeping ItemsOwned and Consistent |
| App.SendCart | storefront/src/App.jsx:46-75 | a reply only when the route was reached, and otherwise the store is unchanged; earlier rows are kept; the cart is emptied and the page set to 'orders' exactly on success; with fresh ids it succeeds and the tables gain exactly the rows the create route writes for the cart |
| App.PlaceOrder | storefront/src/components/ShoppingCart.jsx:17-51 | nothing is sent exactly when a check fails, and then its message is shown and nothing changes; otherwise the untrimmed fields are sent and always cleared, submitting ends, and the failure message never appears; the cart empties exactly on a successful reply; earlier rows are kept; with fresh ids the tables gain exactly the rows the create route writes for the sent body |
| App.ChangeStatus | storefront/src/App.jsx:91-105 | the order's notes are forwarded and reset; item rows are never touched, and nothing in the store changes when the route is not reached; when reached, the orders get the status; on success the newest history row records the status and notes, Consistent is kept, and the list shows the stored orders newest first when the refresh reaches the list route and stays as it was otherwise; on failure the history and list are unchanged |
| App.RemoveOrder | storefront/src/App.jsx:108-120 | nothing in the store changes when the route is not reached; when reached the delete always succeeds, the three tables become the cascade-filtered tables, ItemsOwned and Consistent are kept, and the store no longer holds the order; the list then shows the stored orders newest first, holding no row of that order, when the refresh reaches the list route, and stays as it was otherwise |

## Left out

- Generic SQLite failures are not modelled: a full disk, a locked database, an I/O error or a failed connection. Statements fail only on the constraints the schema declares.
- The `dbRun`, `dbGet` and `dbAll` wrappers, the health route, the Express/CORS/listen setup and `res.status(...).json(...)` framing are not modelled. Replies are the `Response` datatype.
- The Shopify proxy routes of `backend/server.js`, `backend/shopify-rest.js` and `storefront/src/components/ShopifyOrders.jsx` are network relays. They are not part of this model.
- `uuid` and `Date.now()` are parameters; freshness of the ids is a hypothesis where a contract needs it. `CURRENT_TIMESTAMP` is an abstract clock that increases strictly, so SQLite's one-second resolution and its ordering of equal timestamps are not modelled.
- REAL prices and floating point are integer cents. `parseFloat` reads at most two fraction digits, truncating the rest, and `toFixed(2)` is modelled only on whole cents.
- Text.ParseCents: a price text with no digit is NaN in the source, but the model reads it as 0 cents. In the source, `JSON.stringify` sends a NaN total as `null`, so the `total_price` NOT NULL check refuses the order with a 500 and nothing is written. The model instead creates an order with total 0. Exponents and `Infinity` are not modelled either.
- Text.ParseInt: the `0x` prefix, which `parseInt` without a radix reads as hexadecimal, is not modelled; a number input does not produce it.
- Catalog.Take: `substring(0, 100)`, `charAt(0)` and `slice(1)` count UTF-16 code units, while the model counts Unicode scalar values. A description with characters outside the Basic Multilingual Plane is cut at a different place, and the source can split a surrogate pair; `OrderPanel.Label` differs in the same way.
- Text.TrimStart: JavaScript's `\s`, `trim`, `toLowerCase` and `toUpperCase` are modelled over ASCII only. Unicode white space and non-ASCII case mappings are not modelled.
- `fetchProducts` and the catalog's `loading` and `error` state are I/O and are not modelled. The model starts from the fetched product list.
- React rendering, JSX, CSS, `STATUS_COLORS` and `toLocaleString` are not modelled; only the conditions under which parts appear are. A product whose `image` has no `src` throws a TypeError at `image.startsWith` while rendering; the model gives every present image a `src`.
- App.PlaceOrder: the `fetchOrders()` that `createOrder` starts after a success without awaiting it is not part of this flow, so its contract keeps `orders` unchanged. `App.Refresh` models that refresh on its own.
- App.Storefront.CreateOrder: a `response.json()` that fails after an ok response is not modelled; an ok reply always carries its body.
- The asynchronous interleaving of `setState` and `fetch`, and a second submission while one is in flight, are not modelled. Each flow runs to completion before the next.
