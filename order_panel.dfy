/** The order-management view: which order is expanded, the notes typed
    for each order's next status change, the status choices offered, and
    which parts of an order the view shows. */
module OrderPanel {
  import opened Common
  import opened Text
  import opened OrderStore

  const StatusOptions := ["pending", "processing", "shipped", "delivered", "cancelled"]
  const NoOrdersTitle := "No Orders Yet"
  const NoItemsText := "No items in this order"

  /** An order as the view receives it: the row's fields plus `items` and
      `history` when the JSON carried them. */
  datatype PanelOrder = PanelOrder(row: OrderRow, items: Option<seq<ItemRow>>, history: Option<seq<HistoryRow>>)

  /** What `handleStatusChange` forwards to `onUpdateStatus`. */
  datatype StatusRequest = StatusRequest(orderId: string, status: string, notes: string)

  /** `status.charAt(0).toUpperCase() + status.slice(1)`. */
  function Label(s: string): (r: string)
    ensures |r| == |s|
    ensures s != [] ==> r[0] == UpperChar(s[0]) && r[1..] == s[1..]
  {
    if s == [] then [] else [UpperChar(s[0])] + s[1..]
  }

  /** The select offers the five statuses in this order, labelled with a capital first letter. */
  lemma StatusLabels()
    ensures Map(StatusOptions, Label) == ["Pending", "Processing", "Shipped", "Delivered", "Cancelled"]
  {
    var labels := Map(StatusOptions, Label);
    assert Label("pending") == "Pending";
    assert Label("processing") == "Processing";
    assert Label("shipped") == "Shipped";
    assert Label("delivered") == "Delivered";
    assert Label("cancelled") == "Cancelled";
  }

  /** The new value of `expandedOrderId` when the header of `orderId` is clicked. */
  function Toggled(expanded: Option<string>, orderId: string): (r: Option<string>)
  {
    if expanded == Some(orderId) then None else Some(orderId)
  }

  /** A click expands the clicked order unless it was the expanded one, which it
      collapses; clicking the same header twice restores a collapsed view or
      that order's expansion, and collapses a view that had another order open. */
  lemma ToggleTwice(expanded: Option<string>, orderId: string)
    ensures Toggled(expanded, orderId) == Some(orderId) <==> expanded != Some(orderId)
    ensures Toggled(expanded, orderId) == None <==> expanded == Some(orderId)
    ensures Toggled(Toggled(expanded, orderId), orderId) ==
              if expanded == None || expanded == Some(orderId) then expanded else None
  {
  }

  /** `statusNotes[orderId] || ''`: the textarea's value and the notes sent. */
  function NotesFor(statusNotes: map<string, string>, orderId: string): string {
    if orderId in statusNotes then statusNotes[orderId] else ""
  }

  /** Resetting one order's notes empties that order's textarea and no other. */
  lemma NotesReset(statusNotes: map<string, string>, orderId: string, other: string)
    ensures NotesFor(statusNotes[orderId := ""], orderId) == ""
    ensures other != orderId ==> NotesFor(statusNotes[orderId := ""], other) == NotesFor(statusNotes, other)
  {
  }

  /** The orders whose details are open. */
  function ExpandedOrders(orders: seq<PanelOrder>, expanded: Option<string>): seq<PanelOrder> {
    Filter(orders, (o: PanelOrder) => expanded == Some(o.row.id))
  }

  predicate DistinctOrderIds(orders: seq<PanelOrder>) {
    forall i, j :: 0 <= i < j < |orders| ==> orders[i].row.id != orders[j].row.id
  }

  /** Among orders with distinct ids at most one shows its details. */
  lemma {:induction false} AtMostOneExpanded(orders: seq<PanelOrder>, expanded: Option<string>)
    requires DistinctOrderIds(orders)
    ensures |ExpandedOrders(orders, expanded)| <= 1
  {
    if orders != [] {
      var keep := (o: PanelOrder) => expanded == Some(o.row.id);
      var rest := orders[1..];
      assert DistinctOrderIds(rest) by {
        forall i, j | 0 <= i < j < |rest| ensures rest[i].row.id != rest[j].row.id {
          assert rest[i] == orders[i + 1] && rest[j] == orders[j + 1];
        }
      }
      assert orders == [orders[0]] + rest;
      FilterConcat([orders[0]], rest, keep);
      if keep(orders[0]) {
        forall i | 0 <= i < |rest| ensures !keep(rest[i]) {
          assert rest[i] == orders[i + 1];
        }
        FilterKeepsNone(rest, keep);
      } else {
        AtMostOneExpanded(rest, expanded);
      }
    }
  }

  /** "No Orders Yet" replaces the list exactly when there are no orders. */
  predicate ShowsNoOrders(orders: seq<PanelOrder>) {
    |orders| == 0
  }

  /** An expanded order shows its items table only for a non-empty items list. */
  predicate ShowsItemsTable(o: PanelOrder) {
    o.items.Some? && |o.items.value| > 0
  }

  /** An expanded order shows its history only for a non-empty history. */
  predicate ShowsHistory(o: PanelOrder) {
    o.history.Some? && |o.history.value| > 0
  }

  /** The heading rendered in place of the list, if any. */
  function ListTitle(orders: seq<PanelOrder>): Option<string> {
    if ShowsNoOrders(orders) then Some(NoOrdersTitle) else None
  }

  /** The text an expanded order shows in place of its items table, if any. */
  function ItemsNote(o: PanelOrder): Option<string> {
    if ShowsItemsTable(o) then None else Some(NoItemsText)
  }

  /** The orders the storefront fetches come from the list route, whose rows
      carry neither items nor history. */
  function FromListed(rows: seq<OrderRow>): (r: seq<PanelOrder>)
    ensures |r| == |rows|
    ensures forall i :: 0 <= i < |rows| ==> r[i].row == rows[i]
    ensures forall i :: 0 <= i < |rows| ==> r[i].items.None? && r[i].history.None?
  {
    Map(rows, (row: OrderRow) => PanelOrder(row, None, None))
  }

  /** So an expanded order of that list always reads "No items in this
      order" and never shows a history, whatever the store holds, and "No
      Orders Yet" heads the view exactly when the list route returned no row;
      the detail route's reply, by contrast, shows both once the order has
      items, and reads "No items in this order" for an empty items list. */
  lemma ListedOrdersShowNoDetails(rows: seq<OrderRow>, d: OrderDetail)
    ensures forall i :: 0 <= i < |rows| ==> !ShowsItemsTable(FromListed(rows)[i]) && !ShowsHistory(FromListed(rows)[i])
    ensures forall i :: 0 <= i < |rows| ==> ItemsNote(FromListed(rows)[i]) == Some(NoItemsText)
    ensures ListTitle(FromListed(rows)) == Some(NoOrdersTitle) <==> rows == []
    ensures ListTitle(FromListed(rows)) != Some(NoOrdersTitle) ==> ListTitle(FromListed(rows)) == None
    ensures ItemsNote(PanelOrder(d.order, Some([]), Some(d.history))) == Some(NoItemsText)
    ensures |d.items| > 0 && |d.history| > 0 ==>
              ShowsItemsTable(PanelOrder(d.order, Some(d.items), Some(d.history))) &&
              ShowsHistory(PanelOrder(d.order, Some(d.items), Some(d.history)))
  {
  }

  /** The view's state cells. */
  class Panel {
    var expandedOrderId: Option<string>
    var statusNotes: map<string, string>

    constructor ()
      ensures expandedOrderId == None && statusNotes == map[]
    {
      expandedOrderId := None;
      statusNotes := map[];
    }

    /** `toggleOrderDetails(orderId)`. */
    method ToggleOrderDetails(orderId: string)
      modifies this
      ensures expandedOrderId == Toggled(old(expandedOrderId), orderId)
      ensures statusNotes == old(statusNotes)
    {
      expandedOrderId := if expandedOrderId == Some(orderId) then None else Some(orderId);
    }

    /** The textarea's `onChange` for one order. */
    method EditNotes(orderId: string, text: string)
      modifies this
      ensures statusNotes == old(statusNotes)[orderId := text]
      ensures NotesFor(statusNotes, orderId) == text
      ensures expandedOrderId == old(expandedOrderId)
    {
      statusNotes := statusNotes[orderId := text];
    }

    /** `handleStatusChange(orderId, newStatus)`: forward the order's notes
        (or '') with the new status, then empty that order's notes. */
    method HandleStatusChange(orderId: string, newStatus: string) returns (request: StatusRequest)
      modifies this
      ensures request == StatusRequest(orderId, newStatus, NotesFor(old(statusNotes), orderId))
      ensures statusNotes == old(statusNotes)[orderId := ""]
      ensures NotesFor(statusNotes, orderId) == ""
      ensures expandedOrderId == old(expandedOrderId)
    {
      var notes := if orderId in statusNotes then statusNotes[orderId] else "";
      request := StatusRequest(orderId, newStatus, notes);
      statusNotes := statusNotes[orderId := ""];
    }
  }
}
