/**
 * Purchase-order records, the record-building expressions of
 * `PurchaseOrders.create` and `PurchaseOrders.update`, and the date filter of
 * `PurchaseOrders.listByDateRange` (client/src/localdb/store.js:62-93).
 * Timestamps are milliseconds since the epoch: an ISO date string is
 * represented by the instant it parses to, and an absent or empty one by `None`.
 */
module OrderRecords {
  import opened Common

  /** One line of an order. */
  datatype LineItem = LineItem(
    itemName: string,
    quantity: int,
    unit: string,
    supplier: string,
    product_number: string,
    price: int)

  /** A purchase order as the `purchaseOrders` store holds it (keyed by `id`). */
  datatype Order = Order(
    id: string,
    orderDate: Option<int>,
    supplier: Option<string>,
    notes: Option<string>,
    items: Option<seq<LineItem>>,
    status: Option<string>,
    last_modified: Option<int>)

  /**
   * The fields a caller passes to `PurchaseOrders.create`. `items` is `Some` when
   * the caller's `items` is an array; `orderItems` is `Some` when it is truthy.
   * A `None` string stands for any falsy value (absent, `null`, `''`).
   */
  datatype OrderInput = OrderInput(
    orderDate: Option<int>,
    supplier: Option<string>,
    notes: Option<string>,
    items: Option<seq<LineItem>>,
    orderItems: Option<seq<LineItem>>,
    status: Option<string>)

  /**
   * A patch for `PurchaseOrders.update`: every key it holds is spread over the
   * current order, `null` and `undefined` included. An `orderDate` of `''` is
   * written as well, and reads as no date, so it is `Clear` here too.
   */
  datatype OrderPatch = OrderPatch(
    id: Option<string>,
    orderDate: Spread<int>,
    supplier: Spread<string>,
    notes: Spread<string>,
    items: Spread<seq<LineItem>>,
    status: Spread<string>)

  const NoOrderChanges := OrderPatch(None, Keep, Keep, Keep, Keep, Keep)

  const Final := "final"

  /** An optional string, or `fallback` when it is falsy (absent or empty). */
  function OrElse(x: Option<string>, fallback: string): (r: string)
    ensures x.Some? && x.value != "" ==> r == x.value
    ensures (x.None? || x.value == "") ==> r == fallback
  {
    if x.Some? && x.value != "" then x.value else fallback
  }

  /** The lines a new order starts with: `items` when it is an array, else `orderItems` when given, else none. */
  function InitialItems(data: OrderInput): (r: seq<LineItem>)
    ensures data.items.Some? ==> r == data.items.value
    ensures data.items.None? && data.orderItems.Some? ==> r == data.orderItems.value
    ensures data.items.None? && data.orderItems.None? ==> r == []
  {
    if data.items.Some? then data.items.value else data.orderItems.GetOr([])
  }

  /** The order `PurchaseOrders.create` adds, given a fresh id and the current time. */
  function NewOrder(data: OrderInput, id: string, now: int): (r: Order)
    ensures r.id == id
    ensures r.orderDate == Some(data.orderDate.GetOr(now)) && r.last_modified == Some(now)
    ensures r.supplier == Some(OrElse(data.supplier, ""))
    ensures r.notes == Some(OrElse(data.notes, ""))
    ensures r.status == Some(OrElse(data.status, Final)) && r.status.value != ""
    ensures r.items == Some(InitialItems(data))
  {
    Order(
      id := id,
      orderDate := Some(data.orderDate.GetOr(now)),
      supplier := Some(OrElse(data.supplier, "")),
      notes := Some(OrElse(data.notes, "")),
      items := Some(InitialItems(data)),
      status := Some(OrElse(data.status, Final)),
      last_modified := Some(now))
  }

  /** The order `update` writes: the current order overlaid with every key the patch holds, stamped with the current time. */
  function PatchOrder(cur: Order, p: OrderPatch, now: int): (r: Order)
    ensures r.last_modified == Some(now)
    ensures r.id == p.id.GetOr(cur.id)
    ensures p.orderDate.Keep? ==> r.orderDate == cur.orderDate
    ensures p.orderDate.Put? ==> r.orderDate == Some(p.orderDate.value)
    ensures p.orderDate.Clear? ==> r.orderDate.None?
    ensures r.supplier == p.supplier.Over(cur.supplier) && r.notes == p.notes.Over(cur.notes)
    ensures r.items == p.items.Over(cur.items) && r.status == p.status.Over(cur.status)
  {
    Order(
      id := p.id.GetOr(cur.id),
      orderDate := p.orderDate.Over(cur.orderDate),
      supplier := p.supplier.Over(cur.supplier),
      notes := p.notes.Over(cur.notes),
      items := p.items.Over(cur.items),
      status := p.status.Over(cur.status),
      last_modified := Some(now))
  }

  /** An empty patch only refreshes `last_modified`. */
  lemma PatchOrderNothing(cur: Order, now: int)
    ensures PatchOrder(cur, NoOrderChanges, now) == cur.(last_modified := Some(now))
  {
  }

  /** Patching twice with the same patch is patching once at the later time. */
  lemma PatchOrderTwice(cur: Order, p: OrderPatch, t1: int, t2: int)
    ensures PatchOrder(PatchOrder(cur, p, t1), p, t2) == PatchOrder(cur, p, t2)
  {
  }

  // ---------------------------------------------------------------------------
  // listByDateRange

  /** The instant an order is filed under: its order date, else its last change, else the current time. */
  function OrderTime(po: Order, now: int): (t: int)
    ensures po.orderDate.Some? ==> t == po.orderDate.value
    ensures po.orderDate.None? && po.last_modified.Some? ==> t == po.last_modified.value
    ensures po.orderDate.None? && po.last_modified.None? ==> t == now
  {
    po.orderDate.GetOr(po.last_modified.GetOr(now))
  }

  /** A patch that clears `orderDate` files the order under the time of that update from then on. */
  lemma ClearedDateFilesAtUpdate(cur: Order, p: OrderPatch, now: int, later: int)
    requires p.orderDate.Clear?
    ensures OrderTime(PatchOrder(cur, p, now), later) == now
  {
  }

  /** `t` lies within both bounds, inclusive; a missing bound does not limit. */
  predicate InRange(t: int, start: Option<int>, end: Option<int>) {
    (start.None? || start.value <= t) && (end.None? || t <= end.value)
  }

  /** The orders of `all` whose instant lies within both bounds, inclusive, in their listed order. */
  function FilterByDate(all: seq<Order>, start: Option<int>, end: Option<int>, now: int): (r: seq<Order>)
    ensures |r| <= |all|
    ensures forall o :: o in r ==> o in all && InRange(OrderTime(o, now), start, end)
  {
    if all == [] then []
    else
      var rest := FilterByDate(all[1..], start, end, now);
      if InRange(OrderTime(all[0], now), start, end) then [all[0]] + rest else rest
  }

  /** `listByDateRange` keeps the orders it returns in the order of `list()`. */
  lemma {:induction false} FilterIsSubsequence(all: seq<Order>, start: Option<int>, end: Option<int>, now: int)
    ensures IsSubsequence(FilterByDate(all, start, end, now), all)
  {
    if all != [] {
      FilterIsSubsequence(all[1..], start, end, now);
      var rest := FilterByDate(all[1..], start, end, now);
      if !InRange(OrderTime(all[0], now), start, end) && rest != [] && rest[0] == all[0] {
        // rest lies inside all[1..], so it is also a subsequence of all after skipping all[0]
        SubsequenceSkip(rest, all);
      }
    }
  }

  /** Each order occurs in the result as often as in `all` when it is in range, and not at all otherwise. */
  lemma {:induction false} FilterCounts(all: seq<Order>, start: Option<int>, end: Option<int>, now: int, o: Order)
    ensures multiset(FilterByDate(all, start, end, now))[o]
      == if InRange(OrderTime(o, now), start, end) then multiset(all)[o] else 0
  {
    if all != [] {
      FilterCounts(all[1..], start, end, now, o);
      assert all == [all[0]] + all[1..];
    }
  }

  /** An order is listed exactly when it is in `all` and its instant lies within both bounds, inclusive. */
  lemma FilterMembership(all: seq<Order>, start: Option<int>, end: Option<int>, now: int, o: Order)
    ensures o in FilterByDate(all, start, end, now) <==> o in all && InRange(OrderTime(o, now), start, end)
  {
    FilterCounts(all, start, end, now, o);
  }

  /** With neither bound, `listByDateRange` returns the whole list. */
  lemma {:induction false} FilterUnbounded(all: seq<Order>, now: int)
    ensures FilterByDate(all, None, None, now) == all
  {
    if all != [] {
      FilterUnbounded(all[1..], now);
      assert all == [all[0]] + all[1..];
    }
  }
}
