/**
 * The restock rules of the purchases screen (client/src/Purchases.js:34-49):
 * which inventory items are low on stock, how much to reorder, and which item
 * the new-order form starts with.
 */
module Purchases {
  import opened Common

  /**
   * An inventory row as the purchases screen receives it: its numeric id, its
   * quantity, and its restock threshold, which may be null.
   */
  datatype StockItem = StockItem(id: int, quantity: int, restock_threshold: Option<int>)

  /** An item is low on stock when it has a threshold and its quantity does not exceed it. */
  predicate IsLowStock(it: StockItem) {
    it.restock_threshold.Some? && it.quantity <= it.restock_threshold.value
  }

  /** `lowStockItems`: the items that are low on stock, in the order they were listed. */
  function LowStockItems(items: seq<StockItem>): (r: seq<StockItem>)
    ensures |r| <= |items|
    ensures forall x :: x in r ==> x in items && IsLowStock(x)
  {
    if items == [] then []
    else
      var rest := LowStockItems(items[1..]);
      if IsLowStock(items[0]) then [items[0]] + rest else rest
  }

  /** The low-stock list keeps the order of the item list. */
  lemma {:induction false} LowStockIsSubsequence(items: seq<StockItem>)
    ensures IsSubsequence(LowStockItems(items), items)
  {
    if items != [] {
      LowStockIsSubsequence(items[1..]);
      var rest := LowStockItems(items[1..]);
      if !IsLowStock(items[0]) && rest != [] && rest[0] == items[0] {
        SubsequenceSkip(rest, items);
      }
    }
  }

  /** Each low-stock item occurs in the list as often as among the items, and no other item occurs. */
  lemma {:induction false} LowStockCounts(items: seq<StockItem>, x: StockItem)
    ensures multiset(LowStockItems(items))[x] == if IsLowStock(x) then multiset(items)[x] else 0
  {
    if items != [] {
      LowStockCounts(items[1..], x);
      assert items == [items[0]] + items[1..];
    }
  }

  /** An item is listed exactly when it is one of the items and low on stock. */
  lemma LowStockMembership(items: seq<StockItem>, x: StockItem)
    ensures x in LowStockItems(items) <==> x in items && IsLowStock(x)
  {
    LowStockCounts(items, x);
  }

  /**
   * `suggestedQty(item)`: twice the threshold less the quantity when that is
   * positive, else blank (`None`). A null threshold counts as 0.
   */
  function SuggestedQty(it: StockItem): (r: Option<int>)
    ensures r.Some? <==> 2 * it.restock_threshold.GetOr(0) - it.quantity > 0
    ensures r.Some? ==> r.value > 0 && it.quantity + r.value == 2 * it.restock_threshold.GetOr(0)
  {
    var suggestion := it.restock_threshold.GetOr(0) * 2 - it.quantity;
    if suggestion > 0 then Some(suggestion) else None
  }

  /** A low-stock item with a positive threshold always gets a suggestion, and it is at least the threshold. */
  lemma LowStockSuggestion(it: StockItem)
    requires IsLowStock(it) && it.restock_threshold.value > 0
    ensures SuggestedQty(it).Some?
    ensures SuggestedQty(it).value >= it.restock_threshold.value
  {
  }

  /**
   * The item id `openModal` puts in the form: that of the first low-stock
   * item, or blank (`None`) when there is none or its id is falsy (0).
   */
  function DefaultItemId(items: seq<StockItem>): (r: Option<int>)
    ensures r.Some? ==> r.value != 0
  {
    var low := LowStockItems(items);
    if low != [] && low[0].id != 0 then Some(low[0].id) else None
  }

  /** The first low-stock item heads the low-stock list. */
  lemma {:induction false} FirstLowStock(items: seq<StockItem>, i: nat)
    requires i < |items| && IsLowStock(items[i])
    requires forall j :: 0 <= j < i ==> !IsLowStock(items[j])
    ensures LowStockItems(items) != [] && LowStockItems(items)[0] == items[i]
  {
    if i > 0 {
      FirstLowStock(items[1..], i - 1);
    }
  }

  /** With a low-stock item, the form starts with the first one's id (when it is not 0). */
  lemma DefaultIsFirstLowStock(items: seq<StockItem>, i: nat)
    requires i < |items| && IsLowStock(items[i])
    requires forall j :: 0 <= j < i ==> !IsLowStock(items[j])
    ensures DefaultItemId(items) == if items[i].id != 0 then Some(items[i].id) else None
  {
    FirstLowStock(items, i);
  }

  /** With no low-stock item, the low-stock list is empty and the form starts blank. */
  lemma {:induction false} DefaultBlankWhenNoneLow(items: seq<StockItem>)
    requires forall j :: 0 <= j < |items| ==> !IsLowStock(items[j])
    ensures LowStockItems(items) == []
    ensures DefaultItemId(items).None?
  {
    if items != [] {
      DefaultBlankWhenNoneLow(items[1..]);
    }
  }
}
