/**
 * Inventory item records and the record-building expressions of
 * `Inventory.create` and `Inventory.update` (client/src/localdb/store.js:18-56).
 * Numbers are already numeric here (the `Number(...)` coercion of arbitrary
 * values is not modelled). In a create input, absent and `null` are both
 * `None`; a patch tells a missing key (`Keep`) from one that holds `null` or
 * `undefined` (`Clear`) wherever the spread copies it.
 */
module InventoryRecords {
  import opened Common
  import opened Text

  /** An inventory item as the `inventory` store holds it (keyed by `id`). */
  datatype Item = Item(
    id: string,
    serial: Option<int>,
    display_id: Option<string>,
    name: string,
    category: Option<string>,
    quantity: int,
    unit: Option<string>,
    restock_threshold: Option<int>,
    supplier: Option<string>,
    location: Option<string>,
    product_number: Option<string>,
    last_price: Option<int>)

  /** A `last_price` input: absent or `null`, the empty string, or a number. */
  datatype PriceInput = Unset | Blank | Amount(value: int)

  /** The fields a caller passes to `Inventory.create`. */
  datatype ItemInput = ItemInput(
    name: Option<string>,
    category: Option<string>,
    quantity: Option<int>,
    unit: Option<string>,
    restock_threshold: Option<int>,
    supplier: Option<string>,
    location: Option<string>,
    product_number: Option<string>,
    last_price: PriceInput)

  /**
   * A patch for `Inventory.update`. The spread copies every key of the patch,
   * `serial` and `display_id` included, even one that holds `null`; `name`,
   * `quantity` and `restock_threshold` are then read back, and `None` there
   * stands for a missing or `null` value, which keeps the current one.
   */
  datatype ItemPatch = ItemPatch(
    id: Option<string>,
    serial: Spread<int>,
    display_id: Spread<string>,
    name: Option<string>,
    category: Spread<string>,
    quantity: Option<int>,
    unit: Spread<string>,
    restock_threshold: Option<int>,
    supplier: Spread<string>,
    location: Spread<string>,
    product_number: Spread<string>,
    last_price: PriceInput)

  /** The patch that names no field. */
  const NoChanges := ItemPatch(None, Keep, Keep, None, Keep, None, Keep, None, Keep, Keep, Keep, Unset)

  /** The trimmed name `create` validates (an absent name reads as empty); creation fails when it is empty. */
  function ItemName(data: ItemInput): (r: string)
    ensures r == Trim(data.name.GetOr(""))
    ensures IsTrimmed(r)
    ensures r == "" <==> AllWhitespace(data.name.GetOr(""))
  {
    TrimEmptyIff(data.name.GetOr(""));
    Trim(data.name.GetOr(""))
  }

  /** An optional text field of `create`: the given text trimmed, and empty when absent. */
  function TrimmedOrEmpty(x: Option<string>): (r: string)
    ensures r == Trim(x.GetOr(""))
    ensures IsTrimmed(r)
    ensures x.None? ==> r == ""
  {
    Trim(x.GetOr(""))
  }

  /** The price `create` stores: the given amount, or `null` when the price is absent, `null` or empty. */
  function PriceOrNull(p: PriceInput): (r: Option<int>)
    ensures r.Some? <==> p.Amount?
    ensures p.Amount? ==> r.value == p.value
  {
    if p.Amount? then Some(p.value) else None
  }

  /**
   * The record `Inventory.create` adds, given a valid name, a fresh id and the
   * next sequence number.
   */
  function NewItem(data: ItemInput, id: string, serial: int): (r: Item)
    requires ItemName(data) != ""
    ensures r.id == id && r.serial == Some(serial) && r.display_id == Some(Pad4(serial))
    ensures r.name == Trim(data.name.GetOr("")) && r.name != ""
    ensures r.quantity == data.quantity.GetOr(0)
    ensures r.restock_threshold == Some(data.restock_threshold.GetOr(0))
    ensures r.category == Some(Trim(data.category.GetOr("")))
    ensures r.unit == Some(Trim(data.unit.GetOr("")))
    ensures r.supplier == Some(Trim(data.supplier.GetOr("")))
    ensures r.location == Some(Trim(data.location.GetOr("")))
    ensures r.product_number == Some(Trim(data.product_number.GetOr("")))
    ensures r.last_price == PriceOrNull(data.last_price)
  {
    Item(
      id := id,
      serial := Some(serial),
      display_id := Some(Pad4(serial)),
      name := ItemName(data),
      category := Some(TrimmedOrEmpty(data.category)),
      quantity := data.quantity.GetOr(0),
      unit := Some(TrimmedOrEmpty(data.unit)),
      restock_threshold := Some(data.restock_threshold.GetOr(0)),
      supplier := Some(TrimmedOrEmpty(data.supplier)),
      location := Some(TrimmedOrEmpty(data.location)),
      product_number := Some(TrimmedOrEmpty(data.product_number)),
      last_price := PriceOrNull(data.last_price))
  }

  /** The display id of a created item reads back as its serial. */
  lemma NewItemDisplayId(data: ItemInput, id: string, serial: nat)
    requires ItemName(data) != ""
    ensures AllDigits(NewItem(data, id, serial).display_id.value)
    ensures ParseDigits(NewItem(data, id, serial).display_id.value) == serial
  {
    Pad4RoundTrip(serial);
  }

  /**
   * The record `Inventory.update` writes: the current record overlaid with the
   * patch, where `name` is trimmed and `name`, `quantity`, `restock_threshold`
   * and `last_price` keep their current value when the patch gives `null` (or,
   * for `last_price`, the empty string). Every other field the patch names is
   * written, `null` included.
   */
  function PatchItem(cur: Item, p: ItemPatch): (r: Item)
    ensures p.name.Some? ==> r.name == Trim(p.name.value)
    ensures p.name.None? ==> r.name == cur.name
    ensures r.quantity == p.quantity.GetOr(cur.quantity)
    ensures r.restock_threshold == if p.restock_threshold.Some? then p.restock_threshold else cur.restock_threshold
    ensures r.last_price == if p.last_price.Amount? then Some(p.last_price.value) else cur.last_price
    ensures r.id == p.id.GetOr(cur.id)
    ensures p.serial.Keep? ==> r.serial == cur.serial
    ensures p.serial.Put? ==> r.serial == Some(p.serial.value)
    ensures p.serial.Clear? ==> r.serial.None?
    ensures p.display_id.Keep? ==> r.display_id == cur.display_id
    ensures p.display_id.Put? ==> r.display_id == Some(p.display_id.value)
    ensures p.display_id.Clear? ==> r.display_id.None?
    ensures r.category == p.category.Over(cur.category) && r.unit == p.unit.Over(cur.unit)
    ensures r.supplier == p.supplier.Over(cur.supplier) && r.location == p.location.Over(cur.location)
    ensures r.product_number == p.product_number.Over(cur.product_number)
  {
    Item(
      id := p.id.GetOr(cur.id),
      serial := p.serial.Over(cur.serial),
      display_id := p.display_id.Over(cur.display_id),
      name := if p.name.Some? then Trim(p.name.value) else cur.name,
      category := p.category.Over(cur.category),
      quantity := p.quantity.GetOr(cur.quantity),
      unit := p.unit.Over(cur.unit),
      restock_threshold := if p.restock_threshold.Some? then p.restock_threshold else cur.restock_threshold,
      supplier := p.supplier.Over(cur.supplier),
      location := p.location.Over(cur.location),
      product_number := p.product_number.Over(cur.product_number),
      last_price := if p.last_price.Amount? then Some(p.last_price.value) else cur.last_price)
  }

  /** A patch that names no field leaves the record as it is. */
  lemma PatchNothing(cur: Item)
    ensures PatchItem(cur, NoChanges) == cur
  {
  }

  /** Applying the same patch twice is the same as applying it once. */
  lemma PatchIdempotent(cur: Item, p: ItemPatch)
    ensures PatchItem(PatchItem(cur, p), p) == PatchItem(cur, p)
  {
    if p.name.Some? { TrimIdempotent(p.name.value); }
  }

  /** Without `id`, `serial` and `display_id` in the patch, the item keeps its identity. */
  lemma PatchKeepsIdentity(cur: Item, p: ItemPatch)
    requires p.id.None? && p.serial.Keep? && p.display_id.Keep?
    ensures PatchItem(cur, p).id == cur.id
    ensures PatchItem(cur, p).serial == cur.serial && PatchItem(cur, p).display_id == cur.display_id
  {
  }
}
