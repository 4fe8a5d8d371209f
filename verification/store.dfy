/**
 * The local data layer (client/src/localdb/store.js): three object stores,
 * `inventory` and `purchaseOrders` keyed by `id` and `settings` keyed by `key`,
 * and the repository operations over them. Each store is a map from key to
 * record; `getAll` lists a store in ascending key order. Fresh ids (`uuid()`)
 * and the current time are passed in.
 */
module LocalStore {
  import opened Common
  import opened Text
  import opened KeyOrder
  import opened InventoryRecords
  import opened OrderRecords
  import opened KeyedStores
  import opened Serials

  /** The settings key of the inventory sequence counter. */
  const SeqKey := "inventory_seq"

  /**
   * Why an operation failed: `Name is required`, `Not found`, or the engine's
   * ConstraintError when `add` meets a key that is already taken.
   */
  datatype StoreError = NameRequired | NotFound | KeyExists

  datatype Result<T> = Ok(value: T) | Err(error: StoreError)

  /** What `exportAll` returns. */
  datatype Snapshot = Snapshot(
    version: int,
    exportedAt: int,
    inventory: seq<Item>,
    purchaseOrders: seq<Order>,
    settings: seq<Setting>)

  /** What `importAll` reads: each array may be missing (or otherwise falsy). */
  datatype Payload = Payload(
    inventory: Option<seq<Item>>,
    purchaseOrders: Option<seq<Order>>,
    settings: Option<seq<Setting>>)

  /** A snapshot read back as an import payload. */
  function AsPayload(s: Snapshot): (p: Payload)
    ensures p.inventory == Some(s.inventory) && p.purchaseOrders == Some(s.purchaseOrders)
    ensures p.settings == Some(s.settings)
  {
    Payload(Some(s.inventory), Some(s.purchaseOrders), Some(s.settings))
  }

  /** The counter a settings store holds: the value of the `inventory_seq` record, or 0 without one. */
  function CounterOf(settings: map<string, Setting>): int {
    if SeqKey in settings then settings[SeqKey].value else 0
  }

  /** `after` is `before`, or `before` with the counter record rewritten. */
  ghost predicate MovedCounterOnly(before: map<string, Setting>, after: map<string, Setting>) {
    after == before || after == before[SeqKey := Setting(SeqKey, CounterOf(after))]
  }

  /** Two rounds of counter writes are again only a counter write. */
  lemma MovedCounterOnlyTwice(a: map<string, Setting>, b: map<string, Setting>, c: map<string, Setting>)
    requires MovedCounterOnly(a, b) && MovedCounterOnly(b, c)
    ensures MovedCounterOnly(a, c)
  {
    if c != b && b != a {
      PutTwice(a, SeqKey, Setting(SeqKey, CounterOf(b)), Setting(SeqKey, CounterOf(c)));
    }
  }

  /** The first loop of `ensureInventorySerials`: the largest numeric serial, or 0. */
  method LargestSerial(items: seq<Item>) returns (maxSerial: int)
    ensures maxSerial == MaxSerial(items)
    ensures maxSerial >= 0
    ensures forall i :: 0 <= i < |items| && items[i].serial.Some? ==> items[i].serial.value <= maxSerial
  {
    maxSerial := 0;
    for i := 0 to |items|
      invariant maxSerial == MaxSerial(items[..i])
    {
      assert items[..i + 1][..i] == items[..i];
      var it := items[i];
      if it.serial.Some? && it.serial.value > maxSerial {
        maxSerial := it.serial.value;
      }
    }
    assert items[..|items|] == items;
  }

  class LocalDb {
    var inventory: map<string, Item>
    var purchaseOrders: map<string, Order>
    var settings: map<string, Setting>

    /** Every record sits under the value of its store's key path. */
    ghost predicate Valid()
      reads this
    {
      Keyed(inventory, ItemKey) && Keyed(purchaseOrders, OrderKey) && Keyed(settings, SettingKey)
    }

    /** A freshly created, empty database. */
    constructor ()
      ensures Valid()
      ensures inventory == map[] && purchaseOrders == map[] && settings == map[]
    {
      inventory := map[];
      purchaseOrders := map[];
      settings := map[];
    }

    // -------------------------------------------------------------------------
    // The sequence counter

    /** `getNextInventorySeq`: read the counter, add one, write it back, return it. */
    method NextInventorySeq() returns (next: int)
      requires Valid()
      modifies this
      ensures Valid()
      ensures next == CounterOf(old(settings)) + 1 && CounterOf(settings) == next
      ensures settings == old(settings)[SeqKey := Setting(SeqKey, next)]
      ensures inventory == old(inventory) && purchaseOrders == old(purchaseOrders)
    {
      var cur := GetSetting(SeqKey);
      next := (if cur.Some? then cur.value.value else 0) + 1;
      settings := settings[SeqKey := Setting(SeqKey, next)];
    }

    // -------------------------------------------------------------------------
    // Inventory

    /** `Inventory.list`: every item, in key order. */
    method ListInventory() returns (r: seq<Item>)
      ensures r == InKeyOrder(inventory)
    {
      r := InKeyOrder(inventory);
    }

    /** `Inventory.get`: the item stored under `id`, if any. */
    method GetItem(id: string) returns (r: Option<Item>)
      requires Valid()
      ensures r.Some? <==> id in inventory
      ensures r.Some? ==> r.value == inventory[id] && r.value.id == id
    {
      r := if id in inventory then Some(inventory[id]) else None;
    }

    /**
     * `Inventory.create`: refuse an empty trimmed name before anything is
     * written; otherwise take the next counter value and `add` the new record,
     * which the engine refuses when `id` is already taken (the counter stays
     * bumped, as the two writes are separate transactions).
     */
    method CreateItem(data: ItemInput, id: string) returns (r: Result<Item>)
      requires Valid()
      modifies this
      ensures Valid()
      ensures ItemName(data) == "" ==>
        r == Err(NameRequired) && inventory == old(inventory) && settings == old(settings)
      ensures ItemName(data) != "" ==> settings == old(settings)[SeqKey := Setting(SeqKey, CounterOf(old(settings)) + 1)]
      ensures ItemName(data) != "" && id in old(inventory) ==> r == Err(KeyExists) && inventory == old(inventory)
      ensures ItemName(data) != "" && id !in old(inventory) ==>
        && r == Ok(NewItem(data, id, CounterOf(old(settings)) + 1))
        && inventory == old(inventory)[id := r.value]
      ensures purchaseOrders == old(purchaseOrders)
    {
      var name := ItemName(data);
      if name == "" {
        return Err(NameRequired);
      }
      ghost var h := CounterOf(settings);
      var next := NextInventorySeq();
      assert next == h + 1;
      var rec := NewItem(data, id, next);
      r := AddItem(rec);
    }

    /** The inventory store's `add`: refused when a record already sits under the new record's `id`. */
    method AddItem(rec: Item) returns (r: Result<Item>)
      requires Valid()
      modifies this
      ensures Valid()
      ensures rec.id in old(inventory) ==> r == Err(KeyExists) && inventory == old(inventory)
      ensures rec.id !in old(inventory) ==> r == Ok(rec) && inventory == old(inventory)[rec.id := rec]
      ensures settings == old(settings) && purchaseOrders == old(purchaseOrders)
    {
      if rec.id in inventory {
        return Err(KeyExists);
      }
      inventory := inventory[rec.id := rec];
      r := Ok(rec);
    }

    /**
     * `Inventory.update`: `Not found` when there is no item under `id`;
     * otherwise `put` the patched record, under its (possibly patched) `id`.
     */
    method UpdateItem(id: string, patch: ItemPatch) returns (r: Result<Item>)
      requires Valid()
      modifies this
      ensures Valid()
      ensures id !in old(inventory) ==> r == Err(NotFound) && inventory == old(inventory)
      ensures id in old(inventory) ==>
        && r == Ok(PatchItem(old(inventory)[id], patch))
        && inventory == old(inventory)[r.value.id := r.value]
      ensures settings == old(settings) && purchaseOrders == old(purchaseOrders)
    {
      var cur := GetItem(id);
      if cur.None? {
        return Err(NotFound);
      }
      var rec := PatchItem(cur.value, patch);
      inventory := inventory[rec.id := rec];
      r := Ok(rec);
    }

    /** `Inventory.remove`: delete whatever is under `id` (nothing, if absent); the counter is untouched. */
    method RemoveItem(id: string)
      requires Valid()
      modifies this
      ensures Valid()
      ensures inventory == old(inventory) - {id}
      ensures settings == old(settings) && purchaseOrders == old(purchaseOrders)
    {
      inventory := inventory - {id};
    }

    // -------------------------------------------------------------------------
    // Purchase orders

    /** `PurchaseOrders.list`: every order, in key order. */
    method ListOrders() returns (r: seq<Order>)
      ensures r == InKeyOrder(purchaseOrders)
    {
      r := InKeyOrder(purchaseOrders);
    }

    /**
     * `PurchaseOrders.listByDateRange`: the listed orders whose instant lies in
     * `[start, end]`; a missing bound does not constrain.
     */
    method ListOrdersByDateRange(start: Option<int>, end: Option<int>, now: int) returns (r: seq<Order>)
      ensures r == FilterByDate(InKeyOrder(purchaseOrders), start, end, now)
      ensures IsSubsequence(r, InKeyOrder(purchaseOrders))
      ensures forall o :: o in r <==> o in InKeyOrder(purchaseOrders) && InRange(OrderTime(o, now), start, end)
      ensures start.None? && end.None? ==> r == InKeyOrder(purchaseOrders)
    {
      var all := ListOrders();
      r := FilterByDate(all, start, end, now);
      FilterIsSubsequence(all, start, end, now);
      forall o ensures o in r <==> o in all && InRange(OrderTime(o, now), start, end) {
        FilterMembership(all, start, end, now, o);
      }
      if start.None? && end.None? { FilterUnbounded(all, now); }
    }

    /** `PurchaseOrders.get`: the order stored under `id`, if any. */
    method GetOrder(id: string) returns (r: Option<Order>)
      requires Valid()
      ensures r.Some? <==> id in purchaseOrders
      ensures r.Some? ==> r.value == purchaseOrders[id] && r.value.id == id
    {
      r := if id in purchaseOrders then Some(purchaseOrders[id]) else None;
    }

    /** `PurchaseOrders.create`: `add` the defaulted order, refused when `id` is taken. */
    method CreateOrder(data: OrderInput, id: string, now: int) returns (r: Result<Order>)
      requires Valid()
      modifies this
      ensures Valid()
      ensures id in old(purchaseOrders) ==> r == Err(KeyExists) && purchaseOrders == old(purchaseOrders)
      ensures id !in old(purchaseOrders) ==>
        r == Ok(NewOrder(data, id, now)) && purchaseOrders == old(purchaseOrders)[id := r.value]
      ensures inventory == old(inventory) && settings == old(settings)
    {
      var rec := NewOrder(data, id, now);
      if rec.id in purchaseOrders {
        return Err(KeyExists);
      }
      purchaseOrders := purchaseOrders[rec.id := rec];
      r := Ok(rec);
    }

    /** `PurchaseOrders.update`: `Not found`, or `put` the merged order stamped with `now`. */
    method UpdateOrder(id: string, patch: OrderPatch, now: int) returns (r: Result<Order>)
      requires Valid()
      modifies this
      ensures Valid()
      ensures id !in old(purchaseOrders) ==> r == Err(NotFound) && purchaseOrders == old(purchaseOrders)
      ensures id in old(purchaseOrders) ==>
        && r == Ok(PatchOrder(old(purchaseOrders)[id], patch, now))
        && purchaseOrders == old(purchaseOrders)[r.value.id := r.value]
      ensures inventory == old(inventory) && settings == old(settings)
    {
      var cur := GetOrder(id);
      if cur.None? {
        return Err(NotFound);
      }
      var rec := PatchOrder(cur.value, patch, now);
      purchaseOrders := purchaseOrders[rec.id := rec];
      r := Ok(rec);
    }

    /** `PurchaseOrders.remove`: delete whatever is under `id`. */
    method RemoveOrder(id: string)
      requires Valid()
      modifies this
      ensures Valid()
      ensures purchaseOrders == old(purchaseOrders) - {id}
      ensures inventory == old(inventory) && settings == old(settings)
    {
      purchaseOrders := purchaseOrders - {id};
    }

    // -------------------------------------------------------------------------
    // Settings

    /** `Settings.get`: the record stored under `key`, if any. */
    method GetSetting(key: string) returns (r: Option<Setting>)
      requires Valid()
      ensures r.Some? <==> key in settings
      ensures r.Some? ==> r.value == settings[key] && r.value.key == key
    {
      r := if key in settings then Some(settings[key]) else None;
    }

    /** `Settings.set`: upsert `{ key, value }`. */
    method SetSetting(key: string, value: int)
      requires Valid()
      modifies this
      ensures Valid()
      ensures settings == old(settings)[key := Setting(key, value)]
      ensures inventory == old(inventory) && purchaseOrders == old(purchaseOrders)
    {
      settings := settings[key := Setting(key, value)];
    }

    // -------------------------------------------------------------------------
    // Serial repair

    /**
     * `ensureInventorySerials`: raise the counter to the largest serial, then
     * give each listed item lacking a serial or a display id the next counter
     * value. Afterwards every item has both, none above the counter.
     */
    method EnsureInventorySerials()
      requires Valid()
      modifies this
      ensures Valid()
      ensures var c := Max(CounterOf(old(settings)), MaxSerial(InKeyOrder(old(inventory))));
        && IsRepairOf(old(inventory), inventory, c, Pad4)
        && CounterOf(settings) == c + CountNeeding(InKeyOrder(old(inventory)))
      ensures forall k :: k in inventory ==>
        inventory[k].serial.Some? && inventory[k].display_id.Some? && inventory[k].serial.value <= CounterOf(settings)
      ensures MovedCounterOnly(old(settings), settings)
      ensures purchaseOrders == old(purchaseOrders)
    {
      ghost var before := inventory;
      var items := ListInventory();
      var maxSerial := LargestSerial(items);
      RaiseCounterTo(maxSerial);
      ghost var c := CounterOf(settings);
      ghost var ks := AscendingKeys(before.Keys);
      RepairedNothing(before, c, Pad4);
      forall i, j | 0 <= i < |ks| && 0 <= j < |ks| && i != j ensures ks[i] != ks[j] {
        AscendingKeysDistinct(before.Keys, i, j);
      }
      forall j | 0 <= j < |items| ensures items[j].id == ks[j] {
        assert items[j] == before[ks[j]];
      }
      ghost var s1 := settings;
      BackfillListed(items, ks, c);
      MovedCounterOnlyTwice(old(settings), s1, settings);
      RepairedEverything(before, inventory, c, Pad4);
      forall k | k in inventory
        ensures inventory[k].serial.Some? && inventory[k].display_id.Some? && inventory[k].serial.value <= CounterOf(settings)
      {
        RepairCompletes(before, inventory, c, k, Pad4);
      }
    }

    /** Between the two loops of `ensureInventorySerials`: a counter below `maxSerial` is raised to it. */
    method RaiseCounterTo(maxSerial: int)
      requires Valid()
      modifies this
      ensures Valid()
      ensures CounterOf(settings) == Max(CounterOf(old(settings)), maxSerial)
      ensures MovedCounterOnly(old(settings), settings)
      ensures inventory == old(inventory) && purchaseOrders == old(purchaseOrders)
    {
      var cur := GetSetting(SeqKey);
      if (if cur.Some? then cur.value.value else 0) < maxSerial {
        settings := settings[SeqKey := Setting(SeqKey, maxSerial)];
      }
    }

    /**
     * The second loop of `ensureInventorySerials`: each listed item `items[i]`,
     * stored under `ks[i]`, that lacks a serial or a display id takes the next
     * counter value and is `put` back.
     */
    method BackfillListed(items: seq<Item>, ghost ks: seq<string>, ghost c: int)
      requires Valid()
      requires RepairedUpTo(ks, items, inventory, c, 0, Pad4) && CounterOf(settings) == c
      requires forall j :: 0 <= j < |items| ==> items[j].id == ks[j]
      requires forall i, j :: 0 <= i < |ks| && 0 <= j < |ks| && i != j ==> ks[i] != ks[j]
      modifies this
      ensures Valid()
      ensures inventory.Keys == old(inventory).Keys
      ensures RepairedUpTo(ks, items, inventory, c, |items|, Pad4)
      ensures CounterOf(settings) == c + CountNeeding(items)
      ensures MovedCounterOnly(old(settings), settings)
      ensures purchaseOrders == old(purchaseOrders)
    {
      for i := 0 to |items|
        invariant Valid()
        invariant inventory.Keys == old(inventory).Keys
        invariant RepairedUpTo(ks, items, inventory, c, i, Pad4)
        invariant CounterOf(settings) == c + CountNeeding(items[..i])
        invariant MovedCounterOnly(old(settings), settings)
        invariant purchaseOrders == old(purchaseOrders)
      {
        ghost var s0 := settings;
        BackfillTurn(items, ks, c, i);
        MovedCounterOnlyTwice(old(settings), s0, settings);
      }
      assert items[..|items|] == items;
    }

    /** Turn `i` of that loop: the first `i + 1` listed items are now back-filled. */
    method BackfillTurn(items: seq<Item>, ghost ks: seq<string>, ghost c: int, i: nat)
      requires Valid() && i < |items|
      requires RepairedUpTo(ks, items, inventory, c, i, Pad4) && CounterOf(settings) == c + CountNeeding(items[..i])
      requires items[i].id == ks[i]
      requires forall j :: 0 <= j < |ks| && j != i ==> ks[j] != ks[i]
      modifies this
      ensures Valid()
      ensures inventory.Keys == old(inventory).Keys
      ensures RepairedUpTo(ks, items, inventory, c, i + 1, Pad4)
      ensures CounterOf(settings) == c + CountNeeding(items[..i + 1])
      ensures MovedCounterOnly(old(settings), settings)
      ensures purchaseOrders == old(purchaseOrders)
    {
      CountNeedingStep(items, i);
      var it := items[i];
      if NeedsSerial(it) {
        RepairStamp(ks, items, inventory, c, i, CounterOf(settings) + 1, Pad4);
      } else {
        RepairSkip(ks, items, inventory, c, i, Pad4);
      }
      BackfillOne(it);
    }

    /** One turn of that loop: an item lacking a serial or a display id is stamped with the next counter value and `put`. */
    method BackfillOne(it: Item)
      requires Valid()
      modifies this
      ensures Valid()
      ensures NeedsSerial(it) ==>
        CounterOf(settings) == CounterOf(old(settings)) + 1 && inventory == old(inventory)[it.id := Stamp(it, CounterOf(settings), Pad4)]
      ensures !NeedsSerial(it) ==> inventory == old(inventory) && CounterOf(settings) == CounterOf(old(settings))
      ensures MovedCounterOnly(old(settings), settings)
      ensures purchaseOrders == old(purchaseOrders)
    {
      if it.serial.None? || it.display_id.None? {
        var next := NextInventorySeq();
        var stamped := it.(serial := Some(next), display_id := Some(Pad4(next)));
        inventory := inventory[stamped.id := stamped];
      }
    }

    // -------------------------------------------------------------------------
    // Backup and restore

    /** `exportAll`: format version 1, the export time, and every store listed in key order. */
    method ExportAll(now: int) returns (snap: Snapshot)
      ensures snap.version == 1 && snap.exportedAt == now
      ensures snap.inventory == InKeyOrder(inventory)
      ensures snap.purchaseOrders == InKeyOrder(purchaseOrders)
      ensures snap.settings == InKeyOrder(settings)
    {
      var inv := ListInventory();
      var pos := ListOrders();
      var sets := InKeyOrder(settings);
      snap := Snapshot(1, now, inv, pos, sets);
    }

    /**
     * `importAll`: with `replace`, clear all three stores first; then `put`
     * every record of each payload array in turn (a missing array is empty).
     */
    method ImportAll(payload: Payload, replace: bool)
      requires Valid()
      modifies this
      ensures Valid()
      ensures inventory == PutAll(if replace then map[] else old(inventory), payload.inventory.GetOr([]), ItemKey)
      ensures purchaseOrders == PutAll(if replace then map[] else old(purchaseOrders), payload.purchaseOrders.GetOr([]), OrderKey)
      ensures settings == PutAll(if replace then map[] else old(settings), payload.settings.GetOr([]), SettingKey)
      ensures !replace ==>
        old(inventory).Keys <= inventory.Keys && old(purchaseOrders).Keys <= purchaseOrders.Keys
        && old(settings).Keys <= settings.Keys
    {
      if replace {
        inventory := map[];
        purchaseOrders := map[];
        settings := map[];
      }
      PutItems(payload.inventory.GetOr([]));
      PutOrders(payload.purchaseOrders.GetOr([]));
      PutSettings(payload.settings.GetOr([]));
      if !replace {
        PutAllFacts(old(inventory), payload.inventory.GetOr([]), ItemKey);
        PutAllFacts(old(purchaseOrders), payload.purchaseOrders.GetOr([]), OrderKey);
        PutAllFacts(old(settings), payload.settings.GetOr([]), SettingKey);
      }
    }

    /** `put` each item in turn into the inventory store. */
    method PutItems(items: seq<Item>)
      requires Valid()
      modifies this
      ensures Valid()
      ensures inventory == PutAll(old(inventory), items, ItemKey)
      ensures purchaseOrders == old(purchaseOrders) && settings == old(settings)
    {
      for i := 0 to |items|
        invariant Valid()
        invariant inventory == PutAll(old(inventory), items[..i], ItemKey)
        invariant purchaseOrders == old(purchaseOrders) && settings == old(settings)
      {
        assert items[..i + 1] == items[..i] + [items[i]];
        PutAllSnoc(old(inventory), items[..i], items[i], ItemKey);
        inventory := inventory[items[i].id := items[i]];
      }
      assert items[..|items|] == items;
    }

    /** `put` each order in turn into the purchase-order store. */
    method PutOrders(orders: seq<Order>)
      requires Valid()
      modifies this
      ensures Valid()
      ensures purchaseOrders == PutAll(old(purchaseOrders), orders, OrderKey)
      ensures inventory == old(inventory) && settings == old(settings)
    {
      for i := 0 to |orders|
        invariant Valid()
        invariant purchaseOrders == PutAll(old(purchaseOrders), orders[..i], OrderKey)
        invariant inventory == old(inventory) && settings == old(settings)
      {
        assert orders[..i + 1] == orders[..i] + [orders[i]];
        PutAllSnoc(old(purchaseOrders), orders[..i], orders[i], OrderKey);
        purchaseOrders := purchaseOrders[orders[i].id := orders[i]];
      }
      assert orders[..|orders|] == orders;
    }

    /** `put` each setting in turn into the settings store. */
    method PutSettings(sets: seq<Setting>)
      requires Valid()
      modifies this
      ensures Valid()
      ensures settings == PutAll(old(settings), sets, SettingKey)
      ensures inventory == old(inventory) && purchaseOrders == old(purchaseOrders)
    {
      for i := 0 to |sets|
        invariant Valid()
        invariant settings == PutAll(old(settings), sets[..i], SettingKey)
        invariant inventory == old(inventory) && purchaseOrders == old(purchaseOrders)
      {
        assert sets[..i + 1] == sets[..i] + [sets[i]];
        PutAllSnoc(old(settings), sets[..i], sets[i], SettingKey);
        settings := settings[sets[i].key := sets[i]];
      }
      assert sets[..|sets|] == sets;
    }
  }

  /** Exporting one database and importing the snapshot with `replace` into another reproduces all three stores. */
  method BackupRestore(source: LocalDb, target: LocalDb, now: int) returns (snap: Snapshot)
    requires source.Valid() && target.Valid()
    modifies target
    ensures target.inventory == old(source.inventory)
    ensures target.purchaseOrders == old(source.purchaseOrders)
    ensures target.settings == old(source.settings)
  {
    snap := source.ExportAll(now);
    target.ImportAll(AsPayload(snap), true);
    RestoreListing(old(source.inventory), ItemKey);
    RestoreListing(old(source.purchaseOrders), OrderKey);
    RestoreListing(old(source.settings), SettingKey);
  }

  /**
   * Create A, remove A, create B: removal does not rewind the counter, so B's
   * serial is larger than A's and B's display id differs from A's.
   */
  method CreateRemoveCreate(db: LocalDb, a: ItemInput, b: ItemInput, idA: string, idB: string)
    returns (ra: Result<Item>, rb: Result<Item>)
    requires db.Valid() && ItemName(a) != "" && ItemName(b) != ""
    requires idA !in db.inventory && idB !in db.inventory
    modifies db
    ensures ra.Ok? && rb.Ok?
    ensures ra.value.serial.Some? && rb.value.serial.Some?
    ensures rb.value.serial.value == ra.value.serial.value + 1
    ensures old(CounterOf(db.settings)) >= 0 ==> ra.value.display_id != rb.value.display_id
    ensures idB in db.inventory && db.inventory[idB] == rb.value
    ensures idA != idB ==> idA !in db.inventory
  {
    ghost var n := CounterOf(db.settings);
    ra := db.CreateItem(a, idA);
    db.RemoveItem(idA);
    assert CounterOf(db.settings) == n + 1 && idB !in db.inventory;
    rb := db.CreateItem(b, idB);
    if n >= 0 {
      Pad4Successive(n);
    }
  }
}
