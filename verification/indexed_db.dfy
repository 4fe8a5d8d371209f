/**
 * The schema step of the local database (client/src/localdb/indexedDb.js):
 * `getDB` opens database "office_inventory" at version 1, and its `upgrade`
 * callback creates each of the three object stores, with its key path and its
 * secondary indexes, only when that store is missing.
 */
module IndexedDb {

  /** An object store's schema: the record field that is its primary key, and its indexes (index name to key path). */
  datatype StoreSchema = StoreSchema(keyPath: string, indexes: map<string, string>)

  const DatabaseName := "office_inventory"
  const SchemaVersion := 1

  const Inventory := "inventory"
  const PurchaseOrders := "purchaseOrders"
  const Settings := "settings"

  /** The store `upgrade` creates for inventory items: keyed by `id`, indexed by `name` and `category`. */
  const InventorySchema := StoreSchema("id", map["name" := "name", "category" := "category"])
  /** The store for purchase orders: keyed by `id`, indexed by `orderDate`. */
  const PurchaseOrdersSchema := StoreSchema("id", map["orderDate" := "orderDate"])
  /** The store for settings: keyed by `key`, no index. */
  const SettingsSchema := StoreSchema("key", map[])

  /** The stores after `upgrade`, given the stores before it. */
  function Upgraded(stores: map<string, StoreSchema>): (r: map<string, StoreSchema>)
    ensures r.Keys == stores.Keys + {Inventory, PurchaseOrders, Settings}
    ensures forall n :: n in stores ==> r[n] == stores[n]
    ensures Inventory !in stores ==> r[Inventory] == InventorySchema
    ensures PurchaseOrders !in stores ==> r[PurchaseOrders] == PurchaseOrdersSchema
    ensures Settings !in stores ==> r[Settings] == SettingsSchema
  {
    var s1 := if Inventory in stores then stores else stores[Inventory := InventorySchema];
    var s2 := if PurchaseOrders in s1 then s1 else s1[PurchaseOrders := PurchaseOrdersSchema];
    if Settings in s2 then s2 else s2[Settings := SettingsSchema]
  }

  /** Running `upgrade` on an upgraded database changes nothing. */
  lemma UpgradeIdempotent(stores: map<string, StoreSchema>)
    ensures Upgraded(Upgraded(stores)) == Upgraded(stores)
  {
  }

  /** Key paths as `upgrade` leaves them: item and order stores keyed by `id`, settings by `key`, whatever existed before. */
  lemma UpgradedFromEmpty()
    ensures Upgraded(map[]) == map[Inventory := InventorySchema, PurchaseOrders := PurchaseOrdersSchema, Settings := SettingsSchema]
    ensures Upgraded(map[])[Inventory].keyPath == "id" && Upgraded(map[])[PurchaseOrders].keyPath == "id"
    ensures Upgraded(map[])[Settings].keyPath == "key"
  {
  }

  /** The database as the browser keeps it: its version and the schema of each object store. */
  class Database {
    var version: nat
    var objectStores: map<string, StoreSchema>

    /** Once at version 1, every store the application uses exists. */
    ghost predicate Valid()
      reads this
    {
      version >= SchemaVersion ==> {Inventory, PurchaseOrders, Settings} <= objectStores.Keys
    }

    /** A database that has never been opened. */
    constructor ()
      ensures Valid() && version == 0 && objectStores == map[]
    {
      version := 0;
      objectStores := map[];
    }

    /** `db.createObjectStore(name, { keyPath })`: refused (the engine's ConstraintError) when the name is taken. */
    method CreateObjectStore(name: string, keyPath: string) returns (created: bool)
      modifies this
      ensures created == (name !in old(objectStores))
      ensures objectStores == if created then old(objectStores)[name := StoreSchema(keyPath, map[])] else old(objectStores)
      ensures version == old(version)
    {
      created := name !in objectStores;
      if created {
        objectStores := objectStores[name := StoreSchema(keyPath, map[])];
      }
    }

    /** `store.createIndex(name, keyPath)`: refused when the store is missing or already has that index. */
    method CreateIndex(store: string, name: string, keyPath: string) returns (created: bool)
      modifies this
      ensures created == (store in old(objectStores) && name !in old(objectStores)[store].indexes)
      ensures objectStores == if created
        then old(objectStores)[store := old(objectStores)[store].(indexes := old(objectStores)[store].indexes[name := keyPath])]
        else old(objectStores)
      ensures version == old(version)
    {
      created := store in objectStores && name !in objectStores[store].indexes;
      if created {
        var s := objectStores[store];
        objectStores := objectStores[store := s.(indexes := s.indexes[name := keyPath])];
      }
    }

    /** The `upgrade` callback: create each missing store with its key path and indexes. */
    method Upgrade()
      modifies this
      ensures objectStores == Upgraded(old(objectStores))
      ensures version == old(version)
    {
      ghost var s0 := objectStores;
      if Inventory !in objectStores {
        var _ := CreateObjectStore(Inventory, "id");
        var _ := CreateIndex(Inventory, "name", "name");
        var _ := CreateIndex(Inventory, "category", "category");
      }
      ghost var s1 := objectStores;
      assert s1 == if Inventory in s0 then s0 else s0[Inventory := InventorySchema];
      if PurchaseOrders !in objectStores {
        var _ := CreateObjectStore(PurchaseOrders, "id");
        var _ := CreateIndex(PurchaseOrders, "orderDate", "orderDate");
      }
      assert objectStores == if PurchaseOrders in s1 then s1 else s1[PurchaseOrders := PurchaseOrdersSchema];
      if Settings !in objectStores {
        var _ := CreateObjectStore(Settings, "key");
      }
    }

    /**
     * `openDB("office_inventory", 1, { upgrade })`: a database older than version 1
     * is upgraded and moved to version 1; a newer one is refused (the engine's
     * VersionError); one at version 1 is opened as it is.
     */
    method Open() returns (ok: bool)
      requires Valid()
      modifies this
      ensures Valid()
      ensures ok == (old(version) <= SchemaVersion)
      ensures ok ==> version == SchemaVersion && {Inventory, PurchaseOrders, Settings} <= objectStores.Keys
      ensures old(version) < SchemaVersion ==> objectStores == Upgraded(old(objectStores))
      ensures old(version) >= SchemaVersion ==> version == old(version) && objectStores == old(objectStores)
    {
      if version > SchemaVersion {
        return false;
      }
      if version < SchemaVersion {
        Upgrade();
        version := SchemaVersion;
      }
      return true;
    }
  }

  /** `getDB` is called before every store operation: opening a second time changes nothing. */
  method OpenTwice(db: Database) returns (first: bool, second: bool)
    requires db.Valid() && db.version == 0
    modifies db
    ensures first && second
    ensures db.objectStores == Upgraded(old(db.objectStores))
  {
    first := db.Open();
    ghost var afterFirst := db.objectStores;
    second := db.Open();
    assert db.objectStores == afterFirst;
  }
}
