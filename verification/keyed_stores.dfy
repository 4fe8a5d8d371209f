/**
 * Object stores as keyed maps: each store holds records under the value of its
 * key path (`id` for inventory items and purchase orders, `key` for settings,
 * client/src/localdb/indexedDb.js:7, 12, 16), so `put` is an upsert on that field.
 */
module KeyedStores {
  import opened KeyOrder
  import opened InventoryRecords
  import opened OrderRecords

  /** A settings record `{ key, value }`. */
  datatype Setting = Setting(key: string, value: int)

  function ItemKey(it: Item): string { it.id }
  function OrderKey(po: Order): string { po.id }
  function SettingKey(s: Setting): string { s.key }

  /** Every record sits under its own key. */
  ghost predicate Keyed<R>(m: map<string, R>, key: R -> string) {
    forall k :: k in m ==> key(m[k]) == k
  }

  /** A second `put` under the same key replaces the first. */
  lemma PutTwice<R>(m: map<string, R>, k: string, x: R, y: R)
    ensures m[k := x][k := y] == m[k := y]
  {
  }

  /** The keys of a sequence of records. */
  ghost function KeysOf<R>(rs: seq<R>, key: R -> string): set<string> {
    set x | x in rs :: key(x)
  }

  /** `put` each record of `rs` in turn: a later record with the same key overwrites an earlier one. */
  function PutAll<R>(m: map<string, R>, rs: seq<R>, key: R -> string): map<string, R> {
    if rs == [] then m
    else
      var last := rs[|rs| - 1];
      var init := rs[..|rs| - 1];
      PutAll(m, init, key)[key(last) := last]
  }

  /** No record after position `i` of `rs` has the key of `rs[i]`: it is the last one put under that key. */
  ghost predicate LastPutAt<R>(rs: seq<R>, i: int, key: R -> string) {
    0 <= i < |rs| && forall j :: i < j < |rs| ==> key(rs[j]) != key(rs[i])
  }

  /**
   * After the puts the store holds the old keys and the keys of `rs`; a key
   * of `rs` holds the last record put under it, whatever was stored before;
   * keys `rs` does not mention keep their records; and records stay under
   * their own keys.
   */
  lemma PutAllFacts<R>(m: map<string, R>, rs: seq<R>, key: R -> string)
    ensures PutAll(m, rs, key).Keys == m.Keys + KeysOf(rs, key)
    ensures forall i :: LastPutAt(rs, i, key) ==> key(rs[i]) in PutAll(m, rs, key) && PutAll(m, rs, key)[key(rs[i])] == rs[i]
    ensures forall k :: k in m && k !in KeysOf(rs, key) ==> PutAll(m, rs, key)[k] == m[k]
    ensures forall x :: x in rs ==> key(x) in PutAll(m, rs, key)
    ensures Keyed(m, key) ==> Keyed(PutAll(m, rs, key), key)
  {
    PutAllKeeps(m, rs, key);
    PutAllLastWins(m, rs, key);
  }

  /** The keys after the puts, the records of keys `rs` does not mention, and keyedness. */
  lemma {:induction false} PutAllKeeps<R>(m: map<string, R>, rs: seq<R>, key: R -> string)
    ensures PutAll(m, rs, key).Keys == m.Keys + KeysOf(rs, key)
    ensures forall k :: k in m && k !in KeysOf(rs, key) ==> PutAll(m, rs, key)[k] == m[k]
    ensures forall x :: x in rs ==> key(x) in PutAll(m, rs, key)
    ensures Keyed(m, key) ==> Keyed(PutAll(m, rs, key), key)
  {
    if rs != [] {
      var init := rs[..|rs| - 1];
      var last := rs[|rs| - 1];
      PutAllKeeps(m, init, key);
      assert rs == init + [last];
      assert KeysOf(rs, key) == KeysOf(init, key) + {key(last)};
    }
  }

  /** Each key of `rs` ends up holding the last record put under it. */
  lemma {:induction false} PutAllLastWins<R>(m: map<string, R>, rs: seq<R>, key: R -> string)
    ensures forall i :: LastPutAt(rs, i, key) ==> key(rs[i]) in PutAll(m, rs, key) && PutAll(m, rs, key)[key(rs[i])] == rs[i]
  {
    if rs != [] {
      var init := rs[..|rs| - 1];
      PutAllLastWins(m, init, key);
      forall i | LastPutAt(rs, i, key) && i < |init|
        ensures key(rs[i]) in PutAll(m, rs, key) && PutAll(m, rs, key)[key(rs[i])] == rs[i]
      {
        assert key(rs[|rs| - 1]) != key(rs[i]);
        assert LastPutAt(init, i, key) by {
          forall j | i < j < |init| ensures key(init[j]) != key(init[i]) {
            assert init[j] == rs[j];
          }
        }
      }
    }
  }

  /** One more `put` after the others. */
  lemma PutAllSnoc<R>(m: map<string, R>, rs: seq<R>, x: R, key: R -> string)
    ensures PutAll(m, rs + [x], key) == PutAll(m, rs, key)[key(x) := x]
  {
    assert (rs + [x])[..|rs|] == rs;
  }

  /** The records of `m` at keys `ks`, in that order. */
  function ValuesAt<R>(m: map<string, R>, ks: seq<string>): (r: seq<R>)
    requires forall i :: 0 <= i < |ks| ==> ks[i] in m
    ensures |r| == |ks| && forall i :: 0 <= i < |ks| ==> r[i] == m[ks[i]]
  {
    seq(|ks|, i requires 0 <= i < |ks| => m[ks[i]])
  }

  /** Putting the records found at distinct keys into an empty store rebuilds the store restricted to those keys. */
  lemma {:induction false} PutAllRebuilds<R>(m: map<string, R>, ks: seq<string>, key: R -> string)
    requires Keyed(m, key)
    requires forall i :: 0 <= i < |ks| ==> ks[i] in m
    requires forall i, j :: 0 <= i < j < |ks| ==> ks[i] != ks[j]
    ensures PutAll(map[], ValuesAt(m, ks), key) == map k | k in ks :: m[k]
  {
    if ks != [] {
      var init := ks[..|ks| - 1];
      var last := ks[|ks| - 1];
      PutAllRebuilds(m, init, key);
      assert ValuesAt(m, ks)[..|ks| - 1] == ValuesAt(m, init);
      assert forall k :: k in ks <==> k in init || k == last;
    }
  }

  /** `put`-ing everything `getAll` returned into an empty store reproduces the store. */
  lemma RestoreListing<R>(m: map<string, R>, key: R -> string)
    requires Keyed(m, key)
    ensures PutAll(map[], InKeyOrder(m), key) == m
  {
    var ks := AscendingKeys(m.Keys);
    assert InKeyOrder(m) == ValuesAt(m, ks);
    AscendingKeysSorted(m.Keys);
    PutAllRebuilds(m, ks, key);
  }
}
