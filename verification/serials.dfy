/**
 * What `ensureInventorySerials` (client/src/localdb/store.js:102-121) computes,
 * stated on the items in the order `getAll` lists them.
 */
module Serials {
  import opened Common
  import opened InventoryRecords
  import opened KeyOrder
  import opened KeyedStores

  /** An item is back-filled when it lacks a serial or a display id. */
  predicate NeedsSerial(it: Item) {
    it.serial.None? || it.display_id.None?
  }

  /** A patch that clears the serial or the display id leaves the item for the next repair to stamp. */
  lemma ClearedSerialNeedsRepair(cur: Item, p: ItemPatch)
    requires p.serial.Clear? || p.display_id.Clear?
    ensures NeedsSerial(PatchItem(cur, p))
  {
  }

  /** The largest numeric serial among `items`, or 0 (the `maxSerial` of the first loop). */
  function MaxSerial(items: seq<Item>): (m: int)
    ensures m >= 0
    ensures forall i :: 0 <= i < |items| && items[i].serial.Some? ==> items[i].serial.value <= m
    ensures m == 0 || exists i :: 0 <= i < |items| && items[i].serial == Some(m)
  {
    if items == [] then 0
    else
      var last := items[|items| - 1];
      var m := MaxSerial(items[..|items| - 1]);
      if last.serial.Some? && last.serial.value > m then last.serial.value else m
  }

  /** How many of `items` need a serial. */
  function CountNeeding(items: seq<Item>): (n: nat)
    ensures n <= |items|
  {
    if items == [] then 0
    else CountNeeding(items[..|items| - 1]) + (if NeedsSerial(items[|items| - 1]) then 1 else 0)
  }

  /**
   * Gives `it` serial `n` and display id `pad(n)`. The store formats display
   * ids with `Pad4`; the facts below hold for any formatting.
   */
  function Stamp(it: Item, n: int, pad: int -> string): Item {
    it.(serial := Some(n), display_id := Some(pad(n)))
  }

  /**
   * The items after back-filling, when the counter stood at `c` before the
   * second loop: each item that needs a serial takes the next counter value.
   */
  function Backfill(items: seq<Item>, c: int, pad: int -> string): (r: seq<Item>)
    ensures |r| == |items|
  {
    if items == [] then []
    else
      var init := items[..|items| - 1];
      var last := items[|items| - 1];
      Backfill(init, c, pad) + [if NeedsSerial(last) then Stamp(last, c + CountNeeding(init) + 1, pad) else last]
  }

  lemma {:induction false} CountNeedingPrefix(items: seq<Item>, i: nat, j: nat)
    requires i <= j <= |items|
    ensures CountNeeding(items[..i]) <= CountNeeding(items[..j])
    ensures i < j && NeedsSerial(items[i]) ==> CountNeeding(items[..i]) < CountNeeding(items[..j])
    decreases j - i
  {
    if i < j {
      CountNeedingPrefix(items, i, j - 1);
      assert items[..j][..j - 1] == items[..j - 1];
      if i == j - 1 { assert items[..j][j - 1] == items[i]; }
    }
  }

  lemma CountNeedingStep(items: seq<Item>, i: nat)
    requires i < |items|
    ensures CountNeeding(items[..i + 1]) == CountNeeding(items[..i]) + if NeedsSerial(items[i]) then 1 else 0
  {
    assert items[..i + 1][..i] == items[..i];
  }

  /** Position `j` of the back-filled list: stamped with `c + (needing items before j) + 1` when it needed a serial, else unchanged. */
  lemma {:induction false} BackfillAt(items: seq<Item>, c: int, j: nat, pad: int -> string)
    requires j < |items|
    ensures Backfill(items, c, pad)[j]
      == if NeedsSerial(items[j]) then Stamp(items[j], c + CountNeeding(items[..j]) + 1, pad) else items[j]
  {
    var init := items[..|items| - 1];
    var last := items[|items| - 1];
    var stamped := if NeedsSerial(last) then Stamp(last, c + CountNeeding(init) + 1, pad) else last;
    assert Backfill(items, c, pad) == Backfill(init, c, pad) + [stamped];
    if j < |items| - 1 {
      BackfillAt(init, c, j, pad);
      assert init[..j] == items[..j] && init[j] == items[j];
    } else {
      assert init == items[..j] && last == items[j];
    }
  }

  /** Back-filling keeps every item's `id` and gives every item a serial and a display id. */
  lemma BackfillComplete(items: seq<Item>, c: int, j: nat, pad: int -> string)
    requires j < |items|
    ensures Backfill(items, c, pad)[j].id == items[j].id
    ensures Backfill(items, c, pad)[j].serial.Some? && Backfill(items, c, pad)[j].display_id.Some?
  {
    BackfillAt(items, c, j, pad);
  }

  /** An item that already had both a serial and a display id is left exactly as it was. */
  lemma BackfillKeepsComplete(items: seq<Item>, c: int, j: nat, pad: int -> string)
    requires j < |items| && !NeedsSerial(items[j])
    ensures Backfill(items, c, pad)[j] == items[j]
  {
    BackfillAt(items, c, j, pad);
  }

  /**
   * Newly assigned serials are distinct, exceed every serial present before
   * (when the counter was raised to at least the largest of them), and do not
   * exceed the final counter `c + CountNeeding(items)`.
   */
  lemma BackfillFresh(items: seq<Item>, c: int, j: nat, k: nat, pad: int -> string)
    requires c >= MaxSerial(items)
    requires j < |items| && k < |items| && j != k
    requires NeedsSerial(items[j]) && NeedsSerial(items[k])
    ensures Backfill(items, c, pad)[j].serial.Some?
    ensures Backfill(items, c, pad)[j].serial != Backfill(items, c, pad)[k].serial
    ensures forall i :: 0 <= i < |items| && items[i].serial.Some? ==>
      items[i].serial.value < Backfill(items, c, pad)[j].serial.value
    ensures Backfill(items, c, pad)[j].serial.value <= c + CountNeeding(items)
  {
    var b := Backfill(items, c, pad);
    BackfillAt(items, c, j, pad);
    BackfillAt(items, c, k, pad);
    assert b[j].serial.value == c + CountNeeding(items[..j]) + 1;
    assert b[k].serial.value == c + CountNeeding(items[..k]) + 1;
    assert items[..|items|] == items;
    if j < k { CountNeedingPrefix(items, j, k); } else { CountNeedingPrefix(items, k, j); }
    CountNeedingPrefix(items, j + 1, |items|);
    CountNeedingPrefix(items, j, j + 1);
  }

  /** After back-filling, no item's serial exceeds the final counter. */
  lemma BackfillBounded(items: seq<Item>, c: int, j: nat, pad: int -> string)
    requires c >= MaxSerial(items) && j < |items|
    ensures Backfill(items, c, pad)[j].serial.Some?
    ensures Backfill(items, c, pad)[j].serial.value <= c + CountNeeding(items)
  {
    BackfillAt(items, c, j, pad);
    assert items[..|items|] == items;
    if NeedsSerial(items[j]) {
      CountNeedingPrefix(items, j + 1, |items|);
      CountNeedingPrefix(items, j, j + 1);
    }
  }

  /** Where a key's record sits in the `getAll` listing. */
  lemma KeyPosition(before: map<string, Item>, k: string) returns (j: nat)
    requires Keyed(before, ItemKey) && k in before
    ensures j < |InKeyOrder(before)| && InKeyOrder(before)[j] == before[k] && before[k].id == k
    ensures AscendingKeys(before.Keys)[j] == k
  {
    var ks := AscendingKeys(before.Keys);
    j :| 0 <= j < |ks| && ks[j] == k;
  }

  /** `after` holds the back-filled listing of `before`, each item under the key it was listed at. */
  ghost predicate IsRepairOf(before: map<string, Item>, after: map<string, Item>, c: int, pad: int -> string) {
    && after.Keys == before.Keys
    && forall j :: 0 <= j < |InKeyOrder(before)| ==>
         after[AscendingKeys(before.Keys)[j]] == Backfill(InKeyOrder(before), c, pad)[j]
  }

  /**
   * The store part-way through the second loop over the listing `items`, whose
   * `j`-th item sits under key `ks[j]`: the first `i` items are back-filled, the
   * rest are as they were.
   */
  ghost predicate RepairedUpTo(ks: seq<string>, items: seq<Item>, cur: map<string, Item>, c: int, i: nat, pad: int -> string) {
    && |ks| == |items|
    && forall j :: 0 <= j < |ks| ==> ks[j] in cur && cur[ks[j]] == if j < i then Backfill(items, c, pad)[j] else items[j]
  }

  lemma RepairedNothing(before: map<string, Item>, c: int, pad: int -> string)
    ensures RepairedUpTo(AscendingKeys(before.Keys), InKeyOrder(before), before, c, 0, pad)
  {
  }

  lemma RepairedEverything(before: map<string, Item>, cur: map<string, Item>, c: int, pad: int -> string)
    requires cur.Keys == before.Keys
    requires RepairedUpTo(AscendingKeys(before.Keys), InKeyOrder(before), cur, c, |InKeyOrder(before)|, pad)
    ensures IsRepairOf(before, cur, c, pad)
  {
  }

  /** A turn of the second loop that stamps the `i`-th listed item with the next counter value. */
  lemma RepairStamp(ks: seq<string>, items: seq<Item>, cur: map<string, Item>, c: int, i: nat, n: int, pad: int -> string)
    requires RepairedUpTo(ks, items, cur, c, i, pad) && i < |items| && NeedsSerial(items[i])
    requires forall j :: 0 <= j < |ks| && j != i ==> ks[j] != ks[i]
    requires n == c + CountNeeding(items[..i]) + 1
    ensures RepairedUpTo(ks, items, cur[ks[i] := Stamp(items[i], n, pad)], c, i + 1, pad)
  {
    BackfillAt(items, c, i, pad);
  }

  /** A turn of the second loop that passes over an item with both a serial and a display id. */
  lemma RepairSkip(ks: seq<string>, items: seq<Item>, cur: map<string, Item>, c: int, i: nat, pad: int -> string)
    requires RepairedUpTo(ks, items, cur, c, i, pad) && i < |items| && !NeedsSerial(items[i])
    ensures RepairedUpTo(ks, items, cur, c, i + 1, pad)
  {
    BackfillAt(items, c, i, pad);
  }

  /** After the repair every item has a serial and a display id, none above the final counter, and complete items are untouched. */
  lemma RepairCompletes(before: map<string, Item>, after: map<string, Item>, c: int, k: string, pad: int -> string)
    requires Keyed(before, ItemKey) && c >= MaxSerial(InKeyOrder(before))
    requires IsRepairOf(before, after, c, pad) && k in after
    ensures after[k].serial.Some? && after[k].display_id.Some?
    ensures after[k].serial.value <= c + CountNeeding(InKeyOrder(before))
    ensures !NeedsSerial(before[k]) ==> after[k] == before[k]
  {
    var items := InKeyOrder(before);
    var j := KeyPosition(before, k);
    assert after[k] == Backfill(items, c, pad)[j];
    BackfillComplete(items, c, j, pad);
    BackfillBounded(items, c, j, pad);
    if !NeedsSerial(before[k]) { BackfillKeepsComplete(items, c, j, pad); }
  }

  /** A serial assigned by back-filling exceeds the counter it started from. */
  lemma BackfillAboveCounter(items: seq<Item>, c: int, j: nat, pad: int -> string)
    requires j < |items| && NeedsSerial(items[j])
    ensures Backfill(items, c, pad)[j].serial.Some? && Backfill(items, c, pad)[j].serial.value > c
  {
    BackfillAt(items, c, j, pad);
  }

  /** Every serial in the store is at most the largest one in its listing. */
  lemma SerialAtMostMax(before: map<string, Item>, l: string)
    requires Keyed(before, ItemKey) && l in before && before[l].serial.Some?
    ensures before[l].serial.value <= MaxSerial(InKeyOrder(before))
  {
    var i := KeyPosition(before, l);
  }

  /** A newly assigned serial exceeds every serial held before the repair. */
  lemma RepairSerialIsNew(before: map<string, Item>, after: map<string, Item>, c: int, k: string, l: string, pad: int -> string)
    requires Keyed(before, ItemKey) && c >= MaxSerial(InKeyOrder(before))
    requires IsRepairOf(before, after, c, pad)
    requires k in before && l in before && NeedsSerial(before[k]) && before[l].serial.Some?
    ensures after[k].serial.Some? && after[k].serial.value > before[l].serial.value
  {
    var items := InKeyOrder(before);
    var j := KeyPosition(before, k);
    assert after[k] == Backfill(items, c, pad)[j];
    BackfillAboveCounter(items, c, j, pad);
    SerialAtMostMax(before, l);
  }

  /** Two items back-filled by the same repair receive different serials. */
  lemma RepairSerialsDistinct(before: map<string, Item>, after: map<string, Item>, c: int, k: string, l: string, pad: int -> string)
    requires Keyed(before, ItemKey) && c >= MaxSerial(InKeyOrder(before))
    requires IsRepairOf(before, after, c, pad)
    requires k in before && l in before && k != l && NeedsSerial(before[k]) && NeedsSerial(before[l])
    ensures after[k].serial != after[l].serial
  {
    var items := InKeyOrder(before);
    var j := KeyPosition(before, k);
    var i := KeyPosition(before, l);
    assert after[k] == Backfill(items, c, pad)[j];
    assert after[l] == Backfill(items, c, pad)[i];
    BackfillFresh(items, c, j, i, pad);
  }
}
