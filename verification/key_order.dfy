/**
 * The order in which an IndexedDB object store hands out its records: `getAll`
 * returns the records in ascending order of their (string) keys, compared
 * character by character, a proper prefix sorting first.
 */
module KeyOrder {

  /** `a` sorts strictly before `b`. */
  predicate Below(a: string, b: string) {
    if |a| == 0 then |b| > 0
    else |b| > 0 && (a[0] < b[0] || (a[0] == b[0] && Below(a[1..], b[1..])))
  }

  lemma {:induction false} BelowIrreflexive(a: string)
    ensures !Below(a, a)
  {
    if |a| > 0 { BelowIrreflexive(a[1..]); }
  }

  lemma {:induction false} BelowAsymmetric(a: string, b: string)
    requires Below(a, b)
    ensures !Below(b, a)
  {
    if |a| > 0 && |b| > 0 && a[0] == b[0] { BelowAsymmetric(a[1..], b[1..]); }
  }

  lemma {:induction false} BelowTransitive(a: string, b: string, c: string)
    requires Below(a, b) && Below(b, c)
    ensures Below(a, c)
  {
    if |a| > 0 && a[0] == b[0] && b[0] == c[0] { BelowTransitive(a[1..], b[1..], c[1..]); }
  }

  lemma {:induction false} BelowTotal(a: string, b: string)
    ensures a == b || Below(a, b) || Below(b, a)
  {
    if |a| > 0 && |b| > 0 && a[0] == b[0] {
      BelowTotal(a[1..], b[1..]);
      if a[1..] == b[1..] { assert a == [a[0]] + a[1..] && b == [b[0]] + b[1..]; }
    }
  }

  /** `k` is the least key of `s`. */
  predicate IsLeast(k: string, s: set<string>) {
    k in s && forall j :: j in s && j != k ==> Below(k, j)
  }

  lemma {:induction false} LeastExists(s: set<string>)
    requires s != {}
    ensures exists k :: IsLeast(k, s)
    decreases |s|
  {
    var x :| x in s;
    var rest := s - {x};
    if rest == {} {
      assert s == {x};
      assert IsLeast(x, s);
    } else {
      LeastExists(rest);
      var m :| IsLeast(m, rest);
      BelowTotal(x, m);
      if Below(x, m) {
        forall j | j in s && j != x ensures Below(x, j) {
          if j != m { BelowTransitive(x, m, j); }
        }
        assert IsLeast(x, s);
      } else {
        assert IsLeast(m, s);
      }
    }
  }

  lemma LeastUnique(s: set<string>)
    ensures forall k1, k2 :: IsLeast(k1, s) && IsLeast(k2, s) ==> k1 == k2
  {
    forall k1, k2 | IsLeast(k1, s) && IsLeast(k2, s) ensures k1 == k2 {
      if k1 != k2 { BelowAsymmetric(k1, k2); }
    }
  }

  /** The least key of a non-empty set. */
  function Least(s: set<string>): (k: string)
    requires s != {}
    ensures IsLeast(k, s)
  {
    LeastExists(s);
    LeastUnique(s);
    var k :| IsLeast(k, s);
    k
  }

  /** The keys of `s` in the order `getAll` visits them: each key once, least first. */
  function AscendingKeys(s: set<string>): (ks: seq<string>)
    ensures |ks| == |s|
    ensures forall k :: k in ks <==> k in s
    decreases |s|
  {
    if s == {} then []
    else
      var k := Least(s);
      [k] + AscendingKeys(s - {k})
  }

  /** Each key of `ks` sorts strictly before every later one. */
  predicate StrictlyAscending(ks: seq<string>) {
    forall i, j :: 0 <= i < j < |ks| ==> Below(ks[i], ks[j]) && ks[i] != ks[j]
  }

  /** A key below every key of a strictly ascending sequence may go in front of it. */
  lemma AscendingCons(k: string, rest: seq<string>)
    requires StrictlyAscending(rest)
    requires forall x :: x in rest ==> Below(k, x) && x != k
    ensures StrictlyAscending([k] + rest)
  {
    var ks := [k] + rest;
    forall i, j | 0 <= i < j < |ks| ensures Below(ks[i], ks[j]) && ks[i] != ks[j] {
      assert ks[j] == rest[j - 1];
      if i > 0 { assert ks[i] == rest[i - 1]; }
    }
  }

  /** The listing is strictly ascending, hence free of repeats. */
  lemma {:induction false} AscendingKeysSorted(s: set<string>)
    ensures StrictlyAscending(AscendingKeys(s))
    decreases |s|
  {
    if s != {} {
      var k := Least(s);
      AscendingKeysSorted(s - {k});
      AscendingCons(k, AscendingKeys(s - {k}));
    }
  }

  /** Two positions of the listing hold different keys. */
  lemma AscendingKeysDistinct(s: set<string>, i: nat, j: nat)
    requires i < |AscendingKeys(s)| && j < |AscendingKeys(s)| && i != j
    ensures AscendingKeys(s)[i] != AscendingKeys(s)[j]
  {
    AscendingKeysSorted(s);
  }

  /** `getAll`: the values of a store in ascending key order. */
  function InKeyOrder<R>(m: map<string, R>): (r: seq<R>)
    ensures |r| == |m.Keys|
    ensures forall i :: 0 <= i < |r| ==> r[i] == m[AscendingKeys(m.Keys)[i]]
  {
    var ks := AscendingKeys(m.Keys);
    seq(|ks|, i requires 0 <= i < |ks| => m[ks[i]])
  }
}
