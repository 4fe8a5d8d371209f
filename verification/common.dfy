/** Small value types shared by every module of the model. */
module Common {

  /** A JavaScript value that may be absent (`undefined` / `null`) or present. */
  datatype Option<+T> = None | Some(value: T) {

    /** The present value, or `default` when absent (JavaScript's nullish default). */
    function GetOr(default: T): T {
      match this
      case Some(v) => v
      case None => default
    }
  }

  /**
   * One field of a patch that an object spread copies over a record: the key is
   * not in the patch (`Keep`), it holds a value (`Put`), or it holds `null` or
   * `undefined` (`Clear`), which the spread writes over the current value too.
   */
  datatype Spread<+T> = Keep | Put(value: T) | Clear {

    /** The field after the spread, given its current value. */
    function Over(cur: Option<T>): Option<T> {
      match this
      case Keep => cur
      case Put(v) => Some(v)
      case Clear => None
    }
  }

  function Max(a: int, b: int): int {
    if a < b then b else a
  }

  /** `r` can be obtained from `s` by deleting elements, without reordering. */
  predicate IsSubsequence<T(==)>(r: seq<T>, s: seq<T>) {
    if r == [] then true
    else if s == [] then false
    else if r[0] == s[0] then IsSubsequence(r[1..], s[1..])
    else IsSubsequence(r, s[1..])
  }

  /** A subsequence of the tail of `s` is a subsequence of `s`. */
  lemma {:induction false} SubsequenceSkip<T>(r: seq<T>, s: seq<T>)
    requires s != [] && IsSubsequence(r, s[1..])
    ensures IsSubsequence(r, s)
    decreases |s|
  {
    if r != [] && r[0] == s[0] {
      var t := s[1..];
      SubsequenceTail(r, t);
      SubsequenceSkip(r[1..], t);
    }
  }

  /** Dropping the head of both keeps the relation. */
  lemma {:induction false} SubsequenceTail<T>(r: seq<T>, s: seq<T>)
    requires r != [] && IsSubsequence(r, s)
    ensures IsSubsequence(r[1..], s[1..])
    decreases |s|
  {
    if r[0] != s[0] {
      var t := s[1..];
      SubsequenceTail(r, t);
      SubsequenceSkip(r[1..], t);
    }
  }
}
