/** Small notions that several modules share. */
module Basics {

  newtype Byte = x: int | 0 <= x < 256

  function Min(a: int, b: int): int {
    if a < b then a else b
  }

  ghost predicate Distinct<T>(s: seq<T>) {
    forall i, j {:trigger s[i], s[j]} | 0 <= i < j < |s| :: s[i] != s[j]
  }

  /** The sequence without its element at k. */
  function RemoveAt<T>(s: seq<T>, k: nat): (r: seq<T>)
    requires k < |s|
    ensures |r| == |s| - 1
  {
    s[..k] + s[k + 1..]
  }

  lemma RemoveAtElements<T>(s: seq<T>, k: nat)
    requires k < |s|
    ensures forall j | 0 <= j < |RemoveAt(s, k)| :: RemoveAt(s, k)[j] == s[if j < k then j else j + 1]
  {
  }

  lemma InRemoveAt<T>(s: seq<T>, k: nat, y: T)
    requires k < |s| && y != s[k]
    ensures y in RemoveAt(s, k) <==> y in s
  {
    if y in s {
      var j :| 0 <= j < |s| && s[j] == y;
      assert RemoveAt(s, k)[if j < k then j else j - 1] == y;
    }
  }
}
