/** Optional values, standing in for the source's `null` / `undefined`. */
module Basics {

  datatype Option<+T> = None | Some(value: T)

  function Max(a: int, b: int): int {
    if a < b then b else a
  }

  lemma ModBelow(k: nat, n: nat)
    requires k < n
    ensures k % n == k
  {
  }

  /** Splitting a count of seconds into whole minutes and the seconds left over. */
  lemma MinutesSeconds(s: nat)
    ensures s / 60 * 60 + s % 60 == s && 0 <= s % 60 < 60
  {
  }
}
