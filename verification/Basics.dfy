/** Datatypes and small numeric helpers shared by every component of the model. */
module Basics {

  datatype Option<+T> = None | Some(value: T)

  /** Milliseconds since the epoch; the program stores them as fixed-width text. */
  type Time = int

  /** The dedupe identity of a review: one row per repository, pull request and head commit. */
  datatype Key = Key(repo: string, pr: nat, sha: string)

  predicate SamePr(a: Key, b: Key) {
    a.repo == b.repo && a.pr == b.pr
  }

  function Min(a: int, b: int): int {
    if a <= b then a else b
  }

  function Max(a: int, b: int): int {
    if a >= b then a else b
  }

  function Pow2(n: nat): (p: nat)
    ensures 1 <= p
  {
    if n == 0 then 1 else 2 * Pow2(n - 1)
  }
}
