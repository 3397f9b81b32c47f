/**
 * Canonical key of an unordered pair of user ids. The friendships table keeps
 * one row per pair, stored as (user_low, user_high); both the server and the
 * database module compute that key, each with its own helper.
 */
module PairIdentity {

  /**
   * The server's `pair(x, y)`: the smaller id first. The result is ordered and
   * holds exactly the two given ids (one id twice when x == y), which fixes it.
   */
  function Pair(x: int, y: int): (p: (int, int))
    ensures p.0 <= p.1
    ensures {p.0, p.1} == {x, y}
  {
    if x < y then (x, y) else (y, x)
  }

  /** Calling direction does not matter: both parties name the same row. */
  lemma PairCommutes(x: int, y: int)
    ensures Pair(x, y) == Pair(y, x)
  {
  }

  /** A key is canonical when it is the key `Pair` gives for its own members. */
  lemma PairOfCanonicalKey(k: (int, int))
    requires k.0 <= k.1
    ensures Pair(k.0, k.1) == k && Pair(k.1, k.0) == k
  {
  }

  function Min(a: int, b: int): int { if a <= b then a else b }
  function Max(a: int, b: int): int { if a <= b then b else a }

  /**
   * The database module's `pair(u1, u2)`, written with min and max. It is the
   * same key as the server's helper for every pair of ids.
   */
  function MinMaxPair(u1: int, u2: int): (p: (int, int))
    ensures p == Pair(u1, u2)
  {
    (Min(u1, u2), Max(u1, u2))
  }
}
