/** Small shared vocabulary: optional values, bytes and integer helpers. */
module Basics {
  datatype Option<+T> = None | Some(value: T)

  function Max(a: int, b: int): int {
    if a < b then b else a
  }

  function Min(a: int, b: int): int {
    if a < b then a else b
  }

  /** The shard that a key belongs to; `hash` is any fixed function. */
  function ShardOf(hash: string -> nat, shards: nat, key: string): (i: nat)
    requires shards >= 1
    ensures i < shards
  {
    hash(key) % shards
  }

  type byte = x: int | 0 <= x < 256

  function Zeros(n: nat): seq<byte> {
    seq(n, _ => 0)
  }

  lemma MultiplyKeepsOrder(a: nat, b: nat, d: nat)
    requires a <= b
    ensures a * d <= b * d
  {
  }

  /** A quotient is determined by the interval its dividend lies in. */
  lemma QuotientIs(n: nat, d: nat, q: nat)
    requires d > 0 && q * d <= n < q * d + d
    ensures n / d == q && n % d == n - q * d
  {
    var p := n / d;
    assert n == d * p + n % d;
    if p < q { MultiplyKeepsOrder(p + 1, q, d); }
    if q < p { MultiplyKeepsOrder(q + 1, p, d); }
  }
}
