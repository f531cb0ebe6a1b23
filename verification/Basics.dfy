/** What several parts of the repository have in common: optional results, bytes as numbers, joining pieces. */
module Basics {
  datatype Option<T> = None | Some(value: T)

  type byte = x: int | 0 <= x < 256

  const TWO32 := 0x1_0000_0000

  /** A big-endian number. */
  function Value(s: seq<byte>): nat {
    if s == [] then 0 else 256 * Value(s[..|s| - 1]) + s[|s| - 1]
  }

  function Concat<T>(parts: seq<seq<T>>): seq<T> {
    if parts == [] then [] else Concat(parts[..|parts| - 1]) + parts[|parts| - 1]
  }

  /** Whole turns around a modulus do not show. */
  lemma WholeTurns(x: int, q: int, m: nat)
    requires m > 0
    ensures (x + m * q) % m == x % m
  {
    var k, k' := x / m + q, (x + m * q) / m;
    assert m * k == m * (x / m) + m * q;
    if k < k' {
      Stretch(m, k' - k);
    } else if k' < k {
      Stretch(m, k - k');
    }
  }

  lemma Stretch(m: nat, k: int)
    requires k >= 1
    ensures m * k >= m
  {
  }
}
