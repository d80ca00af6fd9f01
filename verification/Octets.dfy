/** Bytes, and the search for one sequence in another. */
module Octets {
  type byte = x: int | 0 <= x < 256

  type Bytes = seq<byte>

  predicate OccursAt<T(==)>(s: seq<T>, t: seq<T>, i: nat) { i + |t| <= |s| && s[i..i + |t|] == t }

  predicate Contains<T(==)>(s: seq<T>, t: seq<T>) { exists i: nat | i <= |s| :: OccursAt(s, t, i) }
}
