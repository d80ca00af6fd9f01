/** A window of slots stored in a circular array. */
module RingStore {
  import opened Division
  import opened Serial
  import B = SampleBuffer

  type Slot = B.Slot

  /** What ring position `j` holds when the window `w` starts at position `tail`. */
  function SlotAt(w: seq<Slot>, tail: nat, n: nat, j: nat): Slot
    requires tail < n && j < n
  {
    var i := if j >= tail then j - tail else j + n - tail;
    if i < |w| then w[i] else B.Empty
  }

  /** The ring holds the window `w` from position `tail` on and is empty elsewhere. */
  predicate Holds(ring: seq<Slot>, w: seq<Slot>, tail: nat) {
    && tail < |ring| && |w| <= |ring|
    && forall j | 0 <= j < |ring| :: ring[j] == SlotAt(w, tail, |ring|, j)
  }

  function Next(j: nat, n: nat): nat
    requires j < n
  {
    if j < n - 1 then j + 1 else 0
  }

  lemma AroundAround(base: nat, i: nat, j: nat, n: nat)
    requires base < n && i < n && i + j <= n
    ensures Around(Around(base, i, n), j, n) == Around(base, i + j, n)
  {}

  lemma AroundZero(base: nat, n: nat)
    requires base < n
    ensures Around(base, 0, n) == base
  {}

  lemma AroundApart(base: nat, i: nat, j: nat, n: nat)
    requires base < n && i < n && j < n
    ensures Around(base, i, n) == Around(base, j, n) <==> i == j
  {}

  lemma AroundNext(base: nat, i: nat, n: nat)
    requires base < n && i < n
    ensures Next(Around(base, i, n), n) == Around(base, i + 1, n)
  {}

  lemma HoldsAt(ring: seq<Slot>, w: seq<Slot>, tail: nat, i: nat)
    requires Holds(ring, w, tail) && i < |w|
    ensures ring[Around(tail, i, |ring|)] == w[i]
  {}

  lemma HoldsSet(ring: seq<Slot>, w: seq<Slot>, tail: nat, i: nat, s: Slot)
    requires Holds(ring, w, tail) && i < |w|
    ensures Holds(ring[Around(tail, i, |ring|) := s], w[i := s], tail)
  {}

  /** Slots may be taken in at either end of the window: they are empty. */
  lemma HoldsMore(ring: seq<Slot>, w: seq<Slot>, tail: nat, k: nat)
    requires Holds(ring, w, tail) && |w| + k <= |ring|
    ensures Holds(ring, w + B.Empties(k), tail)
    ensures Holds(ring, B.Empties(k) + w, if k == |ring| then tail else Around(tail, |ring| - k, |ring|))
  {}

  /** A slot written `k` places after the end of the window. */
  lemma HoldsAppend(ring: seq<Slot>, w: seq<Slot>, tail: nat, k: nat, s: Slot)
    requires Holds(ring, w, tail) && |w| + k < |ring|
    ensures Holds(ring[Around(tail, |w| + k, |ring|) := s], w + B.Empties(k) + [s], tail)
  {
    HoldsMore(ring, w, tail, k + 1);
    HoldsSet(ring, w + B.Empties(k + 1), tail, |w| + k, s);
    assert (w + B.Empties(k + 1))[|w| + k := s] == w + B.Empties(k) + [s];
  }

  /** An empty first slot may be left out. */
  lemma HoldsLess(ring: seq<Slot>, w: seq<Slot>, tail: nat)
    requires Holds(ring, w, tail) && w != [] && w[0].Empty?
    ensures Holds(ring, w[1..], Next(tail, |ring|))
  {}

  /** Clearing the first slot takes it out of the window. */
  lemma HoldsPop(ring: seq<Slot>, w: seq<Slot>, tail: nat)
    requires Holds(ring, w, tail) && w != []
    ensures Holds(ring[tail := B.Empty], w[1..], Next(tail, |ring|))
  {
    HoldsSet(ring, w, tail, 0, B.Empty);
    HoldsLess(ring[tail := B.Empty], w[0 := B.Empty], tail);
    assert w[0 := B.Empty][1..] == w[1..];
  }

  lemma HoldsNothing(ring: seq<Slot>, tail: nat)
    requires Holds(ring, [], tail)
    ensures Holds(ring, [], 0)
  {}

  /** The remainder that reduces an index sum to a ring position. */
  function Mod(x: nat, n: nat): (r: nat)
    requires n > 0
    ensures r < n
  {
    x % n
  }

  lemma ModAround(base: nat, i: nat, n: nat)
    requires base < n && i < n
    ensures Mod(base + i, n) == Around(base, i, n)
  {
    var x := base + i;
    if x < n {
      QuotientUnique(x, n, 0, x);
    } else {
      QuotientUnique(x, n, 1, x - n);
    }
  }

  /** The test of lines 404-414: a position lies outside the stretch from tail to head. */
  predicate Outside(tail: nat, head: nat, index: nat) {
    if tail < head then index < tail || index > head else index < tail && index > head
  }

  /** The position `offset` places before the head, and when it lies before the tail. */
  lemma Backwards(tail: nat, len: nat, n: nat, offset: nat)
    requires tail < n && 0 < len < n && 2 <= offset < n - 1
    ensures var head := Around(tail, len, n);
            var index := if head >= offset then head - offset else head + n - offset;
            && (Outside(tail, head, index) <==> offset > len)
            && (if offset > len then index == Around(tail, n - (offset - len), n) && head == Around(index, offset, n)
                else index == Around(tail, len - offset, n))
  {}
}
