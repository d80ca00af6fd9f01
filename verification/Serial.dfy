/** Fixed-width unsigned arithmetic and the serial-number order on RTP sequence
    numbers (section 5.1 of RFC 3550, section 3.2 of RFC 1982). */
module Serial {
  type u16 = x: int | 0 <= x < 0x1_0000
  type u32 = x: int | 0 <= x < 0x1_0000_0000

  /** 16-bit addition. */
  function Add(a: u16, b: u16): u16 { if a + b < 0x1_0000 then a + b else a + b - 0x1_0000 }

  /** 16-bit subtraction. */
  function Sub(a: u16, b: u16): u16 { if a >= b then a - b else a - b + 0x1_0000 }

  /** 32-bit subtraction. */
  function Sub32(a: u32, b: u32): u32 { if a >= b then a - b else a - b + 0x1_0000_0000 }

  /** The written-out forms are the machine operations: truncation to 16 or 32 bits. */
  lemma Truncation(a: u16, b: u16, x: u32, y: u32)
    ensures Add(a, b) == (a + b) % 0x1_0000
    ensures Sub(a, b) == (a - b) % 0x1_0000
    ensures Sub32(x, y) == (x - y) % 0x1_0000_0000
  {}

  /** How far forward `b` lies from `a`. */
  function Fwd(a: u16, b: u16): u16 { Sub(b, a) }

  /** The test `(a - b) & 0x8000 == 0`: `a` is at or ahead of `b` by less than half the range. */
  predicate AtOrAfter(a: u16, b: u16) { Sub(a, b) < 0x8000 }

  /** Position `i` places after `base` on a ring of `n` places. */
  function Around(base: nat, i: nat, n: nat): nat
    requires base < n && i <= n
  {
    if base + i < n then base + i else base + i - n
  }
}
