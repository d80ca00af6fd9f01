/** Conversion between durations in nanoseconds and ticks of a media clock, in 64-bit
    arithmetic. */
module Clock {
  import opened Division

  const SECOND := 1_000_000_000
  const WORD := 0x1_0000_0000_0000_0000
  const HALF := 0x8000_0000_0000_0000

  type TimeScale = t: int | 0 < t < 0x1_0000_0000 witness 1

  /** A duration that is not negative. */
  type Nanos = v: int | 0 <= v < HALF

  type u64 = v: int | 0 <= v < WORD

  /** The result of an unsigned 64-bit operation. */
  function Unsigned(x: int): u64 { x % WORD }

  /** The result of a signed 64-bit operation. */
  function Signed(x: int): (r: int)
    ensures -HALF <= r < HALF
  {
    var u := x % WORD;
    if u < HALF then u else u - WORD
  }

  /** `durationGoToMp4`, with every operation truncated to 64 bits. */
  function GoToMp4(v: Nanos, timeScale: TimeScale): u64 {
    var secs, dec := v / SECOND, v % SECOND;
    Unsigned(Unsigned(secs * timeScale) + Unsigned(dec * timeScale) / SECOND)
  }

  /** `durationMp4ToGo`, with every conversion and operation truncated to 64 bits. */
  function Mp4ToGo(v: u64, timeScale: TimeScale): int {
    var secs, dec := v / timeScale, v % timeScale;
    Signed(Signed(Signed(secs) * SECOND) + Signed(dec * SECOND) / timeScale)
  }

  /** The exact values, rounded down. */
  function Ticks(v: nat, timeScale: TimeScale): nat {
    Product(v, timeScale, 0);
    QuotientBounds(v * timeScale, SECOND);
    v * timeScale / SECOND
  }

  function Duration(v: nat, timeScale: TimeScale): nat {
    QuotientBounds(v * SECOND, timeScale);
    v * SECOND / timeScale
  }

  // ---------------------------------------------------------------- truncation

  lemma WordShift(x: int, q: int)
    ensures (x + WORD * q) % WORD == x % WORD
  {
    var r := x % WORD;
    assert x + WORD * q == WORD * (x / WORD + q) + r;
  }

  /** Truncating an intermediate sum does not change the truncated total. */
  lemma UnsignedSum(x: int, y: int)
    ensures Unsigned(Unsigned(x) + y) == Unsigned(x + y)
  {
    WordShift(Unsigned(x) + y, x / WORD);
  }

  lemma SignedSum(x: int, y: int)
    ensures Signed(Signed(x) + y) == Signed(x + y)
  {
    var q := (x - Signed(x)) / WORD;
    assert x == Signed(x) + WORD * q;
    WordShift(Signed(x) + y, q);
  }

  lemma SignedTimes(x: int, k: int)
    ensures Signed(Signed(x) * k) == Signed(x * k)
  {
    var q := (x - Signed(x)) / WORD;
    assert x == Signed(x) + WORD * q;
    assert x * k == Signed(x) * k + WORD * (q * k);
    WordShift(Signed(x) * k, q * k);
  }

  lemma UnsignedFits(x: nat)
    ensures Unsigned(x) == x <==> x < WORD
  {}

  lemma SignedFits(x: nat)
    ensures Signed(x) == x <==> x < HALF
  {}

  // ---------------------------------------------------------------- exactness

  lemma GoToMp4Wraps(v: Nanos, timeScale: TimeScale)
    ensures GoToMp4(v, timeScale) == Unsigned(Ticks(v, timeScale))
    ensures var secs, dec := v / SECOND, v % SECOND;
            && 0 <= secs * timeScale <= Ticks(v, timeScale)
            && 0 <= dec * timeScale < WORD
            && secs * timeScale + dec * timeScale / SECOND == Ticks(v, timeScale)
  {
    var secs, dec := v / SECOND, v % SECOND;
    SplitQuotient(v, timeScale, SECOND);
    Product(secs, timeScale, 0);
    QuotientBounds(dec * timeScale, SECOND);
    SmallProduct(dec, timeScale, SECOND);
    UnsignedFits(dec * timeScale);
    hide Unsigned;
    UnsignedSum(secs * timeScale, dec * timeScale / SECOND);
  }

  lemma SmallProduct(a: nat, b: nat, m: nat)
    requires a < m && m <= 0x1_0000_0000 && b < 0x1_0000_0000
    ensures 0 <= a * b <= m * b < WORD
  {
    Product(b, a, m - a);
    Product(b, m - a, 0);
    Product(m, b, 0x1_0000_0000 - b);
    Product(m, 0x1_0000_0000 - b, 0);
  }

  lemma Mp4ToGoWraps(v: u64, timeScale: TimeScale)
    ensures Mp4ToGo(v, timeScale) == Signed(Duration(v, timeScale))
    ensures var secs, dec := v / timeScale, v % timeScale;
            && 0 <= secs <= secs * SECOND <= Duration(v, timeScale)
            && 0 <= dec * SECOND < HALF
            && secs * SECOND + dec * SECOND / timeScale == Duration(v, timeScale)
  {
    var secs, dec := v / timeScale, v % timeScale;
    SplitQuotient(v, SECOND, timeScale);
    QuotientBounds(v, timeScale);
    QuotientBounds(dec * SECOND, timeScale);
    SignedFits(dec * SECOND);
    hide Signed;
    SignedTimes(secs, SECOND);
    SignedSum(secs * SECOND, dec * SECOND / timeScale);
  }

  /** Ticks are computed exactly if and only if the exact value fits 64 bits, and then no
      intermediate product is truncated either. */
  lemma TicksExactIff(v: Nanos, timeScale: TimeScale)
    ensures GoToMp4(v, timeScale) == Ticks(v, timeScale) <==> Ticks(v, timeScale) < WORD
    ensures Ticks(v, timeScale) < WORD <==>
              && 0 <= (v / SECOND) * timeScale < WORD && 0 <= (v % SECOND) * timeScale < WORD
              && (v / SECOND) * timeScale + (v % SECOND) * timeScale / SECOND < WORD
  {
    GoToMp4Wraps(v, timeScale);
    UnsignedFits(Ticks(v, timeScale));
    hide Unsigned, Ticks;
  }

  /** Durations are computed exactly if and only if the exact value fits signed 64 bits, and
      then no intermediate product is truncated either. */
  lemma DurationExactIff(v: u64, timeScale: TimeScale)
    ensures Mp4ToGo(v, timeScale) == Duration(v, timeScale) <==> Duration(v, timeScale) < HALF
    ensures Duration(v, timeScale) < HALF <==>
              && v / timeScale < HALF && 0 <= (v / timeScale) * SECOND < HALF && (v % timeScale) * SECOND < HALF
              && (v / timeScale) * SECOND + (v % timeScale) * SECOND / timeScale < HALF
  {
    Mp4ToGoWraps(v, timeScale);
    SignedFits(Duration(v, timeScale));
    hide Signed, Duration;
  }

  /** For scales up to 10^9 every duration fits. */
  lemma TicksFit(v: Nanos, timeScale: TimeScale)
    requires timeScale <= SECOND
    ensures Ticks(v, timeScale) <= v < WORD
  {
    Product(v, timeScale, SECOND - timeScale);
    Product(v, SECOND - timeScale, 0);
    QuotientBelow(v * timeScale, SECOND, v);
  }

  /** So do all tick counts below 2^32, whatever the scale. */
  lemma DurationsFit(v: u64, timeScale: TimeScale)
    requires v < 0x1_0000_0000
    ensures Duration(v, timeScale) < HALF
  {
    QuotientBounds(v * SECOND, timeScale);
  }

  /** A duration and a tick count that do not fit. */
  lemma SomeDoNotFit()
    ensures GoToMp4(9_000_000_000 * SECOND, 0xFFFF_FFFF) != Ticks(9_000_000_000 * SECOND, 0xFFFF_FFFF)
    ensures Mp4ToGo(0x100_0000_0000, 1) != Duration(0x100_0000_0000, 1)
  {
    TicksExactIff(9_000_000_000 * SECOND, 0xFFFF_FFFF);
    DurationExactIff(0x100_0000_0000, 1);
  }

  // ---------------------------------------------------------------- order and round trips

  lemma TicksMonotone(v: nat, w: nat, timeScale: TimeScale)
    requires v <= w
    ensures Ticks(v, timeScale) <= Ticks(w, timeScale)
  {
    Product(timeScale, v, w - v);
    Product(timeScale, w - v, 0);
    Product(v, timeScale, 0);
    QuotientMonotone(v * timeScale, w * timeScale, SECOND);
  }

  lemma DurationMonotone(v: nat, w: nat, timeScale: TimeScale)
    requires v <= w
    ensures Duration(v, timeScale) <= Duration(w, timeScale)
  {
    QuotientMonotone(v * SECOND, w * SECOND, timeScale);
  }

  /** Both conversions are monotone up to the largest argument whose result fits. */
  lemma Monotone(v: nat, w: nat, timeScale: TimeScale)
    requires v <= w
    ensures w < HALF && Ticks(w, timeScale) < WORD ==> GoToMp4(v, timeScale) <= GoToMp4(w, timeScale)
    ensures w < WORD && Duration(w, timeScale) < HALF ==> Mp4ToGo(v, timeScale) <= Mp4ToGo(w, timeScale)
  {
    hide GoToMp4, Mp4ToGo, Ticks, Duration;
    TicksMonotone(v, w, timeScale);
    DurationMonotone(v, w, timeScale);
    if w < HALF {
      TicksExactIff(v, timeScale);
      TicksExactIff(w, timeScale);
    }
    if w < WORD {
      DurationExactIff(v, timeScale);
      DurationExactIff(w, timeScale);
    }
  }

  /** Ticks to a duration and back: at most one tick is lost. */
  lemma TicksRoundTrip(v: u64, timeScale: TimeScale)
    requires timeScale <= SECOND && Duration(v, timeScale) < HALF
    ensures Mp4ToGo(v, timeScale) >= 0
    ensures v - 1 <= GoToMp4(Mp4ToGo(v, timeScale), timeScale) <= v
  {
    hide GoToMp4, Mp4ToGo;
    DurationExactIff(v, timeScale);
    var d := Mp4ToGo(v, timeScale);
    TicksExactIff(d, timeScale);
    TicksFit(d, timeScale);
    QuotientBounds(v * SECOND, timeScale);
    var x := d * timeScale;
    assert v * SECOND - timeScale < x <= v * SECOND;
    QuotientBelow(x, SECOND, v);
    QuotientBounds(x, SECOND);
  }

  /** A duration to ticks and back: what is lost is less than one tick and one nanosecond. */
  lemma DurationRoundTrip(v: Nanos, timeScale: TimeScale)
    requires Ticks(v, timeScale) < WORD
    ensures var back := Mp4ToGo(GoToMp4(v, timeScale), timeScale);
            0 <= back <= v && timeScale * (v - back) < SECOND + timeScale
  {
    hide GoToMp4, Mp4ToGo;
    TicksExactIff(v, timeScale);
    var t: int := Ticks(v, timeScale);
    DurationLoss(v, t, Duration(t, timeScale), timeScale);
    DurationExactIff(t, timeScale);
  }

  lemma DurationLoss(v: nat, t: nat, back: nat, timeScale: TimeScale)
    requires t == Ticks(v, timeScale) && back == Duration(t, timeScale)
    ensures back <= v && timeScale * (v - back) < SECOND + timeScale
  {
    var x: int, y: int, lost: int := v * timeScale, t * SECOND, v - back;
    Product(v, timeScale, 0);
    QuotientBounds(x, SECOND);
    QuotientBounds(y, timeScale);
    assert y <= x < y + SECOND && timeScale * back <= y < timeScale * back + timeScale;
    Product(timeScale, back, lost);
    assert 0 <= timeScale * lost < SECOND + timeScale;
    TimesAtLeast(timeScale, lost);
  }
}
