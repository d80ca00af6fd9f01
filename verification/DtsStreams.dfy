/** What the reconstruction of decoding timestamps gives for whole streams with reordered
    pictures: the ideal timestamps, once the amount of reordering is known. */
module DtsStreams {
  import opened Outcomes
  import opened Octets
  import opened Serial
  import opened Division
  import opened DtsExtractor

  // ---------------------------------------------------------------- units

  /** The last unit of the type. */
  function LastUnit(au: seq<Nalu>, typ: int): Option<Nalu> {
    if au == [] then None
    else if au[|au| - 1][0] % 32 == typ then Some(au[|au| - 1])
    else LastUnit(au[..|au| - 1], typ)
  }

  /** No parameter set but the known one. */
  predicate SameSps(au: seq<Nalu>, sps: seq<byte>) {
    forall i | 0 <= i < |au| && au[i][0] % 32 == 7 :: au[i] == sps
  }

  lemma {:induction false} ScanPlain(c: Codec, st: State, au: seq<Nalu>)
    requires SameSps(au, st.sps)
    ensures Scan(c, st, au) == Units(st, LastUnit(au, 5), LastUnit(au, 1))
  {
    if au != [] {
      var n := |au| - 1;
      assert forall i | 0 <= i < n :: au[..n][i] == au[i];
      ScanPlain(c, st, au[..n]);
    }
  }

  /** A stream whose picture order counts matter: the parameter set, and what the count grows
      by from one displayed picture to the next. */
  datatype Given = Given(codec: Codec, bytes: seq<byte>, sps: Sps, step: int)
  {
    predicate Ok() {
      sps.picOrderCntType == 0 && sps.frameMbsOnly && (step == 1 || step == 2)
    }
    function Range(): int { PocRange(sps) }
  }

  /** The state of the extractor after `n` pictures since the last IDR picture: it has given out
      `prev`, knows of `r` reordered frames and will pause for `pause` more. */
  function After(g: Given, n: int, prev: int, r: int, pause: int): State {
    State(g.bytes, Some(g.sps), true, prev, Masked(g.step * n, g.Range()), r, pause, g.step)
  }

  /** An access unit with an IDR picture. */
  predicate IsIdr(g: Given, au: seq<Nalu>) { SameSps(au, g.bytes) && LastUnit(au, 5).Some? }

  /** An access unit with a picture that is not IDR. */
  predicate NotIdr(g: Given, au: seq<Nalu>) {
    SameSps(au, g.bytes) && LastUnit(au, 5).None? && LastUnit(au, 1).Some?
  }

  /** ... and is displayed as number `e` after the last IDR picture. */
  predicate Displayed(g: Given, au: seq<Nalu>, e: int) {
    NotIdr(g, au) && g.codec.readPoc(LastUnit(au, 1).value, g.sps) == Some(Masked(g.step * e, g.Range()))
  }

  // ---------------------------------------------------------------- counting

  lemma MaskedAdd(a: int, b: int, range: int)
    requires range > 0
    ensures Masked(Masked(a, range) + b, range) == Masked(a + b, range)
  {
    var q := a / range;
    assert a == range * q + a % range;
    MaskedShift(Masked(a, range) + b, q, range);
    assert Masked(a, range) + b + range * q == a + b;
  }

  lemma MaskedShift(x: int, q: int, range: int)
    requires range > 0
    ensures Masked(x + range * q, range) == Masked(x, range)
  {
    var p, y := x / range, x + range * q;
    assert x == range * p + x % range;
    Product(range, p, q);
    RemainderUnique(y, range, p + q, x % range);
  }

  lemma RemainderUnique(a: int, b: int, q: int, r: int)
    requires b > 0 && a == b * q + r && 0 <= r < b
    ensures a % b == r
  {
    var p := a / b;
    assert a == b * p + a % b;
    assert b * (p - q) == r - a % b by { Product(b, p - q, q); }
    TimesAtLeast(b, p - q);
  }

  lemma CountDiff(a: int, b: int, range: int)
    requires range > 0 && range % 2 == 0 && -range < 2 * (a - b) <= range
    ensures PocDiff(Masked(a, range), Masked(b, range), range) == a - b
  {
    hide Masked, PocDiff;
    var p := MaskedSplit(a, range);
    var q := MaskedSplit(b, range);
    Product(range, q - p, p);
    PocDiffUnique(Masked(a, range), Masked(b, range), range, a - b, q - p);
  }

  lemma MaskedSplit(a: int, range: int) returns (q: int)
    requires range > 0
    ensures a == range * q + Masked(a, range)
  {
    q := a / range;
    assert a == range * q + a % range;
  }

  lemma Halved(a: int, step: int)
    requires step == 1 || step == 2
    ensures Quotient(step * a, step) == a
  {
    if step == 1 { QuotientByOne(a); }
  }

  /** The difference of two counts is that of the display numbers, as long as it is small. */
  lemma DiffOf(step: int, e: int, n: int, range: int)
    requires (step == 1 || step == 2) && range > 0 && range % 2 == 0 && -range < 2 * (step * (e - n)) <= range
    ensures Quotient(PocDiff(Masked(step * e, range), Masked(step * n, range), range), step) == e - n
  {
    hide Quotient, PocDiff, Masked;
    Product(step, e - n, n);
    CountDiff(step * e, step * n, range);
    Halved(e - n, step);
  }

  lemma StepOn(g: Given, n: int, prev: int, r: int, pause: int)
    requires g.Ok()
    ensures Advance(After(g, n, prev, r, pause), g.sps) == After(g, n + 1, prev, r, pause)
  {
    hide Masked, PocRange;
    MaskedAdd(g.step * n, g.step, g.Range());
    assert g.step * (n + 1) == g.step * n + g.step;
  }

  // ---------------------------------------------------------------- one picture

  /** What the three branches for a picture `k` places later than its decoding place lead to. */
  lemma NonIdrStep(g: Given, x: Input, n: int, k: int, prev: int, r: int)
    requires g.Ok() && 0 <= r <= MAX_REORDERED && Displayed(g, x.au, n + 1 + k)
    requires -g.Range() < 2 * (g.step * k) <= g.Range()
    ensures Bounded(After(g, n, prev, r, 0)) && Bounded(After(g, n + 1, prev, r, 0))
    ensures Inner(g.codec, After(g, n, prev, r, 0), x.au, x.pts) == Reorder(After(g, n + 1, prev, r, 0), k, x.pts)
  {
    var st := After(g, n, prev, r, 0);
    ScanPlain(g.codec, st, x.au);
    StepOn(g, n, prev, r, 0);
    var poc := Masked(g.step * (n + 1 + k), g.Range());
    EvenCount(g, n + 1 + k);
    DiffOf(g.step, n + 1 + k, n + 1, g.Range());
    hide Scan, Masked, PocRange, PocDiff, Quotient, Reorder, SameSps, LastUnit;
  }

  /** In steps of two, no count is odd. */
  lemma EvenCount(g: Given, e: int)
    requires g.Ok()
    ensures g.step == 2 ==> Masked(g.step * e, g.Range()) % 2 == 0
  {
    if g.step == 2 { EvenModEven(2 * e, g.Range()); }
  }

  /** `err` nanoseconds, with the `q`th part taken away, rounded up. */
  function Less(err: nat, q: int): (r: nat)
    requires q >= 1
    ensures r <= err && (err > 0 ==> r < err) && (q == 1 ==> r == 0)
  {
    PartOf(err, q);
    err - (err + q - 1) / q
  }

  lemma PartOf(err: nat, q: int)
    requires q >= 1
    ensures var c := (err + q - 1) / q; 0 <= c <= err && (err > 0 ==> c >= 1) && (q == 1 ==> c == err)
  {
    var a, c := err + q - 1, (err + q - 1) / q;
    QuotientBounds(a, q);
    Product(err, q - 1, 0);
    Product(q, err, 1);
    QuotientBelow(a, q, err);
    TimesAtLeast(q, c);
    if q == 1 { QuotientUnique(a, 1, err, 0); }
  }

  /** The interpolated timestamp: ideally one period after the previous one. */
  lemma Interpolates(prev: int, err: nat, period: int, q: int, pts: int)
    requires q >= 1 && err < period && pts == prev - err + period * q
    ensures prev + Quotient(pts - prev, q) == prev - err + period + Less(err, q)
    ensures prev < prev - err + period + Less(err, q) <= pts
  {
    var c := (err + q - 1) / q;
    QuotientBounds(err + q - 1, q);
    PartOf(err, q);
    Product(q, period, -c);
    assert q * (-c) == -(q * c);
    var a := period * q - err;
    Product(q, period - 1, 1);
    Product(q, period - 1, 0);
    assert a >= 0 by { if q > 1 { Product(period, q - 1, 1); Product(period, q - 1, 0); } }
    QuotientUnique(a, q, period - c, q * c - err);
    QuotientBounds(a, q);
    assert c <= err;
  }

  predicate Tuned(g: Given, r: int) {
    g.Ok() && 0 <= r <= MAX_REORDERED && 4 * r < g.Range()
  }

  /** Once `r` is known, a picture displayed at most `r` places out of decoding order gets the
      next ideal timestamp; what is left of an earlier deviation shrinks. */
  lemma TunedStep(g: Given, x: Input, n: int, k: int, prev: int, r: int, err: nat, period: int)
    requires Tuned(g, r) && -r <= k <= r && Displayed(g, x.au, n + 1 + k)
    requires err < period && x.pts == prev - err + period * (k + r + 1)
    ensures Bounded(After(g, n, prev, r, 0))
    ensures var dts := prev - err + period + Less(err, k + r + 1);
            Extract(g.codec, After(g, n, prev, r, 0), x.au, x.pts) == (After(g, n + 1, dts, r, 0), Some(dts))
  {
    hide Inner, Extract, Quotient, Masked, PocRange, Less, Reorder, Displayed;
    var dts := prev - err + period + Less(err, k + r + 1);
    SmallStep(g, k);
    NonIdrStep(g, x, n, k, prev, r);
    Interpolates(prev, err, period, k + r + 1, x.pts);
    Near(After(g, n + 1, prev, r, 0), k, x.pts, dts);
    Accept(g, n, n + 1, prev, r, 0, x, dts);
  }

  lemma SmallStep(g: Given, k: int)
    requires g.Ok() && -g.Range() < 4 * k < g.Range()
    ensures -g.Range() < 2 * (g.step * k) <= g.Range()
  {
    hide PocRange;
  }

  /** Between the limits the timestamp is interpolated. */
  lemma Near(st: State, k: int, pts: int, dts: int)
    requires Bounded(st) && -st.reordered <= k <= st.reordered
    requires dts == st.prevDts + Quotient(pts - st.prevDts, k + st.reordered + 1)
    ensures Reorder(st, k, pts) == (st, Guess(dts, false))
  {
    hide Quotient;
  }

  /** A guess between the previous timestamp and the presentation timestamp is given out. */
  lemma Accept(g: Given, n: int, n': int, prev: int, r: int, pause: int, x: Input, dts: int)
    requires Bounded(After(g, n, prev, r, pause)) && prev < dts <= x.pts
    requires Inner(g.codec, After(g, n, prev, r, pause), x.au, x.pts) == (After(g, n', prev, r, 0), Guess(dts, false))
    ensures Extract(g.codec, After(g, n, prev, r, pause), x.au, x.pts) == (After(g, n', dts, r, 0), Some(dts))
  {
    hide Inner, Masked, PocRange;
  }

  /** An IDR picture is displayed in its decoding place, and counting starts again. */
  lemma TunedIdr(g: Given, x: Input, n: int, prev: int, r: int, pause: int, err: nat, period: int)
    requires Tuned(g, r) && 0 <= pause <= MAX_REORDERED && IsIdr(g, x.au)
    requires err < period && x.pts == prev - err + period * (r + 1)
    ensures Bounded(After(g, n, prev, r, pause))
    ensures var dts := prev - err + period + Less(err, r + 1);
            Extract(g.codec, After(g, n, prev, r, pause), x.au, x.pts) == (After(g, 0, dts, r, 0), Some(dts))
  {
    hide Inner, Extract, Quotient, Masked, PocRange, Less, IsIdr;
    var dts := prev - err + period + Less(err, r + 1);
    Interpolates(prev, err, period, r + 1, x.pts);
    IdrGuess(g, x, n, prev, r, pause, dts);
    Accept(g, n, 0, prev, r, pause, x, dts);
  }

  lemma IdrGuess(g: Given, x: Input, n: int, prev: int, r: int, pause: int, dts: int)
    requires g.Ok() && 0 <= r <= MAX_REORDERED && 0 <= pause <= MAX_REORDERED && IsIdr(g, x.au)
    requires dts == prev + Quotient(x.pts - prev, r + 1)
    ensures Bounded(After(g, n, prev, r, pause))
    ensures Inner(g.codec, After(g, n, prev, r, pause), x.au, x.pts) == (After(g, 0, prev, r, 0), Guess(dts, false))
  {
    ScanPlain(g.codec, After(g, n, prev, r, pause), x.au);
    assert Masked(g.step * 0, g.Range()) == 0 by { RemainderUnique(0, g.Range(), 0, 0); }
    if r == 0 { QuotientByOne(x.pts - prev); }
    hide Scan, Quotient, Masked, PocRange, SameSps, LastUnit;
  }

  lemma QuotientByOne(a: int)
    ensures Quotient(a, 1) == a
  {}

  /** While it pauses, the extractor gives out steps of one millisecond, whatever is displayed. */
  lemma PausedStep(g: Given, x: Input, n: int, prev: int, r: int, pause: int)
    requires g.Ok() && 0 <= r <= MAX_REORDERED && 0 < pause <= MAX_REORDERED && NotIdr(g, x.au)
    ensures Bounded(After(g, n, prev, r, pause))
    ensures Extract(g.codec, After(g, n, prev, r, pause), x.au, x.pts) ==
              (After(g, n + 1, prev + 1_000_000, r, pause - 1), Some(prev + 1_000_000))
  {
    ScanPlain(g.codec, After(g, n, prev, r, pause), x.au);
    StepOn(g, n, prev, r, pause);
    hide Scan, Masked, PocRange, Reorder;
  }

  /** A picture displayed `wider` places late, more than known: the extractor learns of it, and
      steps by one millisecond for this picture and the `wider - r - 1` after it. */
  lemma LateStep(g: Given, x: Input, n: int, prev: int, r: int, wider: int)
    requires g.Ok() && 0 <= r < wider <= MAX_REORDERED && 4 * wider < g.Range()
    requires Displayed(g, x.au, n + 1 + wider) && x.pts >= prev + 1_000_000
    ensures Bounded(After(g, n, prev, r, 0))
    ensures Extract(g.codec, After(g, n, prev, r, 0), x.au, x.pts) ==
              (After(g, n + 1, prev + 1_000_000, wider, wider - r - 1), Some(prev + 1_000_000))
  {
    hide Inner, Masked, PocRange, Displayed;
    SmallStep(g, wider);
    NonIdrStep(g, x, n, wider, prev, r);
  }

  /** ... unless its presentation timestamp is earlier than that step: then there is no
      timestamp, although the extractor has learnt. */
  lemma LateTooSoon(g: Given, x: Input, n: int, prev: int, r: int, wider: int)
    requires g.Ok() && 0 <= r < wider <= MAX_REORDERED && 4 * wider < g.Range()
    requires Displayed(g, x.au, n + 1 + wider) && x.pts < prev + 1_000_000
    ensures Bounded(After(g, n, prev, r, 0))
    ensures Extract(g.codec, After(g, n, prev, r, 0), x.au, x.pts) ==
              (After(g, n + 1, prev, wider, wider - r - 1), None)
  {
    hide Inner, Masked, PocRange, Displayed;
    SmallStep(g, wider);
    NonIdrStep(g, x, n, wider, prev, r);
  }

  /** A picture displayed `wider + 1` places early, more than one more than known: the extractor
      learns of `wider`, and steps by one millisecond for this picture and the `wider - r`
      after it. */
  lemma EarlyStep(g: Given, x: Input, n: int, prev: int, r: int, wider: int)
    requires g.Ok() && 0 <= r < wider <= MAX_REORDERED && 4 * (wider + 1) < g.Range()
    requires Displayed(g, x.au, n + 1 - (wider + 1))
    ensures Bounded(After(g, n, prev, r, 0))
    ensures Extract(g.codec, After(g, n, prev, r, 0), x.au, x.pts) ==
              (After(g, n + 1, prev + 1_000_000, wider, wider - r), Some(prev + 1_000_000))
  {
    hide Inner, Masked, PocRange, Displayed;
    SmallStep(g, -(wider + 1));
    NonIdrStep(g, x, n, -(wider + 1), prev, r);
  }

  /** A picture displayed exactly one place earlier than known gets its presentation timestamp,
      if that is later than the previous one. */
  lemma LimitStep(g: Given, x: Input, n: int, prev: int, r: int)
    requires g.Ok() && 0 <= r <= MAX_REORDERED && 4 * (r + 1) < g.Range() && Displayed(g, x.au, n - r)
    ensures Bounded(After(g, n, prev, r, 0))
    ensures Extract(g.codec, After(g, n, prev, r, 0), x.au, x.pts) ==
              if x.pts > prev then (After(g, n + 1, x.pts, r, 0), Some(x.pts)) else (After(g, n + 1, prev, r, 0), None)
  {
    hide Inner, Masked, PocRange, Displayed;
    SmallStep(g, -(r + 1));
    NonIdrStep(g, x, n, -(r + 1), prev, r);
  }

  /** More than 50 reordered frames are refused, in either direction. */
  lemma TooFar(g: Given, x: Input, n: int, k: int, prev: int, r: int)
    requires g.Ok() && 0 <= r <= MAX_REORDERED && Displayed(g, x.au, n + 1 + k) && (k > 50 || k < -51)
    requires -g.Range() < 2 * (g.step * k) <= g.Range()
    ensures Bounded(After(g, n, prev, r, 0))
    ensures Extract(g.codec, After(g, n, prev, r, 0), x.au, x.pts) == (After(g, n + 1, prev, r, 0), None)
  {
    NonIdrStep(g, x, n, k, prev, r);
    hide Inner, Masked, PocRange;
  }

  /** A stream that counts in steps of one is recognised by its first odd count: from there on
      everything is as if it had been counted so from the IDR picture on. */
  lemma OddCount(g: Given, x: Input, n: int, prev: int, r: int, poc: u32)
    requires g.Ok() && g.step == 2 && 0 <= r <= MAX_REORDERED && 0 <= n && 2 * (n + 1) < g.Range()
    requires NotIdr(g, x.au) && g.codec.readPoc(LastUnit(x.au, 1).value, g.sps) == Some(poc) && poc % 2 == 1
    ensures Bounded(After(g, n, prev, r, 0)) && Bounded(After(g.(step := 1), n, prev, r, 0))
    ensures Extract(g.codec, After(g, n, prev, r, 0), x.au, x.pts) ==
            Extract(g.codec, After(g.(step := 1), n, prev, r, 0), x.au, x.pts)
  {
    var h := g.(step := 1);
    ScanPlain(g.codec, After(g, n, prev, r, 0), x.au);
    ScanPlain(g.codec, After(h, n, prev, r, 0), x.au);
    StepOn(g, n, prev, r, 0);
    StepOn(h, n, prev, r, 0);
    SmallCount(2 * (n + 1), g.Range());
    SmallCount(n + 1, g.Range());
    hide Scan, PocRange, Reorder, PocDiff, Quotient, Masked, SameSps, LastUnit;
  }

  lemma SmallCount(x: nat, range: int)
    requires x < range
    ensures Masked(x, range) == x
  {
    RemainderUnique(x, range, 0, x);
  }

  /** Where the parameter set rules out reordering, or pictures are coded as fields, the
      presentation timestamp is kept, if it is later than the previous one. */
  lemma Unordered(c: Codec, st: State, x: Input)
    requires Bounded(st) && SameSps(x.au, st.sps) && st.spsp.Some?
    requires st.spsp.value.picOrderCntType == 2 || !st.spsp.value.frameMbsOnly
    ensures Extract(c, st, x.au, x.pts) ==
              if st.prevFilled && x.pts <= st.prevDts then (st, None)
              else (st.(prevDts := x.pts, prevFilled := true), Some(x.pts))
  {
    ScanPlain(c, st, x.au);
  }

  /** Without a parameter set, with picture order count type 1, or without a picture there is no
      timestamp, and nothing changes. */
  lemma NoTimestamp(c: Codec, st: State, x: Input)
    requires Bounded(st) && SameSps(x.au, st.sps)
    requires || st.spsp.None?
             || (st.spsp.value.picOrderCntType != 2 && st.spsp.value.frameMbsOnly &&
                 (st.spsp.value.picOrderCntType == 1 || (LastUnit(x.au, 5).None? && LastUnit(x.au, 1).None?)))
    ensures Extract(c, st, x.au, x.pts) == (st, None)
  {
    ScanPlain(c, st, x.au);
  }

  // ---------------------------------------------------------------- whole streams

  /** From decoding place `m` on, pictures are displayed at most `r` places out of decoding
      order, and `period` apart; `base` is the place of the last IDR picture, and `es` are the
      display numbers. */
  predicate Stream(g: Given, xs: seq<Input>, es: seq<int>, m: int, base: int, r: int, start: int, period: int)
    decreases |xs|
  {
    |es| == |xs| &&
    (xs != [] ==>
       && xs[0].pts == start + period * es[0] && -r <= es[0] - m <= r
       && if LastUnit(xs[0].au, 5).Some?
          then IsIdr(g, xs[0].au) && es[0] == m && Stream(g, xs[1..], es[1..], m + 1, m, r, start, period)
          else Displayed(g, xs[0].au, es[0] - base) && Stream(g, xs[1..], es[1..], m + 1, base, r, start, period))
  }

  /** The ideal timestamps, `r` periods behind, with a deviation that shrinks. */
  function Ideal(es: seq<int>, m: int, r: int, start: int, period: int, err: nat): seq<Option<int>>
    requires forall i | 0 <= i < |es| :: -r <= es[i] - (m + i)
  {
    if es == [] then []
    else
      var next := Less(err, es[0] - m + r + 1);
      assert forall i | 0 <= i < |es| - 1 :: es[1..][i] == es[i + 1];
      [Some(start + period * (m - r) + next)] + Ideal(es[1..], m + 1, r, start, period, next)
  }

  lemma {:induction false} StreamNear(g: Given, xs: seq<Input>, es: seq<int>, m: int, base: int, r: int, start: int,
                                      period: int)
    requires Stream(g, xs, es, m, base, r, start, period)
    ensures |es| == |xs| && forall i | 0 <= i < |es| :: -r <= es[i] - (m + i) <= r
    decreases |xs|
  {
    if xs != [] {
      StreamNear(g, xs[1..], es[1..], m + 1, if LastUnit(xs[0].au, 5).Some? then m else base, r, start, period);
      forall i | 0 < i < |es| ensures -r <= es[i] - (m + i) <= r { assert es[i] == es[1..][i - 1]; }
    }
  }

  /** A constant difference of one period, for as long as the stream goes on, however often the
      count wraps and wherever IDR pictures come. */
  lemma {:induction false} TunedRun(g: Given, xs: seq<Input>, es: seq<int>, m: int, base: int, r: int, start: int,
                                    period: int, err: nat)
    requires Tuned(g, r) && err < period && Stream(g, xs, es, m, base, r, start, period)
    ensures Bounded(After(g, m - 1 - base, start + period * (m - 1 - r) + err, r, 0))
    ensures forall i | 0 <= i < |es| :: -r <= es[i] - (m + i)
    ensures Timestamps(g.codec, After(g, m - 1 - base, start + period * (m - 1 - r) + err, r, 0), xs) ==
              Ideal(es, m, r, start, period, err)
    decreases |xs|
  {
    hide Extract, After, Less, Displayed, IsIdr, Tuned, Stream, Masked, PocRange;
    StreamNear(g, xs, es, m, base, r, start, period);
    var prev := start + period * (m - 1 - r) + err;
    Restful(g, m - 1 - base, prev, r);
    if xs != [] {
      StreamHead(g, xs, es, m, base, r, start, period);
      var k, x := es[0] - m, xs[0];
      var next := Less(err, k + r + 1);
      Ahead(start, period, m - 1 - r, k + r + 1, err, next);
      var base' := if LastUnit(x.au, 5).Some? then m else base;
      if LastUnit(x.au, 5).Some? {
        TunedIdr(g, x, m - 1 - base, prev, r, 0, err, period);
      } else {
        TunedStep(g, x, m - 1 - base, k, prev, r, err, period);
      }
      TunedRun(g, xs[1..], es[1..], m + 1, base', r, start, period, next);
    }
  }

  lemma Restful(g: Given, n: int, prev: int, r: int)
    requires Tuned(g, r)
    ensures Bounded(After(g, n, prev, r, 0))
  {
    hide Masked, PocRange;
  }

  lemma StreamHead(g: Given, xs: seq<Input>, es: seq<int>, m: int, base: int, r: int, start: int, period: int)
    requires Stream(g, xs, es, m, base, r, start, period) && xs != []
    ensures |es| == |xs| && xs[0].pts == start + period * es[0] && -r <= es[0] - m <= r
    ensures LastUnit(xs[0].au, 5).Some? ==> IsIdr(g, xs[0].au) && es[0] == m
    ensures LastUnit(xs[0].au, 5).None? ==> Displayed(g, xs[0].au, es[0] - base)
    ensures Stream(g, xs[1..], es[1..], m + 1, if LastUnit(xs[0].au, 5).Some? then m else base, r, start, period)
  {
    hide IsIdr, Displayed, LastUnit;
  }

  /** The presentation timestamp and the next ideal timestamp, seen from the previous one. */
  lemma Ahead(start: int, period: int, n: int, q: int, err: int, next: int)
    ensures start + period * (n + q) == (start + period * n + err) - err + period * q
    ensures start + period * (n + 1) + next == (start + period * n + err) - err + period + next
  {
    Product(period, n, q);
    Product(period, n, 1);
  }

  /** What `Ideal` says: each timestamp lies at or after the ideal one, by no more than the first
      deviation; from the first picture on that is displayed `r` places early, or after as many
      pictures as the deviation has nanoseconds, it is the ideal one, one period after the
      other. */
  lemma {:induction false} IdealMeans(es: seq<int>, m: int, r: int, start: int, period: int, err: nat, i: nat)
    requires (forall j | 0 <= j < |es| :: -r <= es[j] - (m + j)) && i < |es|
    ensures var ideal := Ideal(es, m, r, start, period, err);
            && |ideal| == |es| && ideal[i].Some?
            && start + period * (m + i - r) <= ideal[i].value <= start + period * (m + i - r) + err
            && (err <= i + 1 || (exists j | 0 <= j <= i :: es[j] == m + j - r) ==>
                  ideal[i].value == start + period * (m + i - r))
    decreases |es|
  {
    var next := Less(err, es[0] - m + r + 1);
    assert forall j | 0 <= j < |es| - 1 :: es[1..][j] == es[j + 1];
    if i > 0 {
      IdealMeans(es[1..], m + 1, r, start, period, next, i - 1);
      assert m + 1 + (i - 1) - r == m + i - r;
      if j :| 0 < j <= i && es[j] == m + j - r { assert es[1..][j - 1] == m + 1 + (j - 1) - r; }
    } else {
      IdealLength(es[1..], m + 1, r, start, period, next);
    }
    hide Less;
  }

  lemma {:induction false} IdealLength(es: seq<int>, m: int, r: int, start: int, period: int, err: nat)
    requires forall j | 0 <= j < |es| :: -r <= es[j] - (m + j)
    ensures |Ideal(es, m, r, start, period, err)| == |es|
    decreases |es|
  {
    if es != [] {
      assert forall j | 0 <= j < |es| - 1 :: es[1..][j] == es[j + 1];
      IdealLength(es[1..], m + 1, r, start, period, Less(err, es[0] - m + r + 1));
    }
  }

  // ---------------------------------------------------------------- learning

  /** Steps of one millisecond after `prev`. */
  function Steps(prev: int, n: nat): (s: seq<Option<int>>)
    ensures |s| == n && forall i | 0 <= i < n :: s[i] == Some(prev + (i + 1) * 1_000_000)
  {
    seq(n, i requires 0 <= i < n => Some(prev + (i + 1) * 1_000_000))
  }

  predicate NoneIdr(g: Given, xs: seq<Input>) { forall i | 0 <= i < |xs| :: NotIdr(g, xs[i].au) }

  /** One step of a millisecond, and what follows it. */
  lemma StepAnd(prev: int, n: nat, s: seq<Option<int>>)
    requires n > 0
    ensures [Some(prev + 1_000_000)] + (Steps(prev + 1_000_000, n - 1) + s) == Steps(prev, n) + s
  {
    assert [Some(prev + 1_000_000)] + Steps(prev + 1_000_000, n - 1) == Steps(prev, n);
  }

  lemma {:induction false} PausedRun(g: Given, xs: seq<Input>, rest: seq<Input>, n: int, prev: int, r: int)
    requires g.Ok() && 0 <= r <= MAX_REORDERED && |xs| <= MAX_REORDERED && NoneIdr(g, xs)
    ensures Bounded(After(g, n, prev, r, |xs|)) && Bounded(After(g, n + |xs|, prev + |xs| * 1_000_000, r, 0))
    ensures Timestamps(g.codec, After(g, n, prev, r, |xs|), xs + rest) ==
              Steps(prev, |xs|) + Timestamps(g.codec, After(g, n + |xs|, prev + |xs| * 1_000_000, r, 0), rest)
    decreases |xs|
  {
    hide Masked, PocRange, Extract, NotIdr;
    if xs == [] {
      assert xs + rest == rest && forall s: seq<Option<int>> :: Steps(prev, 0) + s == s;
    } else {
      var all := xs + rest;
      assert all[0] == xs[0] && all[1..] == xs[1..] + rest;
      PausedStep(g, xs[0], n, prev, r, |xs|);
      PausedRun(g, xs[1..], rest, n + 1, prev + 1_000_000, r);
      StepAnd(prev, |xs|, Timestamps(g.codec, After(g, n + |xs|, prev + |xs| * 1_000_000, r, 0), rest));
    }
  }

  /** A picture displayed later than known: it and those after it get `wider - r` steps of one
      millisecond, and then `wider` is known. */
  lemma LateRun(g: Given, x: Input, xs: seq<Input>, rest: seq<Input>, n: int, prev: int, r: int, wider: int)
    requires g.Ok() && 0 <= r < wider <= MAX_REORDERED && 4 * wider < g.Range()
    requires Displayed(g, x.au, n + 1 + wider) && x.pts >= prev + 1_000_000
    requires |xs| == wider - r - 1 && NoneIdr(g, xs)
    ensures var k := wider - r;
            && Bounded(After(g, n, prev, r, 0)) && Bounded(After(g, n + k, prev + k * 1_000_000, wider, 0))
            && Timestamps(g.codec, After(g, n, prev, r, 0), [x] + (xs + rest)) ==
                 Steps(prev, k) + Timestamps(g.codec, After(g, n + k, prev + k * 1_000_000, wider, 0), rest)
  {
    hide Masked, PocRange, Extract, Displayed, NotIdr;
    var all, k := [x] + (xs + rest), wider - r;
    assert all[0] == x && all[1..] == xs + rest;
    LateStep(g, x, n, prev, r, wider);
    PausedRun(g, xs, rest, n + 1, prev + 1_000_000, wider);
    StepAnd(prev, k, Timestamps(g.codec, After(g, n + k, prev + k * 1_000_000, wider, 0), rest));
  }

  /** A picture displayed more than one place earlier than known: it and those after it get
      `wider - r + 1` steps of one millisecond, and then `wider` is known. */
  lemma EarlyRun(g: Given, x: Input, xs: seq<Input>, rest: seq<Input>, n: int, prev: int, r: int, wider: int)
    requires g.Ok() && 0 <= r < wider <= MAX_REORDERED && 4 * (wider + 1) < g.Range()
    requires Displayed(g, x.au, n + 1 - (wider + 1)) && |xs| == wider - r && NoneIdr(g, xs)
    ensures var k := wider - r + 1;
            && Bounded(After(g, n, prev, r, 0)) && Bounded(After(g, n + k, prev + k * 1_000_000, wider, 0))
            && Timestamps(g.codec, After(g, n, prev, r, 0), [x] + (xs + rest)) ==
                 Steps(prev, k) + Timestamps(g.codec, After(g, n + k, prev + k * 1_000_000, wider, 0), rest)
  {
    hide Masked, PocRange, Extract, Displayed, NotIdr;
    var all, k := [x] + (xs + rest), wider - r + 1;
    assert all[0] == x && all[1..] == xs + rest;
    EarlyStep(g, x, n, prev, r, wider);
    PausedRun(g, xs, rest, n + 1, prev + 1_000_000, wider);
    StepAnd(prev, k, Timestamps(g.codec, After(g, n + k, prev + k * 1_000_000, wider, 0), rest));
  }

  // ---------------------------------------------------------------- from the start

  /** An access unit with the parameter set, in one or more copies, and an IDR picture. */
  predicate Opens(g: Given, au: seq<Nalu>) {
    && |g.bytes| > 0 && g.codec.parseSps(g.bytes) == Some(g.sps) && SameSps(au, g.bytes)
    && (exists i | 0 <= i < |au| :: au[i][0] % 32 == 7) && LastUnit(au, 5).Some?
  }

  lemma {:induction false} ScanNew(g: Given, st: State, au: seq<Nalu>)
    requires |g.bytes| > 0 && g.codec.parseSps(g.bytes) == Some(g.sps) && SameSps(au, g.bytes) && st.sps != g.bytes
    ensures var t := if exists i | 0 <= i < |au| :: au[i][0] % 32 == 7
                     then st.(sps := g.bytes, spsp := Some(g.sps), reordered := 0, increment := 2) else st;
            Scan(g.codec, st, au) == Units(t, LastUnit(au, 5), LastUnit(au, 1))
  {
    if au != [] {
      var n := |au| - 1;
      assert forall i | 0 <= i < n :: au[..n][i] == au[i];
      ScanNew(g, st, au[..n]);
    }
  }

  /** A new parameter set with an IDR picture, at the start or later: what was learnt is
      forgotten, and the presentation timestamp is kept, if it is later than the previous one. */
  lemma OpeningStep(g: Given, st: State, x: Input)
    requires g.Ok() && g.step == 2 && Opens(g, x.au) && Bounded(st) && st.sps != g.bytes
    ensures Extract(g.codec, st, x.au, x.pts).1 == if st.prevFilled && x.pts <= st.prevDts then None else Some(x.pts)
    ensures !(st.prevFilled && x.pts <= st.prevDts) ==>
              Extract(g.codec, st, x.au, x.pts).0 == After(g, 0, x.pts, 0, 0)
  {
    ScanNew(g, st, x.au);
    assert Masked(g.step * 0, g.Range()) == 0 by { RemainderUnique(0, g.Range(), 0, 0); }
    hide Scan, Masked, PocRange, LastUnit, SameSps;
  }

  lemma {:induction false} StreamSuffix(g: Given, xs: seq<Input>, es: seq<int>, m: int, base: int, r: int, start: int,
                                        period: int, j: nat)
    requires Stream(g, xs, es, m, base, r, start, period) && j <= |xs| && NoneIdr(g, xs[..j])
    ensures |es| == |xs| && Stream(g, xs[j..], es[j..], m + j, base, r, start, period)
    decreases j
  {
    if j == 0 {
      assert xs[0..] == xs && es[0..] == es;
    } else {
      assert NotIdr(g, xs[..j][0].au) && xs[..j][0] == xs[0];
      assert xs[1..][..j - 1] == xs[..j][1..];
      StreamSuffix(g, xs[1..], es[1..], m + 1, base, r, start, period, j - 1);
      assert xs[1..][j - 1..] == xs[j..] && es[1..][j - 1..] == es[j..];
    }
  }

  /** A stream from its first picture on.  The picture after it is displayed `r` places late, no
      later one is further out of order, and a period is longer than `r` milliseconds.  The first
      picture keeps its presentation timestamp; the next `r` get steps of one millisecond; from
      then on every picture gets the ideal timestamp, `r` periods behind its decoding place, with
      the deviation of those `r` milliseconds fading as `IdealMeans` says. */
  lemma StreamFromStart(g: Given, x: Input, xs: seq<Input>, es: seq<int>, r: int, start: int, period: int)
    requires g.Ok() && g.step == 2 && Opens(g, x.au) && x.pts == start
    requires 1 <= r <= MAX_REORDERED && 4 * r < g.Range() && r * 1_000_000 < period
    requires Stream(g, xs, es, 1, 0, r, start, period) && r <= |xs| && NoneIdr(g, xs[..r]) && es[0] == 1 + r
    ensures forall i | 0 <= i < |es[r..]| :: -r <= es[r..][i] - (r + 1 + i)
    ensures Timestamps(g.codec, FRESH, [x] + xs) ==
              [Some(start)] + (Steps(start, r) + Ideal(es[r..], r + 1, r, start, period, r * 1_000_000))
  {
    hide Masked, PocRange, Extract, Displayed, NotIdr, Stream, Opens, Ideal, LastUnit, After, Timestamps;
    FirstStep(g, x, xs);
    var first, mid, rest := xs[0], xs[1..r], xs[r..];
    StreamSuffix(g, xs, es, 1, 0, r, start, period, r);
    StreamHead(g, xs, es, 1, 0, r, start, period);
    assert xs[..r][0] == first && forall i | 0 <= i < |mid| :: mid[i] == xs[..r][i + 1];
    NotIdrUnit(g, first.au);
    LongEnough(period, r);
    hide NoneIdr;
    assert xs == [first] + (mid + rest);
    LateRun(g, first, mid, rest, 0, start, 0, r);
    assert period * (r + 1 - 1 - r) == 0;
    TunedRun(g, rest, es[r..], r + 1, 0, r, start, period, r * 1_000_000);
  }

  lemma FirstStep(g: Given, x: Input, xs: seq<Input>)
    requires g.Ok() && g.step == 2 && Opens(g, x.au)
    ensures Bounded(After(g, 0, x.pts, 0, 0))
    ensures Timestamps(g.codec, FRESH, [x] + xs) == [Some(x.pts)] + Timestamps(g.codec, After(g, 0, x.pts, 0, 0), xs)
  {
    assert |g.bytes| > 0;
    OpeningStep(g, FRESH, x);
    hide Extract, Opens, Masked, PocRange;
    var all := [x] + xs;
    assert all[0] == x && all[1..] == xs;
  }

  lemma NotIdrUnit(g: Given, au: seq<Nalu>)
    requires NotIdr(g, au)
    ensures LastUnit(au, 5).None?
  {}

  lemma LongEnough(period: int, r: int)
    requires r >= 1 && r * 1_000_000 < period
    ensures period * (1 + r) >= 1_000_000
  {
    Product(period, 1, r);
    Product(period, r, 0);
  }
}
