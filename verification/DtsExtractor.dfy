/** Decoding timestamps of H.264 access units, reconstructed from their presentation
    timestamps and picture order counts. */
module DtsExtractor {
  import opened Outcomes
  import opened Octets
  import opened Division
  import opened Serial

  type Nalu = s: seq<byte> | |s| > 0 witness [0]

  /** The fields of a sequence parameter set that matter; section 7.4.2.1.1 of ITU-T H.264
      limits log2_max_pic_order_cnt_lsb_minus4 to 12. */
  datatype Sps = Sps(picOrderCntType: nat, frameMbsOnly: bool, log2MaxPocLsbMinus4: nat)

  function Pow2(k: nat): (r: nat)
    ensures r > 0
  {
    if k == 0 then 1 else 2 * Pow2(k - 1)
  }

  /** The range of the picture order count. */
  function PocRange(sps: Sps): (r: nat)
    ensures r >= 16 && r % 2 == 0
  {
    2 * (2 * (2 * (2 * Pow2(sps.log2MaxPocLsbMinus4))))
  }

  /** Decoding of parameter sets and slice headers, which lies outside the model. */
  datatype Codec = Codec(parseSps: Nalu -> Option<Sps>, readPoc: (Nalu, Sps) -> Option<u32>)

  const NON_IDR := 1
  const IDR := 5
  const SPS := 7
  const MAX_REORDERED := 50
  const MILLISECOND := 1_000_000

  /** Division as the source language does it: the quotient is truncated towards zero. */
  function Quotient(a: int, b: int): int
    requires b > 0
  {
    if a >= 0 then a / b else -((-a) / b)
  }

  /** `x & (range - 1)` for a range that is a power of two. */
  function Masked(x: int, range: int): int
    requires range > 0
  {
    x % range
  }

  /** `(a - b) & (range - 1)`, read as a signed number. */
  function PocDiff(a: int, b: int, range: int): int
    requires range > 0
  {
    var d := Masked(a - b, range);
    if d > range / 2 then d - range else d
  }

  datatype State = State(
    sps: seq<byte>, spsp: Option<Sps>, prevFilled: bool, prevDts: int,
    expectedPoc: int, reordered: int, pause: int, increment: int)

  const FRESH := State([], None, false, 0, 0, 0, 0, 2)

  // ---------------------------------------------------------------- one access unit

  datatype Scanned = Unreadable(st: State) | Units(st: State, idr: Option<Nalu>, nonIdr: Option<Nalu>)

  function ScanOne(c: Codec, s: Scanned, nalu: Nalu): Scanned {
    if s.Unreadable? then s
    else
      var typ := nalu[0] % 32;
      if typ == SPS then
        if s.st.sps == nalu then s
        else match c.parseSps(nalu)
          case None => Unreadable(s.st)
          case Some(sps) => s.(st := s.st.(sps := nalu, spsp := Some(sps), reordered := 0, increment := 2))
      else if typ == IDR then s.(idr := Some(nalu))
      else if typ == NON_IDR then s.(nonIdr := Some(nalu))
      else s
  }

  function Scan(c: Codec, st: State, au: seq<Nalu>): Scanned {
    if au == [] then Units(st, None, None) else ScanOne(c, Scan(c, st, au[..|au| - 1]), au[|au| - 1])
  }

  /** The error cases carry no value; `skip` turns off the comparison with the PTS. */
  datatype Guess = Error | Guess(dts: int, skip: bool)

  function Interpolated(st: State, pts: int, divisor: int): int
    requires 1 <= divisor <= 101
  {
    st.prevDts + Quotient(pts - st.prevDts, divisor)
  }

  /** Lines 157-192: a frame whose picture order count differs by `diff` from the expected. */
  function Reorder(st: State, diff: int, pts: int): (State, Guess)
    requires Bounded(st)
  {
    var limit := -(st.reordered + 1);
    if diff < limit then
      var increase := limit - diff;
      if st.reordered + increase > MAX_REORDERED then (st, Error)
      else (st.(reordered := st.reordered + increase, pause := increase), Guess(st.prevDts + MILLISECOND, true))
    else if diff == limit then (st, Guess(pts, false))
    else if diff > st.reordered then
      var increase := diff - st.reordered;
      if st.reordered + increase > MAX_REORDERED then (st, Error)
      else (st.(reordered := st.reordered + increase, pause := increase - 1), Guess(st.prevDts + MILLISECOND, false))
    else (st, Guess(Interpolated(st, pts, diff + st.reordered + 1), false))
  }

  function Advance(st: State, sps: Sps): State {
    st.(expectedPoc := Masked(st.expectedPoc + st.increment, PocRange(sps)))
  }

  function NonIdr(c: Codec, st: State, sps: Sps, nalu: Nalu, pts: int): (State, Guess)
    requires Bounded(st)
  {
    var s := Advance(st, sps);
    if s.pause > 0 then (s.(pause := s.pause - 1), Guess(s.prevDts + MILLISECOND, true))
    else match c.readPoc(nalu, sps)
      case None => (s, Error)
      case Some(poc) =>
        var t := if s.increment == 2 && poc % 2 != 0 then s.(increment := 1, expectedPoc := s.expectedPoc / 2) else s;
        Reorder(t, Quotient(PocDiff(poc, t.expectedPoc, PocRange(sps)), t.increment), pts)
  }

  function Inner(c: Codec, st: State, au: seq<Nalu>, pts: int): (State, Guess)
    requires Bounded(st)
  {
    match Scan(c, st, au)
    case Unreadable(s) => (s, Error)
    case Units(s, idr, nonIdr) =>
      ScanKeeps(c, st, au);
      if s.spsp.None? then (s, Error)
      else
        var sps := s.spsp.value;
        if sps.picOrderCntType == 2 || !sps.frameMbsOnly then (s, Guess(pts, false))
        else if sps.picOrderCntType == 1 then (s, Error)
        else if idr.Some? then
          var t := s.(expectedPoc := 0, pause := 0);
          if !t.prevFilled || t.reordered == 0 then (t, Guess(pts, false))
          else (t, Guess(Interpolated(t, pts, t.reordered + 1), false))
        else if nonIdr.Some? then NonIdr(c, s, sps, nonIdr.value, pts)
        else (s, Error)
  }

  function Extract(c: Codec, st: State, au: seq<Nalu>, pts: int): (State, Option<int>)
    requires Bounded(st)
  {
    var (s, g) := Inner(c, st, au, pts);
    if g.Error? || (!g.skip && g.dts > pts) || (s.prevFilled && g.dts <= s.prevDts) then (s, None)
    else (s.(prevDts := g.dts, prevFilled := true), Some(g.dts))
  }

  // ---------------------------------------------------------------- bounds

  /** The counters stay small, so every divisor used for interpolation, `reordered + 1` or
      `diff + reordered + 1` with `-reordered <= diff <= reordered`, is between 1 and 101. */
  predicate Bounded(st: State) {
    && 0 <= st.reordered <= MAX_REORDERED && 0 <= st.pause <= MAX_REORDERED
    && (st.increment == 1 || st.increment == 2)
    && (!st.prevFilled ==> st.prevDts == 0)
  }

  /** Nothing but `Extract` itself touches the previous DTS. */
  predicate SamePrev(s: State, t: State) { t.prevDts == s.prevDts && t.prevFilled == s.prevFilled }

  lemma {:induction false} ScanKeeps(c: Codec, st: State, au: seq<Nalu>)
    requires Bounded(st)
    ensures Bounded(Scan(c, st, au).st) && SamePrev(st, Scan(c, st, au).st)
  {
    if au != [] { ScanKeeps(c, st, au[..|au| - 1]); }
  }

  lemma InnerKeeps(c: Codec, st: State, au: seq<Nalu>, pts: int)
    requires Bounded(st)
    ensures Bounded(Inner(c, st, au, pts).0) && SamePrev(st, Inner(c, st, au, pts).0)
  {
    hide PocRange, Masked, PocDiff, Quotient, Scan;
    ScanKeeps(c, st, au);
  }

  lemma InterpolationBetween(st: State, pts: int, divisor: int)
    requires 1 <= divisor <= 101
    ensures st.prevDts <= pts ==> st.prevDts <= Interpolated(st, pts, divisor) <= pts
    ensures pts <= st.prevDts ==> pts <= Interpolated(st, pts, divisor) <= st.prevDts
  {
    var a := if pts >= st.prevDts then pts - st.prevDts else st.prevDts - pts;
    assert 0 <= a / divisor <= a by { QuotientBounds(a, divisor); }
  }

  /** The picture order count difference is the representative of `a - b` modulo the range
      that lies in the half-open interval around zero, and the only one. */
  lemma PocDiffRepresents(a: int, b: int, range: int) returns (q: int)
    requires range > 0 && range % 2 == 0
    ensures a - b == range * q + PocDiff(a, b, range)
    ensures -range < 2 * PocDiff(a, b, range) <= range
  {
    q := (a - b) / range;
    assert a - b == range * q + (a - b) % range;
    if (a - b) % range > range / 2 {
      assert range * (q + 1) == range * q + range;
      q := q + 1;
    }
  }

  lemma PocDiffUnique(a: int, b: int, range: int, r: int, q: int)
    requires range > 0 && range % 2 == 0
    requires a - b == range * q + r && -range < 2 * r <= range
    ensures r == PocDiff(a, b, range)
  {
    var p := PocDiffRepresents(a, b, range);
    var d := PocDiff(a, b, range);
    assert range * (p - q) == r - d by { assert range * p - range * q == range * (p - q); }
    hide PocDiff;
    TimesAtLeast(range, p - q);
  }

  // ---------------------------------------------------------------- runs

  datatype Input = Input(au: seq<Nalu>, pts: int)

  function Run(c: Codec, inputs: seq<Input>): (st: State)
    ensures Bounded(st)
  {
    if inputs == [] then FRESH
    else
      var s, x := Run(c, inputs[..|inputs| - 1]), inputs[|inputs| - 1];
      InnerKeeps(c, s, x.au, x.pts);
      Extract(c, s, x.au, x.pts).0
  }

  /** The timestamps given out so far, errors left out. */
  function Outputs(c: Codec, inputs: seq<Input>): seq<int> {
    if inputs == [] then []
    else
      var x := inputs[|inputs| - 1];
      var r := Extract(c, Run(c, inputs[..|inputs| - 1]), x.au, x.pts).1;
      Outputs(c, inputs[..|inputs| - 1]) + if r.Some? then [r.value] else []
  }

  /** A timestamp given out exceeds the one before and is remembered; an error changes neither. */
  lemma ExtractAdvances(c: Codec, st: State, au: seq<Nalu>, pts: int)
    requires Bounded(st)
    ensures var (s, r) := Extract(c, st, au, pts);
            && Bounded(s)
            && (if r.Some? then s.prevFilled && s.prevDts == r.value && (st.prevFilled ==> r.value > st.prevDts)
                else SamePrev(st, s))
  {
    hide Inner;
    InnerKeeps(c, st, au, pts);
  }

  /** Over every run, whatever errors come in between, the timestamps given out strictly
      increase, and the extractor remembers the last one. */
  lemma {:induction false} OutputsIncrease(c: Codec, inputs: seq<Input>)
    ensures var out, st := Outputs(c, inputs), Run(c, inputs);
            && (forall i, j | 0 <= i < j < |out| :: out[i] < out[j])
            && st.prevFilled == (out != []) && (out != [] ==> st.prevDts == out[|out| - 1])
  {
    if inputs != [] {
      var before, x := inputs[..|inputs| - 1], inputs[|inputs| - 1];
      hide Inner;
      OutputsIncrease(c, before);
      InnerKeeps(c, Run(c, before), x.au, x.pts);
    }
  }

  // ---------------------------------------------------------------- streams without reordering

  /** No frame has been displayed out of order since the parameter set was read. */
  predicate Steady(st: State) {
    && Bounded(st) && st.reordered == 0 && st.pause == 0 && st.increment == 2
    && st.spsp.Some? && st.spsp.value.picOrderCntType == 0 && st.spsp.value.frameMbsOnly
    && 0 <= st.expectedPoc && st.expectedPoc % 2 == 0
  }

  /** An access unit with an IDR picture, or with the picture that is next in display order. */
  predicate InOrder(c: Codec, st: State, x: Input)
    requires Steady(st)
  {
    var s := Scan(c, st, x.au);
    && s.Units? && s.st == st && (st.prevFilled ==> x.pts > st.prevDts)
    && (s.idr.Some? ||
        (s.nonIdr.Some? &&
         c.readPoc(s.nonIdr.value, st.spsp.value) == Some((st.expectedPoc + 2) % PocRange(st.spsp.value))))
  }

  lemma EvenRemainder(x: int, h: int, q: int, r: int)
    requires x % 2 == 0 && x == 2 * h * q + r
    ensures r % 2 == 0
  {
    var y := h * q;
    Product(2, h, q);
    assert r == x - 2 * y;
  }

  lemma EvenModEven(x: int, range: int)
    requires range > 0 && x % 2 == 0 && range % 2 == 0
    ensures (x % range) % 2 == 0
  {
    var h, q, r := range / 2, x / range, x % range;
    assert 2 * h == range && x == range * q + r;
    EvenRemainder(x, h, q, r);
  }

  lemma StepInOrder(c: Codec, st: State, x: Input)
    requires Steady(st) && InOrder(c, st, x)
    ensures Extract(c, st, x.au, x.pts).1 == Some(x.pts) && Steady(Extract(c, st, x.au, x.pts).0)
  {
    var sps := st.spsp.value;
    hide PocRange, Scan;
    var range := PocRange(sps);
    EvenModEven(st.expectedPoc + 2, range);
    assert PocDiff((st.expectedPoc + 2) % range, (st.expectedPoc + 2) % range, range) == 0;
  }

  function Timestamps(c: Codec, st: State, xs: seq<Input>): (r: seq<Option<int>>)
    requires Bounded(st)
    decreases |xs|
  {
    if xs == [] then []
    else
      InnerKeeps(c, st, xs[0].au, xs[0].pts);
      var (s, r) := Extract(c, st, xs[0].au, xs[0].pts);
      [r] + Timestamps(c, s, xs[1..])
  }

  predicate AllInOrder(c: Codec, st: State, xs: seq<Input>)
    requires Steady(st)
    decreases |xs|
  {
    xs == [] ||
    (InOrder(c, st, xs[0]) &&
     (StepInOrder(c, st, xs[0]); AllInOrder(c, Extract(c, st, xs[0].au, xs[0].pts).0, xs[1..])))
  }

  /** A stream whose pictures are displayed in decoding order keeps its presentation
      timestamps as decoding timestamps, without an error, however long it runs and however
      often the picture order count wraps. */
  lemma {:induction false} InOrderKeepsPts(c: Codec, st: State, xs: seq<Input>)
    requires Steady(st) && AllInOrder(c, st, xs)
    ensures Timestamps(c, st, xs) == seq(|xs|, i requires 0 <= i < |xs| => Some(xs[i].pts))
    decreases |xs|
  {
    if xs != [] {
      hide Extract, InOrder;
      StepInOrder(c, st, xs[0]);
      InOrderKeepsPts(c, Extract(c, st, xs[0].au, xs[0].pts).0, xs[1..]);
    }
  }

  // ---------------------------------------------------------------- the object

  class DTSExtractor {
    const codec: Codec
    var sps: seq<byte>
    var spsp: Option<Sps>
    var prevDTSFilled: bool
    var prevDTS: int
    var expectedPOC: int
    var reorderedFrames: int
    var pauseDTS: int
    var pocIncrement: int

    ghost function Value(): State
      reads this
    {
      State(sps, spsp, prevDTSFilled, prevDTS, expectedPOC, reorderedFrames, pauseDTS, pocIncrement)
    }

    constructor (codec: Codec)
      ensures Value() == FRESH && this.codec == codec
    {
      this.codec := codec;
      sps, spsp, prevDTSFilled, prevDTS := [], None, false, 0;
      expectedPOC, reorderedFrames, pauseDTS, pocIncrement := 0, 0, 0, 2;
    }

    /** Lines 94-118. */
    method ScanUnits(au: seq<Nalu>) returns (ok: bool, idr: Option<Nalu>, nonIDR: Option<Nalu>)
      modifies this
      ensures Scan(codec, old(Value()), au) == if ok then Units(Value(), idr, nonIDR) else Unreadable(Value())
    {
      idr, nonIDR := None, None;
      var i := 0;
      assert au[..0] == [];
      while i < |au|
        invariant 0 <= i <= |au|
        invariant Scan(codec, old(Value()), au[..i]) == Units(Value(), idr, nonIDR)
      {
        assert au[..i + 1][..i] == au[..i] && au[..i + 1][i] == au[i];
        var typ := au[i][0] % 32;
        if typ == SPS {
          if sps != au[i] {
            var parsed := codec.parseSps(au[i]);
            if parsed.None? {
              ScanStops(codec, old(Value()), au, i + 1);
              return false, None, None;
            }
            sps := au[i];
            spsp := parsed;
            reorderedFrames := 0;
            pocIncrement := 2;
          }
        } else if typ == IDR {
          idr := Some(au[i]);
        } else if typ == NON_IDR {
          nonIDR := Some(au[i]);
        }
        i := i + 1;
      }
      assert au[..i] == au;
      return true, idr, nonIDR;
    }

    method ExtractInner(au: seq<Nalu>, pts: int) returns (g: Guess)
      requires Bounded(Value())
      modifies this
      ensures (Value(), g) == Inner(codec, old(Value()), au, pts)
    {
      hide Scan;
      ScanKeeps(codec, Value(), au);
      var ok, idr, nonIDR := ScanUnits(au);
      if !ok || spsp.None? { return Error; }
      var p := spsp.value;
      if p.picOrderCntType == 2 || !p.frameMbsOnly { return Guess(pts, false); }
      if p.picOrderCntType == 1 { return Error; }
      if idr.Some? {
        expectedPOC := 0;
        pauseDTS := 0;
        if !prevDTSFilled || reorderedFrames == 0 { return Guess(pts, false); }
        return Guess(prevDTS + Quotient(pts - prevDTS, reorderedFrames + 1), false);
      } else if nonIDR.Some? {
        g := ExtractNonIDR(p, nonIDR.value, pts);
      } else {
        return Error;
      }
    }

    /** Lines 144-192. */
    method ExtractNonIDR(p: Sps, nalu: Nalu, pts: int) returns (g: Guess)
      requires Bounded(Value())
      modifies this
      ensures (Value(), g) == NonIdr(codec, old(Value()), p, nalu, pts)
    {
      hide PocRange, Masked, PocDiff, Quotient;
      expectedPOC := Masked(expectedPOC + pocIncrement, PocRange(p));
      if pauseDTS > 0 {
        pauseDTS := pauseDTS - 1;
        return Guess(prevDTS + MILLISECOND, true);
      }
      var poc := codec.readPoc(nalu, p);
      if poc.None? { return Error; }
      if pocIncrement == 2 && poc.value % 2 != 0 {
        pocIncrement := 1;
        expectedPOC := expectedPOC / 2;
      }
      var pocDiff := Quotient(PocDiff(poc.value, expectedPOC, PocRange(p)), pocIncrement);
      var limit := -(reorderedFrames + 1);
      if pocDiff < limit {
        var increase := limit - pocDiff;
        if reorderedFrames + increase > MAX_REORDERED { return Error; }
        reorderedFrames := reorderedFrames + increase;
        pauseDTS := increase;
        return Guess(prevDTS + MILLISECOND, true);
      }
      if pocDiff == limit { return Guess(pts, false); }
      if pocDiff > reorderedFrames {
        var increase := pocDiff - reorderedFrames;
        if reorderedFrames + increase > MAX_REORDERED { return Error; }
        reorderedFrames := reorderedFrames + increase;
        pauseDTS := increase - 1;
        return Guess(prevDTS + MILLISECOND, false);
      }
      return Guess(prevDTS + Quotient(pts - prevDTS, pocDiff + reorderedFrames + 1), false);
    }

    method ExtractDTS(au: seq<Nalu>, pts: int) returns (dts: Option<int>)
      requires Bounded(Value())
      modifies this
      ensures Bounded(Value()) && (Value(), dts) == Extract(codec, old(Value()), au, pts)
    {
      hide Inner;
      InnerKeeps(codec, Value(), au, pts);
      var g := ExtractInner(au, pts);
      if g.Error? || (!g.skip && g.dts > pts) { return None; }
      if prevDTSFilled && g.dts <= prevDTS { return None; }
      prevDTS := g.dts;
      prevDTSFilled := true;
      return Some(g.dts);
    }
  }

  lemma {:induction false} ScanStops(c: Codec, st: State, au: seq<Nalu>, i: nat)
    requires i <= |au| && Scan(c, st, au[..i]).Unreadable?
    ensures Scan(c, st, au) == Scan(c, st, au[..i])
  {
    if i == |au| {
      assert au[..i] == au;
    } else {
      assert au[..|au| - 1][..i] == au[..i];
      ScanStops(c, st, au[..|au| - 1], i);
    }
  }
}
