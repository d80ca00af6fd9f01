/** Splitting a byte stream into NAL units at start codes (Annex B of ITU-T H.264). */
module Nalus {
  import opened Octets

  const SHORT: Bytes := [0, 0, 1]
  const LONG: Bytes := [0, 0, 0, 1]

  /** `bytes.Index`: the first occurrence from `from` on, or -1. */
  function IndexFrom(s: Bytes, code: Bytes, from: nat): (r: int)
    ensures r == -1 || (from <= r && OccursAt(s, code, r))
    ensures forall i: nat | from <= i && (i < r || r == -1) :: !OccursAt(s, code, i)
    decreases |s| - from
  {
    if from > |s| then -1
    else if OccursAt(s, code, from) then from
    else IndexFrom(s, code, from + 1)
  }

  function Index(s: Bytes, code: Bytes): (r: int)
    ensures r == -1 || (0 <= r && OccursAt(s, code, r))
    ensures forall i: nat | i < r || r == -1 :: !OccursAt(s, code, i)
  {
    IndexFrom(s, code, 0)
  }

  function Piece(s: Bytes): seq<Bytes> { if s == [] then [] else [s] }

  function Pieces(s: Bytes): (r: seq<Bytes>)
    decreases |s|
  {
    var long := Index(s, LONG);
    var short := Index(s, SHORT);
    if s == [] then []
    else if long != -1 then Piece(s[..long]) + Pieces(s[long + 4..])
    else if short != -1 then Piece(s[..short]) + Pieces(s[short + 3..])
    else [s]
  }

  function PiecesFrom(s: Bytes, start: nat): seq<Bytes>
    requires start <= |s|
  {
    Pieces(s[start..])
  }

  /** One round of the loop: where the next start code lies and how long it is; -1 for none. */
  method NextCode(nals: Bytes, start: nat) returns (end: int, offset: nat)
    requires start < |nals|
    ensures if end == -1 then PiecesFrom(nals, start) == [nals[start..]]
            else 0 <= end && start + end + offset <= |nals| && 0 < offset &&
                 PiecesFrom(nals, start) == Piece(nals[start..start + end]) + PiecesFrom(nals, start + end + offset)
  {
    var rest := nals[start..];
    end := Index(rest, LONG);
    offset := 4;
    if end == -1 {
      end := Index(rest, SHORT);
      offset := 3;
    }
    if end != -1 {
      assert rest[..end] == nals[start..start + end] && rest[end + offset..] == nals[start + end + offset..];
    }
  }

  method Split264Nalus(nals: Bytes) returns (au: seq<Bytes>)
    ensures au == Pieces(nals)
  {
    hide PiecesFrom, Pieces, Piece;
    var start := 0;
    au := [];
    FromStartToEnd(nals);
    while start < |nals|
      invariant 0 <= start <= |nals|
      invariant Pieces(nals) == au + PiecesFrom(nals, start)
    {
      var end, offset := NextCode(nals, start);
      if end == -1 {
        au := au + [nals[start..]];
        return;
      }
      Extend(au, nals[start..start + end], PiecesFrom(nals, start + end + offset));
      if end > 0 {
        au := au + [nals[start..start + end]];
      }
      start := start + end + offset;
    }
  }

  lemma FromStartToEnd(s: Bytes)
    ensures PiecesFrom(s, 0) == Pieces(s) && PiecesFrom(s, |s|) == []
  {
    assert s[0..] == s;
  }

  lemma Extend(au: seq<Bytes>, x: Bytes, next: seq<Bytes>)
    ensures au + (Piece(x) + next) == (if x == [] then au else au + [x]) + next
  {}

  /** Every piece is non-empty, so its first byte can be read, and holds no 4-byte code. */
  lemma {:induction false} PiecesProper(s: Bytes)
    ensures forall i | 0 <= i < |Pieces(s)| :: Pieces(s)[i] != [] && !Contains(Pieces(s)[i], LONG)
    decreases |s|
  {
    var long, short := Index(s, LONG), Index(s, SHORT);
    if s != [] {
      if long != -1 {
        NoCodeBefore(s, LONG, long);
        PiecesProper(s[long + 4..]);
      } else if short != -1 {
        NoCodeBefore(s, LONG, short);
        PiecesProper(s[short + 3..]);
      }
    }
  }

  lemma NoCodeBefore(s: Bytes, code: Bytes, end: nat)
    requires end <= |s| && forall i: nat | i < end :: !OccursAt(s, code, i)
    requires |code| > 0
    ensures !Contains(s[..end], code)
  {
    forall i: nat | i <= end ensures !OccursAt(s[..end], code, i) {
      if i + |code| <= end {
        assert !OccursAt(s, code, i);
        assert s[..end][i..i + |code|] == s[i..i + |code|];
      }
    }
  }

  /** The units written one after the other, each behind a 4-byte start code. */
  function Framed(units: seq<Bytes>): Bytes {
    if units == [] then [] else LONG + units[0] + Framed(units[1..])
  }

  predicate Unit(u: Bytes) { u != [] && !Contains(u, SHORT) }

  /** The first 4-byte code after a unit is the one that was put there, even if the unit ends
      in zeros. */
  lemma CodeAfterUnit(u: Bytes, rest: Bytes)
    requires Unit(u)
    ensures Index(u + LONG + rest, LONG) == |u|
  {
    var s := u + LONG + rest;
    assert s[|u|..|u| + 4] == LONG;
    forall i: nat | i < |u| ensures !OccursAt(s, LONG, i) {
      assert s[i..i + 4] == [s[i], s[i + 1], s[i + 2], s[i + 3]];
      if i + 3 < |u| {
        assert !OccursAt(u, SHORT, i + 1);
        assert u[i + 1..i + 1 + |SHORT|] == [u[i + 1], u[i + 2], u[i + 3]];
      } else {
        assert s[i + 3] == 0;
      }
    }
    assert OccursAt(s, LONG, |u|);
  }

  lemma LastUnit(u: Bytes)
    requires Unit(u)
    ensures Pieces(u) == [u]
  {
    assert forall i: nat | i <= |u| :: !OccursAt(u, SHORT, i);
    forall i: nat ensures !OccursAt(u, LONG, i) {
      if i + 4 <= |u| {
        assert !OccursAt(u, SHORT, i + 1);
        assert u[i..i + 4][1..] == u[i + 1..i + 1 + |SHORT|];
      }
    }
  }

  /** Splitting undoes framing. */
  lemma {:induction false} SplitOfFramed(units: seq<Bytes>)
    requires forall i | 0 <= i < |units| :: Unit(units[i])
    ensures Pieces(Framed(units)) == units
  {
    if units != [] {
      var rest := units[0] + Framed(units[1..]);
      var s := [] + (LONG + rest);
      assert Framed(units) == s;
      hide Pieces, Framed;
      CodeLong(s, 0);
      LongStep(s, [], rest);
      SplitAfterCode(units);
    }
  }

  lemma {:induction false} SplitAfterCode(units: seq<Bytes>)
    requires units != [] && forall i | 0 <= i < |units| :: Unit(units[i])
    ensures Pieces(units[0] + Framed(units[1..])) == units
    decreases |units|
  {
    var u, more := units[0], units[1..];
    if more == [] {
      assert u + Framed(more) == u;
      LastUnit(u);
    } else {
      var s := u + Framed(more);
      var after := more[0] + Framed(more[1..]);
      assert s == u + LONG + after;
      CodeAfterUnit(u, after);
      assert s[..|u|] == u && s[|u| + 4..] == after;
      SplitAfterCode(more);
      assert units == [u] + more;
    }
  }

  // ---------------------------------------------------------------- both kinds of start code

  /** A unit behind a start code of three or four bytes. */
  datatype Coded = Coded(long: bool, unit: Bytes)

  function Code(c: Coded): Bytes { if c.long then LONG else SHORT }

  function Mixed(cs: seq<Coded>): Bytes {
    if cs == [] then [] else Code(cs[0]) + cs[0].unit + Mixed(cs[1..])
  }

  function UnitsOf(cs: seq<Coded>): seq<Bytes> {
    if cs == [] then [] else [cs[0].unit] + UnitsOf(cs[1..])
  }

  /** As Annex B demands of a NAL unit: it does not end in a zero byte either. */
  predicate Strict(u: Bytes) { Unit(u) && u[|u| - 1] != 0 }

  predicate AllStrict(cs: seq<Coded>) { forall i | 0 <= i < |cs| :: Strict(cs[i].unit) }

  /** No 4-byte code comes after a 3-byte one. */
  predicate LongFirst(cs: seq<Coded>) {
    cs == [] || (if cs[0].long then LongFirst(cs[1..]) else AllShort(cs))
  }

  predicate AllShort(cs: seq<Coded>) { forall i | 0 <= i < |cs| :: !cs[i].long }

  lemma CodeLong(s: Bytes, i: nat)
    ensures OccursAt(s, LONG, i) <==> i + 4 <= |s| && s[i] == 0 && s[i + 1] == 0 && s[i + 2] == 0 && s[i + 3] == 1
  {
    if i + 4 <= |s| { assert s[i..i + 4] == [s[i], s[i + 1], s[i + 2], s[i + 3]]; }
  }

  lemma CodeShort(s: Bytes, i: nat)
    ensures OccursAt(s, SHORT, i) <==> i + 3 <= |s| && s[i] == 0 && s[i + 1] == 0 && s[i + 2] == 1
  {
    if i + 3 <= |s| { assert s[i..i + 3] == [s[i], s[i + 1], s[i + 2]]; }
  }

  /** No start code begins inside a unit, whatever follows it. */
  lemma NoneInside(u: Bytes, rest: Bytes, i: nat)
    requires Strict(u) && i < |u|
    ensures !OccursAt(u + rest, LONG, i) && !OccursAt(u + rest, SHORT, i)
  {
    var s := u + rest;
    CodeLong(s, i);
    CodeShort(s, i);
    assert s[|u| - 1] == u[|u| - 1];
    if i + 3 <= |u| {
      assert !OccursAt(u, SHORT, i);
      CodeShort(u, i);
    }
    if i + 4 <= |u| {
      assert !OccursAt(u, SHORT, i + 1);
      CodeShort(u, i + 1);
    }
  }

  /** A unit, or nothing, may stand in front of the first code. */
  predicate Front(u: Bytes) { u == [] || Strict(u) }

  /** Units behind 3-byte codes do not look as if they held a 4-byte one. */
  lemma {:induction false} NoLongWithin(u: Bytes, shorts: seq<Coded>, rest: Bytes, i: nat)
    requires Front(u) && AllStrict(shorts) && AllShort(shorts) && i < |u + Mixed(shorts)|
    ensures !OccursAt(u + Mixed(shorts) + rest, LONG, i)
    decreases |shorts|
  {
    var s := u + Mixed(shorts) + rest;
    if i < |u| {
      NoneInside(u, Mixed(shorts) + rest, i);
      assert s == u + (Mixed(shorts) + rest);
    } else {
      var v, more := shorts[0].unit, shorts[1..];
      var t := v + Mixed(more) + rest;
      assert shorts == [shorts[0]] + more;
      MixedCons(shorts[0], more);
      hide Mixed, OccursAt;
      assert s == u + SHORT + t;
      if i >= |u| + 3 { NoLongWithin(v, more, rest, i - |u| - 3); }
      NoLongAfterShort(u, t, i);
    }
  }

  lemma NoLongAfterShort(u: Bytes, t: Bytes, i: nat)
    requires |u| <= i && (i < |u| + 3 || !OccursAt(t, LONG, i - |u| - 3))
    ensures !OccursAt(u + SHORT + t, LONG, i)
  {
    var s := u + SHORT + t;
    CodeLong(s, i);
    if i < |u| + 3 {
      assert s[|u| + 2] == 1;
    } else {
      CodeLong(t, i - |u| - 3);
      assert s[|u| + 3..] == t;
    }
  }

  lemma {:induction false} MixedConcat(a: seq<Coded>, b: seq<Coded>)
    ensures Mixed(a + b) == Mixed(a) + Mixed(b)
  {
    if a == [] {
      assert a + b == b;
    } else {
      assert (a + b)[1..] == a[1..] + b;
      MixedConcat(a[1..], b);
    }
  }

  /** The 4-byte code found first is the first one that was written. */
  lemma FirstLong(u: Bytes, shorts: seq<Coded>, rest: Bytes)
    requires Front(u) && AllStrict(shorts) && AllShort(shorts)
    ensures Index(u + Mixed(shorts) + (LONG + rest), LONG) == |u + Mixed(shorts)|
    ensures Index(u + Mixed(shorts), LONG) == -1
  {
    var p := u + Mixed(shorts);
    var s := p + (LONG + rest);
    forall i: nat | i < |p| ensures !OccursAt(s, LONG, i) && !OccursAt(p, LONG, i) {
      NoLongWithin(u, shorts, LONG + rest, i);
      NoLongWithin(u, shorts, [], i);
      assert p + [] == p;
    }
    CodeLong(s, |p|);
  }

  lemma FirstShort(u: Bytes, rest: Bytes)
    requires Front(u)
    ensures Index(u + (SHORT + rest), SHORT) == |u|
  {
    var s := u + (SHORT + rest);
    forall i: nat | i < |u| ensures !OccursAt(s, SHORT, i) { NoneInside(u, SHORT + rest, i); }
    CodeShort(s, |u|);
  }

  function LeadingShorts(cs: seq<Coded>): (k: nat)
    ensures k <= |cs| && AllShort(cs[..k]) && (k < |cs| ==> cs[k].long)
  {
    if cs == [] || cs[0].long then 0
    else
      var k := LeadingShorts(cs[1..]) + 1;
      assert cs[..k] == [cs[0]] + cs[1..][..k - 1];
      k
  }

  lemma ShortStep(s: Bytes, u: Bytes, t: Bytes)
    requires s == u + (SHORT + t) && Index(s, LONG) == -1 && Index(s, SHORT) == |u|
    ensures Pieces(s) == Piece(u) + Pieces(t)
  {
    assert s[..|u|] == u && s[|u| + 3..] == t;
  }

  lemma LongStep(s: Bytes, p: Bytes, w: Bytes)
    requires s == p + (LONG + w) && Index(s, LONG) == |p|
    ensures Pieces(s) == Piece(p) + Pieces(w)
  {
    assert s[..|p|] == p && s[|p| + 4..] == w;
  }

  lemma SameFront(a: seq<Bytes>, x: seq<Bytes>, y: seq<Bytes>)
    ensures a + x == a + y <==> x == y
  {
    if a + x == a + y { assert (a + x)[|a|..] == x && (a + y)[|a|..] == y; }
  }

  lemma AllShortSplit(u: Bytes, cs: seq<Coded>)
    requires Front(u) && cs != [] && AllStrict(cs) && AllShort(cs)
    ensures Pieces(u + Mixed(cs)) == Piece(u) + Pieces(cs[0].unit + Mixed(cs[1..]))
  {
    hide Pieces, Mixed, Front, Strict;
    var t := cs[0].unit + Mixed(cs[1..]);
    assert cs == [cs[0]] + cs[1..];
    MixedCons(cs[0], cs[1..]);
    assert u + Mixed(cs) == u + (SHORT + t);
    FirstLong(u, cs, []);
    FirstShort(u, t);
    ShortStep(u + Mixed(cs), u, t);
  }

  lemma LongSplit(u: Bytes, cs: seq<Coded>, k: nat)
    requires Front(u) && k < |cs| && AllStrict(cs) && AllShort(cs[..k]) && cs[k].long
    ensures Pieces(u + Mixed(cs)) == Piece(u + Mixed(cs[..k])) + Pieces(cs[k].unit + Mixed(cs[k + 1..]))
  {
    hide Pieces, Mixed, Front, Strict;
    var p, w := u + Mixed(cs[..k]), cs[k].unit + Mixed(cs[k + 1..]);
    MixedAt(cs, k);
    assert u + Mixed(cs) == p + (LONG + w);
    FirstLong(u, cs[..k], w);
    LongStep(u + Mixed(cs), p, w);
  }

  lemma MixedAt(cs: seq<Coded>, k: nat)
    requires k < |cs|
    ensures Mixed(cs) == Mixed(cs[..k]) + (Code(cs[k]) + (cs[k].unit + Mixed(cs[k + 1..])))
  {
    hide Mixed, Code;
    var before, after := cs[..k], cs[k + 1..];
    var tail := [cs[k]] + after;
    assert cs == before + tail;
    MixedCons(cs[k], after);
    MixedConcat(before, tail);
  }

  lemma MixedCons(c: Coded, cs: seq<Coded>)
    ensures Mixed([c] + cs) == Code(c) + (c.unit + Mixed(cs))
  {
    var all := [c] + cs;
    assert all[1..] == cs;
  }

  lemma ShortsLongFirst(cs: seq<Coded>)
    requires cs != [] && AllShort(cs)
    ensures LongFirst(cs) && LongFirst(cs[1..])
  {}

  lemma MixedLonger(cs: seq<Coded>)
    requires cs != []
    ensures |Mixed(cs)| > |cs[0].unit|
  {}

  lemma {:induction false} SplitAfterMixed(u: Bytes, cs: seq<Coded>)
    requires Front(u) && AllStrict(cs)
    ensures Pieces(u + Mixed(cs)) == Piece(u) + UnitsOf(cs) <==> LongFirst(cs)
    decreases |cs|
  {
    if cs == [] {
      assert u + Mixed(cs) == u && Piece(u) + UnitsOf(cs) == Piece(u);
      if u != [] { LastUnit(u); }
    } else {
      var v, more := cs[0].unit, cs[1..];
      hide Pieces, Mixed, Strict;
      assert Front(v) && v != [] by { WholeUnit(v); }
      SplitAfterMixed(v, more);
      assert Piece(v) + UnitsOf(more) == UnitsOf(cs);
      SameFront(Piece(u), Pieces(v + Mixed(more)), UnitsOf(cs));
      var k := LeadingShorts(cs);
      if k == |cs| {
        assert cs[..k] == cs;
        AllShortSplit(u, cs);
        ShortsLongFirst(cs);
      } else {
        LongSplit(u, cs, k);
        if k == 0 {
          assert Mixed(cs[..0]) == [] && u + [] == u by { MixedNothing(); }
        } else {
          assert cs[..k][0] == cs[0];
          MixedLonger(cs[..k]);
          FirstDiffers(u, Mixed(cs[..k]), Pieces(cs[k].unit + Mixed(cs[k + 1..])), v, UnitsOf(more));
        }
      }
    }
  }

  lemma WholeUnit(u: Bytes)
    requires Strict(u)
    ensures u != []
  {}

  lemma MixedNothing()
    ensures Mixed([]) == []
  {}

  lemma FirstDiffers(u: Bytes, m: Bytes, xs: seq<Bytes>, v: Bytes, ys: seq<Bytes>)
    requires |m| > |v|
    ensures Piece(u + m) + xs != Piece(u) + ([v] + ys)
  {
    assert (Piece(u + m) + xs)[0] == u + m;
    assert (Piece(u) + ([v] + ys))[0] == if u == [] then v else u;
  }

  /** With both kinds of start code, splitting undoes framing if and only if no 4-byte code
      comes after a 3-byte one: the search for the longer code runs past the shorter. */
  lemma SplitOfMixed(cs: seq<Coded>)
    requires AllStrict(cs)
    ensures Pieces(Mixed(cs)) == UnitsOf(cs) <==> LongFirst(cs)
  {
    hide Pieces, Mixed, LongFirst, UnitsOf;
    SplitAfterMixed([], cs);
    assert [] + Mixed(cs) == Mixed(cs) && Piece([]) + UnitsOf(cs) == UnitsOf(cs);
  }

  /** A 3-byte code in front of a later 4-byte code is not seen as one. */
  lemma ShortCodeBeforeLongMissed()
    ensures Pieces(SHORT + [65] + LONG + [66]) == [SHORT + [65], [66]]
  {
    var s := SHORT + [65] + LONG + [66];
    assert s[4..4 + 4] == LONG;
    assert OccursAt(s, LONG, 4);
    assert Index(s, LONG) == 4 by {
      forall i: nat | i < 4 ensures !OccursAt(s, LONG, i) {
        assert s[i..i + 4][3] == s[i + 3] && s[i..i + 4][2] == s[i + 2];
      }
    }
    assert s[..4] == SHORT + [65] && s[8..] == [66];
    LastUnit([66]);
  }
}
