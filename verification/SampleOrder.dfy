/** Frames whose packets arrive in any order: they come out whole if and only if the first packet
    of the frame arrives first, because only then the frame starts at ring position 0. */
module SampleOrder {
  import opened Octets
  import opened Serial
  import opened SampleBuffer
  import opened SampleBufferAccount
  import opened SampleFrames
  import opened SampleStream

  /** The packets of the frame that have arrived, with the first and the last of them. */
  datatype Arrived = Arrived(all: set<nat>, lo: nat, hi: nat)
  {
    predicate Ok(n: nat) {
      lo in all && hi in all && hi < n && forall i | i in all :: lo <= i <= hi
    }

    function With(i: nat): Arrived {
      Arrived(all + {i}, if i < lo then i else lo, if i > hi then i else hi)
    }
  }

  /** What the window holds of the frame. */
  function Shown(f: seq<Packet>, s: Arrived, k: nat): Slot
    requires k < |f|
  {
    if k in s.all then SlotOf(f, k) else Empty
  }

  predicate Shows(w: seq<Slot>, f: seq<Packet>, s: Arrived) {
    s.hi < |f| && s.lo <= s.hi && |w| == s.hi + 1 - s.lo &&
    forall k | 0 <= k < |w| :: w[k] == Shown(f, s, s.lo + k)
  }

  /** The packets in `s` have been pushed into the empty builder `a`, packet `base` first. */
  predicate Gathering(a: Buffer, b: Buffer, f: seq<Packet>, s: Arrived, base: nat) {
    && s.Ok(|f|) && base in s.all && Shows(b.window, f, s)
    && b.tail == (if s.lo == base then 0 else b.Size() - (base - s.lo))
    && b == a.(window := b.window, tail := b.tail, trail := b.trail)
  }

  /** The frame may arrive in this way: its first packet first, or it is not too long. */
  predicate Startable(d: Depacketizer, a: Buffer, f: seq<Packet>, base: nat) {
    Ready(d, a, f) && base < |f| && (base == 0 || |f| <= a.maxLate)
  }

  lemma GatheringShape(d: Depacketizer, a: Buffer, b: Buffer, f: seq<Packet>, s: Arrived, base: nat)
    requires Startable(d, a, f, base) && Gathering(a, b, f, s, base)
    ensures Shape(b) && b.window != [] && b.window[0].Full? && b.maxLate == a.maxLate
    ensures Newest(b) == Add(f[0].seqno, s.hi) && b.window[0].packet.seqno == Add(f[0].seqno, s.lo)
    ensures |b.window| == s.hi + 1 - s.lo && (base == 0 ==> s.lo == 0)
  {
    var w := b.window;
    assert w[0] == SlotOf(f, s.lo) && w[|w| - 1] == SlotOf(f, s.hi);
    forall k | 0 <= k < |w| && w[k].Full? ensures w[k].packet.seqno == Add(w[0].packet.seqno, k) {
      assert w[k] == SlotOf(f, s.lo + k);
    }
  }

  // ---------------------------------------------------------------- Push

  lemma FirstArrives(d: Depacketizer, a: Buffer, f: seq<Packet>, base: nat)
    requires Startable(d, a, f, base)
    ensures Push(d, a, f[base]).Done?
    ensures Gathering(a, Push(d, a, f[base]).b, f, Arrived({base}, base, base), base)
  {
    AloneScreens(d, a, f, base);
    assert Fresh(d, f[base]) == SlotOf(f, base);
    var c := Screen(a, f[base]).b;
    hide Screen, Shape;
    assert Push(d, a, f[base]) == Done(c.(window := [Fresh(d, f[base])]));
  }

  lemma AloneScreens(d: Depacketizer, a: Buffer, f: seq<Packet>, base: nat)
    requires Startable(d, a, f, base)
    ensures Screen(a, f[base]).Admitted?
    ensures var r := Screen(a, f[base]).b; r == a.(trail := r.trail)
  {
    if a.lastSeqno.Some? { assert Fwd(a.lastSeqno.value, f[base].seqno) == base + 1; }
  }

  /** Nothing is late, and `lastSeqno` keeps its value. */
  lemma GatheringScreens(d: Depacketizer, a: Buffer, b: Buffer, f: seq<Packet>, s: Arrived, base: nat, i: nat)
    requires Startable(d, a, f, base) && Gathering(a, b, f, s, base) && i < |f|
    ensures Shape(b) && Screen(b, f[i]).Admitted? && Gathering(a, Screen(b, f[i]).b, f, s, base)
  {
    GatheringShape(d, a, b, f, s, base);
    hide Shows;
    if b.lastSeqno.Some? {
      var last := b.lastSeqno.value;
      assert Fwd(last, f[i].seqno) == i + 1;
      assert Fwd(last, Sub(b.window[0].packet.seqno, 1)) == s.lo;
      ScreenKeepsLast(b, f[i], i, s.lo);
    }
  }

  lemma ScreenKeepsLast(b: Buffer, p: Packet, i: nat, lo: nat)
    requires Shape(b) && b.window != [] && b.window[0].Full? && b.lastSeqno.Some?
    requires i < 0x8000 && lo < 0x8000 && Fwd(b.lastSeqno.value, p.seqno) == i + 1
    requires Fwd(b.lastSeqno.value, Sub(b.window[0].packet.seqno, 1)) == lo && (lo == 0 || i + 1 <= b.maxLate)
    ensures Screen(b, p).Admitted?
    ensures var r := Screen(b, p).b; r == b.(trail := r.trail)
  {}

  lemma PutIn(d: Depacketizer, x: seq<Slot>, f: seq<Packet>, s: Arrived, i: nat, lo: nat)
    requires Frame(d, f) && s.Ok(|f|) && i < |f| && i !in s.all && lo <= i && i - lo < |x| && lo + |x| <= |f|
    requires (forall k | 0 <= k < |x| :: x[k] == Shown(f, s, lo + k)) && x[i - lo].Empty?
    ensures Insert(d, x, i - lo, f[i]) == x[i - lo := SlotOf(f, i)]
  {
    var k := i - lo;
    if k > 0 && x[k - 1].Full? { assert x[k - 1] == SlotOf(f, i - 1); }
    if k + 1 < |x| && x[k + 1].Full? { assert x[k + 1] == SlotOf(f, i + 1); }
    assert f[i].timestamp == f[0].timestamp;
  }

  lemma NextArrives(d: Depacketizer, a: Buffer, b: Buffer, f: seq<Packet>, s: Arrived, base: nat, i: nat)
    requires Startable(d, a, f, base) && Gathering(a, b, f, s, base) && i == s.hi + 1 < |f|
    ensures Shape(b) && Place(d, b, f[i]).Done? && Gathering(a, Place(d, b, f[i]).b, f, s.With(i), base)
  {
    GatheringShape(d, a, b, f, s, base);
    var w, n := b.window, |b.window|;
    assert w[n - 1] == SlotOf(f, s.hi);
    assert Fwd(Newest(b), f[i].seqno) == 1 && n < b.Cap();
    assert Place(d, b, f[i]) == Done(Attach(d, b, f[i]));
    hide Shape, Place;
    assert w[n - 1 := w[n - 1]] == w;
    var v := Attach(d, b, f[i]).window;
    assert v == w + [SlotOf(f, i)];
    ShowsMore(w, v, f, s, i);
  }

  lemma ShowsMore(w: seq<Slot>, v: seq<Slot>, f: seq<Packet>, s: Arrived, i: nat)
    requires s.Ok(|f|) && Shows(w, f, s) && s.hi < i < |f|
    requires v == w + Empties(i - s.hi - 1) + [SlotOf(f, i)]
    ensures Shows(v, f, s.With(i)) && s.With(i).Ok(|f|)
  {
    forall k | 0 <= k < |v| ensures v[k] == Shown(f, s.With(i), s.lo + k) {
      if k < |w| { assert v[k] == w[k]; }
    }
  }

  lemma AheadArrives(d: Depacketizer, a: Buffer, b: Buffer, f: seq<Packet>, s: Arrived, base: nat, i: nat)
    requires Startable(d, a, f, base) && Gathering(a, b, f, s, base) && s.hi + 1 < i < |f|
    ensures Shape(b) && Place(d, b, f[i]).Done? && Gathering(a, Place(d, b, f[i]).b, f, s.With(i), base)
  {
    GatheringShape(d, a, b, f, s, base);
    var w, ahead := b.window, i - s.hi;
    assert Fwd(Newest(b), f[i].seqno) == ahead && |w| + ahead <= b.Cap();
    assert MakeRoom(b, ahead) == b && Place(d, b, f[i]) == Done(Skip(d, b, f[i], ahead));
    hide Shape, Place, MakeRoom;
    assert Fresh(d, f[i]) == SlotOf(f, i);
    ShowsMore(w, Skip(d, b, f[i], ahead).window, f, s, i);
  }

  lemma GapArrives(d: Depacketizer, a: Buffer, b: Buffer, f: seq<Packet>, s: Arrived, base: nat, i: nat)
    requires Startable(d, a, f, base) && Gathering(a, b, f, s, base) && s.lo < i < s.hi && i !in s.all
    ensures Shape(b) && Place(d, b, f[i]).Done? && Gathering(a, Place(d, b, f[i]).b, f, s.With(i), base)
  {
    hide Shape, Place, Insert, Shows, Frame, Add;
    GatheringShape(d, a, b, f, s, base);
    var w, k := b.window, i - s.lo;
    ShowsGap(d, w, f, s, i);
    FrameNumbers(d, f, s.lo, i);
    FrameNumbers(d, f, i, s.hi);
    FrameNumbers(d, f, s.hi, s.hi);
    GapPlace(d, b, f[i], k, s.hi - i);
  }

  lemma ShowsGap(d: Depacketizer, w: seq<Slot>, f: seq<Packet>, s: Arrived, i: nat)
    requires Frame(d, f) && s.Ok(|f|) && Shows(w, f, s) && s.lo < i < s.hi && i !in s.all
    ensures w[i - s.lo].Empty?
    ensures Shows(Insert(d, w, i - s.lo, f[i]), f, s.With(i)) && s.With(i).Ok(|f|)
  {
    assert w[i - s.lo] == Shown(f, s, i);
    PutIn(d, w, f, s, i, s.lo);
    hide Insert, Frame;
    ShowsFilled(w, f, s, i);
  }

  lemma FrameNumbers(d: Depacketizer, f: seq<Packet>, i: nat, j: nat)
    requires Frame(d, f) && i <= j < |f| < 0x1_0000
    ensures f[j].seqno == Add(f[i].seqno, j - i) && f[i].seqno == Add(f[0].seqno, i)
  {}

  lemma GapPlace(d: Depacketizer, b: Buffer, p: Packet, k: nat, back: nat)
    requires Shape(b) && k < |b.window| && b.window[k].Empty? && p.seqno == Add(b.window[0].packet.seqno, k)
    requires 0 < back < 0x8000 && back == |b.window| - 1 - k && back + 1 < b.Cap() && Newest(b) == Add(p.seqno, back)
    ensures Place(d, b, p) == Done(b.(window := Insert(d, b.window, k, p)))
  {
    BehindBy(b, p, back);
    hide Insert, Sequential;
  }

  lemma ShowsFilled(w: seq<Slot>, f: seq<Packet>, s: Arrived, i: nat)
    requires s.Ok(|f|) && Shows(w, f, s) && s.lo < i < s.hi
    ensures Shows(w[i - s.lo := SlotOf(f, i)], f, s.With(i)) && s.With(i).Ok(|f|)
  {}

  lemma BehindBy(b: Buffer, p: Packet, k: nat)
    requires Shape(b) && b.window != [] && 0 < k < 0x8000 && Newest(b) == Add(p.seqno, k)
    ensures Fwd(Newest(b), p.seqno) >= 0x8000 && Fwd(p.seqno, Newest(b)) == k
  {}

  lemma FrontArrives(d: Depacketizer, a: Buffer, b: Buffer, f: seq<Packet>, s: Arrived, base: nat, i: nat)
    requires Startable(d, a, f, base) && Gathering(a, b, f, s, base) && i < s.lo
    ensures Shape(b) && Place(d, b, f[i]).Done? && Gathering(a, Place(d, b, f[i]).b, f, s.With(i), base)
  {
    GatheringShape(d, a, b, f, s, base);
    var w, k := b.window, s.lo - i;
    assert w[0].packet.seqno == Add(f[i].seqno, k) && Newest(b) == Add(f[i].seqno, s.hi - i);
    FrontPlace(d, b, f[i], k);
    ShowsFront(d, w, f, s, i);
    hide Shape, Place, Insert, Shows, Around;
    assert Around(b.tail, b.Size() - k, b.Size()) == b.Size() - (base - i) by { FrontTail(b.Size(), base, s.lo, i); }
  }

  lemma FrontTail(n: nat, base: nat, lo: nat, i: nat)
    requires i < lo <= base < n
    ensures var tail := if lo == base then 0 else n - (base - lo);
            Around(tail, n - (lo - i), n) == n - (base - i)
  {}

  lemma FrontPlace(d: Depacketizer, b: Buffer, p: Packet, k: nat)
    requires Shape(b) && b.window != [] && 0 < k && |b.window| + k < b.Cap() && |b.window| + k < 0x8000
    requires b.window[0].packet.seqno == Add(p.seqno, k) && Newest(b) == Add(p.seqno, |b.window| - 1 + k)
    ensures Place(d, b, p) == Done(b.(tail := Around(b.tail, b.Size() - k, b.Size()),
                                      window := Insert(d, Empties(k) + b.window, 0, p)))
  {
    BehindBy(b, p, |b.window| - 1 + k);
    hide Insert, Sequential;
  }

  lemma ShowsFront(d: Depacketizer, w: seq<Slot>, f: seq<Packet>, s: Arrived, i: nat)
    requires Frame(d, f) && s.Ok(|f|) && Shows(w, f, s) && i < s.lo
    ensures Shows(Insert(d, Empties(s.lo - i) + w, 0, f[i]), f, s.With(i)) && s.With(i).Ok(|f|)
  {
    var k := s.lo - i;
    var x := Empties(k) + w;
    forall j | 0 <= j < |x| ensures x[j] == Shown(f, s, i + j) {
      if j >= k { assert x[j] == w[j - k]; }
    }
    PutIn(d, x, f, s, i, i);
    hide Insert, Frame;
  }

  lemma Arrives(d: Depacketizer, a: Buffer, b: Buffer, f: seq<Packet>, s: Arrived, base: nat, i: nat)
    requires Startable(d, a, f, base) && Gathering(a, b, f, s, base) && i < |f| && i !in s.all
    ensures Shape(b) && Push(d, b, f[i]).Done? && Gathering(a, Push(d, b, f[i]).b, f, s.With(i), base)
  {
    GatheringScreens(d, a, b, f, s, base, i);
    var c := Screen(b, f[i]).b;
    assert Push(d, b, f[i]) == Place(d, c, f[i]);
    hide Screen, Place, Push, Startable, Shape, Shows;
    if i == s.hi + 1 {
      NextArrives(d, a, c, f, s, base, i);
    } else if i > s.hi {
      AheadArrives(d, a, c, f, s, base, i);
    } else if i > s.lo {
      GapArrives(d, a, c, f, s, base, i);
    } else {
      FrontArrives(d, a, c, f, s, base, i);
    }
  }

  // ---------------------------------------------------------------- Pop

  lemma {:induction false} FullSet(s: set<nat>, n: nat)
    requires forall i | i in s :: i < n
    ensures |s| <= n && (|s| == n <==> forall i | 0 <= i < n :: i in s)
  {
    if n > 0 {
      var t := s - {n - 1};
      FullSet(t, n - 1);
      assert n - 1 in s ==> s == t + {n - 1};
      assert n - 1 !in s ==> s == t;
    }
  }

  /** As long as a packet is missing, the frame stays where it is. */
  lemma PopStays(d: Depacketizer, a: Buffer, b: Buffer, f: seq<Packet>, s: Arrived, base: nat, missing: nat)
    requires Startable(d, a, f, base) && Gathering(a, b, f, s, base) && missing < |f| && missing !in s.all
    ensures Shape(b) && Pop(d, b, false) == (b, Nothing)
  {
    GatheringShape(d, a, b, f, s, base);
    var w := b.window;
    assert w[0] == SlotOf(f, s.lo);
    if s.lo == 0 {
      NotWhole(w, f, s, missing);
      hide FrameEnd, Shows, Frame, Sequential;
    } else {
      assert !w[0].start && |w| - 1 <= b.maxLate;
      hide FrameEnd, Shows, Frame, Sequential;
    }
  }

  /** The walk to the end of the frame meets a gap, or the end of the window. */
  lemma NotWhole(w: seq<Slot>, f: seq<Packet>, s: Arrived, missing: nat)
    requires s.Ok(|f|) && Shows(w, f, s) && s.lo == 0 && missing < |f| && missing !in s.all
    ensures var k := FrameEnd(w, 0); k == |w| || w[k].Empty?
  {
    var k := FrameEnd(w, 0);
    assert missing < |w| ==> w[missing] == Shown(f, s, missing);
    assert k < |w| ==> w[k] == Shown(f, s, k);
  }

  /** With its first packet first, the frame is gathered as if it had arrived in order. */
  lemma WholeInOrder(d: Depacketizer, a: Buffer, b: Buffer, f: seq<Packet>, s: Arrived)
    requires Startable(d, a, f, 0) && Gathering(a, b, f, s, 0) && forall i | 0 <= i < |f| :: i in s.all
    ensures Building(a, b, f, |f|)
  {
    WholeWindow(b, f, s);
    assert SlotsOf(f)[..|f|] == SlotsOf(f);
  }

  lemma EndOfSlots(f: seq<Packet>)
    requires f != []
    ensures FrameEnd(SlotsOf(f), 0) == |f| - 1
  {
    var w := SlotsOf(f);
    var k := FrameEnd(w, 0);
    assert w[|f| - 1] == SlotOf(f, |f| - 1);
    assert k < |w| ==> w[k] == SlotOf(f, k);
  }

  /** The sample of all packets but the last. */
  lemma PopCuts(d: Depacketizer, a: Buffer, b: Buffer, f: seq<Packet>, s: Arrived, base: nat)
    requires Startable(d, a, f, base) && base > 0 && Gathering(a, b, f, s, base)
    requires forall i | 0 <= i < |f| :: i in s.all
    requires Decoded(d, a.fed, SlotsOf(f)[..|f| - 1]).Some?
    ensures var n := |f| - 1;
            && Shape(b) && Pop(d, b, false).0.window == [SlotOf(f, n)]
            && Pop(d, b, false).0.released == a.released + f[..n]
            && Pop(d, b, false).1 == Got(SampleOf(Decoded(d, a.fed, SlotsOf(f)[..n]).value, a.lastTimestamp,
                                                  f[0].timestamp))
  {
    hide Shape, Startable, Gathering, SlotsOf, Decoded, Take, FrameEnd, Emits, Drops;
    CutEmits(d, a, b, f, s, base);
    CutTake(d, b, f);
    FirstSlot(f);
    assert Pop(d, b, false) == Emit(d, b, |f| - 1);
  }

  lemma FirstSlot(f: seq<Packet>)
    requires f != []
    ensures SlotsOf(f) != [] && SlotsOf(f)[0].Full? && SlotsOf(f)[0].packet == f[0]
  {}

  lemma CutTake(d: Depacketizer, b: Buffer, f: seq<Packet>)
    requires Shape(b) && |f| > 1 && b.window == SlotsOf(f) && Decoded(d, b.fed, SlotsOf(f)[..|f| - 1]).Some?
    ensures var n := |f| - 1;
            && FullUpTo(b.window, n)
            && var (t, data) := Take(d, b, n, []);
            && data == Decoded(d, b.fed, SlotsOf(f)[..n]) && t.window == [SlotOf(f, n)]
            && t.released == b.released + f[..n] && t.lastTimestamp == b.lastTimestamp
  {
    var n, w := |f| - 1, b.window;
    hide Shape;
    DecodesPrefix(d, b, n, []);
    TakeTakes(d, b, n, []);
    TakeDecodes(d, b, n, []);
    PacketsOfSlots(w[..n], f[..n]);
    assert NextFull(w, n) == n && w[n..] == [SlotOf(f, n)];
    hide Take, NextFull, Decoded, Packets;
    var data := Decoded(d, b.fed, w[..n]).value;
    assert [] + data == data;
  }

  lemma WholeWindow(b: Buffer, f: seq<Packet>, s: Arrived)
    requires s.Ok(|f|) && Shows(b.window, f, s) && forall i | 0 <= i < |f| :: i in s.all
    ensures b.window == SlotsOf(f) && s.lo == 0 && s.hi == |f| - 1
  {
    assert 0 in s.all && |f| - 1 in s.all;
  }

  lemma CutEmits(d: Depacketizer, a: Buffer, b: Buffer, f: seq<Packet>, s: Arrived, base: nat)
    requires Startable(d, a, f, base) && base > 0 && Gathering(a, b, f, s, base)
    requires forall i | 0 <= i < |f| :: i in s.all
    ensures Shape(b) && b.window == SlotsOf(f) && b.window != [] && FrameEnd(b.window, 0) == |f| - 1
    ensures Emits(b, false) && !Drops(b, false) && Count(b, |f| - 1) == |f| - 1 > 0
    ensures b.released == a.released && b.fed == a.fed && b.lastTimestamp == a.lastTimestamp
  {
    hide Shape, Shows, FrameEnd, Frame, SlotsOf, Emits, Drops, Startable;
    GatheringShape(d, a, b, f, s, base);
    WholeWindow(b, f, s);
    WholeParts(d, a, b, f, base);
    SlotsEmit(b, f);
  }

  lemma WholeParts(d: Depacketizer, a: Buffer, b: Buffer, f: seq<Packet>, base: nat)
    requires Startable(d, a, f, base) && base > 0 && b.maxLate == a.maxLate && b.lastSeqno == a.lastSeqno
    ensures |f| > 1 && |f| <= b.maxLate && (b.lastSeqno.Some? ==> f[0].seqno == Add(b.lastSeqno.value, 1))
  {}

  lemma SlotsEmit(b: Buffer, f: seq<Packet>)
    requires Shape(b) && |f| > 1 && b.window == SlotsOf(f)
    requires b.lastSeqno.Some? ==> f[0].seqno == Add(b.lastSeqno.value, 1)
    ensures b.window != [] && FrameEnd(b.window, 0) == |f| - 1 && Emits(b, false) && !Drops(b, false)
  {
    EndOfSlots(f);
    hide FrameEnd, Sequential;
    assert b.window[0] == SlotOf(f, 0) && b.window[|f| - 1] == SlotOf(f, |f| - 1);
  }

  lemma {:induction false} DecodesPrefix(d: Depacketizer, b: Buffer, n: nat, data: Bytes)
    requires Shape(b) && FullUpTo(b.window, |b.window|) && n <= |b.window|
    requires Decoded(d, b.fed, b.window[..n]).Some?
    ensures Take(d, b, n, data).1.Some?
    decreases n
  {
    hide Shape, Feed;
    if n > 0 {
      var f := Feed(b);
      FeedKeepsFull(b, n);
      FeedParts(b);
      assert b.window[..n][1..] == f.window[..n - 1];
      DecodesPrefix(d, f, n - 1, data + d.unmarshal(f.fed).value);
    }
  }

  // ---------------------------------------------------------------- runs

  /** Every packet of the frame once. */
  predicate Order(order: seq<nat>, n: nat) {
    && |order| == n && (forall i | 0 <= i < n :: order[i] < n)
    && forall i, j | 0 <= i < j < n :: order[i] != order[j]
  }

  function Arrivals(f: seq<Packet>, order: seq<nat>): (r: seq<Packet>)
    requires forall i | 0 <= i < |order| :: order[i] < |f|
    ensures |r| == |order| && forall i | 0 <= i < |order| :: r[i] == f[order[i]]
  {
    seq(|order|, i requires 0 <= i < |order| => f[order[i]])
  }

  function Firsts(order: seq<nat>, j: nat): set<nat>
    requires j <= |order|
  {
    set i | 0 <= i < j :: order[i]
  }

  /** The first `j` arrivals. */
  predicate Seen(s: Arrived, order: seq<nat>, j: nat) {
    0 < j <= |order| && s.all == Firsts(order, j) && |s.all| == j
  }

  lemma FirstsNext(order: seq<nat>, n: nat, j: nat)
    requires Order(order, n) && j < n
    ensures Firsts(order, j + 1) == Firsts(order, j) + {order[j]} && order[j] !in Firsts(order, j)
  {}

  lemma SeenNext(s: Arrived, order: seq<nat>, n: nat, j: nat)
    requires Order(order, n) && Seen(s, order, j) && j < n
    ensures order[j] !in s.all && Seen(s.With(order[j]), order, j + 1)
  {
    FirstsNext(order, n, j);
    hide Firsts, Order;
  }

  /** Whether the frame has come out, and the builder afterwards. */
  predicate CameOut(d: Depacketizer, a: Buffer, f: seq<Packet>, base: nat, c: Buffer, sample: Sample) {
    Ready(d, a, f) &&
    if base == 0 then
      && Decoded(d, a.fed, SlotsOf(f)).Some? && Delivered(a, c, f)
      && sample == SampleOf(Decoded(d, a.fed, SlotsOf(f)).value, a.lastTimestamp, f[0].timestamp)
    else
      && Decoded(d, a.fed, SlotsOf(f)[..|f| - 1]).Some? && Shape(c)
      && c.window == [SlotOf(f, |f| - 1)] && c.released == a.released + f[..|f| - 1]
      && sample == SampleOf(Decoded(d, a.fed, SlotsOf(f)[..|f| - 1]).value, a.lastTimestamp, f[0].timestamp)
  }

  lemma PopCompletes(d: Depacketizer, a: Buffer, b: Buffer, f: seq<Packet>, s: Arrived, base: nat)
    returns (c: Buffer, sample: Sample)
    requires Startable(d, a, f, base) && Gathering(a, b, f, s, base) && forall i | 0 <= i < |f| :: i in s.all
    requires Decoded(d, a.fed, SlotsOf(f)).Some? && Decoded(d, a.fed, SlotsOf(f)[..|f| - 1]).Some?
    ensures Shape(b) && Pop(d, b, false) == (c, Got(sample)) && CameOut(d, a, f, base, c, sample)
  {
    hide Gathering, Pop, Decoded, SlotsOf, Shape;
    if base == 0 {
      WholeInOrder(d, a, b, f, s);
      PopGives(d, a, b, f);
    } else {
      PopCuts(d, a, b, f, s, base);
    }
    c, sample := Pop(d, b, false).0, Pop(d, b, false).1.sample;
  }

  lemma {:induction false} OrderRun(d: Depacketizer, a: Buffer, b: Buffer, f: seq<Packet>, order: seq<nat>, s: Arrived,
                                    j: nat, rest: seq<Packet>)
    returns (c: Buffer, sample: Sample)
    requires Order(order, |f|) && 0 < j < |f| && Startable(d, a, f, order[0]) && Gathering(a, b, f, s, order[0])
    requires Seen(s, order, j)
    requires Decoded(d, a.fed, SlotsOf(f)).Some? && Decoded(d, a.fed, SlotsOf(f)[..|f| - 1]).Some?
    ensures Shape(b) && CameOut(d, a, f, order[0], c, sample) && Shape(c)
    ensures Drive(d, b, Arrivals(f, order)[j..] + rest) == Before(Got(sample), Drive(d, c, rest))
    decreases |f| - j
  {
    hide Push, Pop, Gathering, Startable, Shape, CameOut, Decoded, SlotsOf, Seen, Drive;
    var n, i, all := |f|, order[j], Arrivals(f, order);
    var ps := all[j..] + rest;
    assert ps[0] == f[i] && ps[1..] == all[j + 1..] + rest;
    SeenNext(s, order, n, j);
    Arrives(d, a, b, f, s, order[0], i);
    var e, t := Push(d, b, f[i]).b, s.With(i);
    SetSeen(a, e, f, t, order, order[0], j + 1);
    if j + 1 < n {
      var missing := order[j + 1];
      SeenNext(t, order, n, j + 1);
      PopStays(d, a, e, f, t, order[0], missing);
      c, sample := OrderRun(d, a, e, f, order, t, j + 1, rest);
      DriveStep(d, b, ps);
      Quiet(Drive(d, e, all[j + 1..] + rest));
    } else {
      c, sample := PopCompletes(d, a, e, f, t, order[0]);
      CameOutShape(d, a, f, order[0], c, sample);
      DriveStep(d, b, ps);
      assert all[j + 1..] + rest == rest;
    }
  }

  lemma DriveStep(d: Depacketizer, b: Buffer, ps: seq<Packet>)
    requires Shape(b) && ps != [] && Push(d, b, ps[0]).Done?
    ensures var e := Push(d, b, ps[0]).b;
            Drive(d, b, ps) == Before(Pop(d, e, false).1, Drive(d, Pop(d, e, false).0, ps[1..]))
  {
    hide Push, Pop;
  }

  lemma CameOutShape(d: Depacketizer, a: Buffer, f: seq<Packet>, base: nat, c: Buffer, sample: Sample)
    requires CameOut(d, a, f, base, c, sample)
    ensures Shape(c)
  {
    hide Shape, Decoded, SlotsOf;
  }

  /** All have arrived exactly if as many have. */
  lemma SetSeen(a: Buffer, b: Buffer, f: seq<Packet>, s: Arrived, order: seq<nat>, base: nat, j: nat)
    requires Gathering(a, b, f, s, base) && Seen(s, order, j)
    ensures j == |f| ==> forall i | 0 <= i < |f| :: i in s.all
  {
    FullSet(s.all, |f|);
  }

  /** A frame whose packets arrive in any order, with a `Pop` after each.  If its first packet
      arrives first, the frame comes out whole with its last arrival, and the builder is empty.
      If another one does, the frame, not being longer than `maxLate`, lies across the end of the
      ring: the sample lacks the last packet, which stays behind. */
  lemma AnyOrder(d: Depacketizer, a: Buffer, f: seq<Packet>, order: seq<nat>, rest: seq<Packet>)
    returns (c: Buffer, sample: Sample)
    requires |f| >= 2 && Order(order, |f|) && Startable(d, a, f, order[0])
    requires Decoded(d, a.fed, SlotsOf(f)).Some?
    ensures Shape(a) && Shape(c) && CameOut(d, a, f, order[0], c, sample)
    ensures Drive(d, a, Arrivals(f, order) + rest) == Before(Got(sample), Drive(d, c, rest))
  {
    var base, all := order[0], Arrivals(f, order);
    var ps, s := all + rest, Arrived({base}, base, base);
    FirstArrives(d, a, f, base);
    DecodedPrefix(d, a.fed, SlotsOf(f), |f| - 1);
    assert Shape(a);
    hide Push, Pop, Gathering, Startable, Shape, CameOut, Decoded, SlotsOf, Drive;
    var e := Push(d, a, f[base]).b;
    assert ps[0] == f[base] && ps[1..] == all[1..] + rest;
    assert Seen(s, order, 1) by { assert Firsts(order, 1) == {base}; }
    SeenNext(s, order, |f|, 1);
    PopStays(d, a, e, f, s, base, order[1]);
    c, sample := OrderRun(d, a, e, f, order, s, 1, rest);
    DriveStep(d, a, ps);
    Quiet(Drive(d, e, all[1..] + rest));
  }

  lemma {:induction false} DecodedPrefix(d: Depacketizer, fed: seq<Bytes>, w: seq<Slot>, n: nat)
    requires FullUpTo(w, |w|) && n <= |w| && Decoded(d, fed, w).Some?
    ensures Decoded(d, fed, w[..n]).Some?
    decreases n
  {
    if n > 0 {
      DecodedPrefix(d, fed + [w[0].packet.payload], w[1..], n - 1);
      assert w[..n][1..] == w[1..][..n - 1];
    }
  }

  // ---------------------------------------------------------------- streams

  /** The packets of each frame arrive in this order, the first one first. */
  predicate Orders(frames: seq<seq<Packet>>, orders: seq<seq<nat>>) {
    && |orders| == |frames|
    && forall k | 0 <= k < |frames| :: Order(orders[k], |frames[k]|) && (frames[k] != [] ==> orders[k][0] == 0)
  }

  function AllArrivals(frames: seq<seq<Packet>>, orders: seq<seq<nat>>): seq<Packet>
    requires Orders(frames, orders)
  {
    if frames == [] then []
    else
      OrdersTail(frames, orders);
      Arrivals(frames[0], orders[0]) + AllArrivals(frames[1..], orders[1..])
  }

  lemma OrdersTail(frames: seq<seq<Packet>>, orders: seq<seq<nat>>)
    requires Orders(frames, orders) && frames != []
    ensures |orders| == |frames| && Orders(frames[1..], orders[1..]) && Order(orders[0], |frames[0]|)
    ensures frames[0] != [] ==> orders[0] != [] && orders[0][0] == 0
  {
    assert forall k | 0 <= k < |frames| - 1 :: orders[1..][k] == orders[k + 1] && frames[1..][k] == frames[k + 1];
  }

  /** One frame of a stream, in whatever order its packets arrive. */
  lemma OneFrame(d: Depacketizer, a: Buffer, f: seq<Packet>, order: seq<nat>, rest: seq<Packet>) returns (c: Buffer)
    requires Ready(d, a, f) && Order(order, |f|) && order[0] == 0 && Decoded(d, a.fed, SlotsOf(f)).Some?
    ensures Shape(a) && Shape(c) && Delivered(a, c, f)
    ensures var s := SampleOf(Decoded(d, a.fed, SlotsOf(f)).value, a.lastTimestamp, f[0].timestamp);
            Drive(d, a, Arrivals(f, order) + rest) == Before(Got(s), Drive(d, c, rest))
  {
    assert Shape(a);
    hide Drive, Decoded, SlotsOf, Shape;
    if |f| == 1 {
      assert Arrivals(f, order) == f && f[0..] == f;
      BeginFrame(d, a, f);
      c := FrameRun(d, a, a, f, 0, rest);
      AfterFrame(a, c, f);
    } else {
      var sample;
      c, sample := AnyOrder(d, a, f, order, rest);
    }
  }

  /** A stream whose packets arrive out of order within each frame, but the first of each frame
      first, comes out like one in order. */
  lemma {:induction false} StreamAnyOrder(d: Depacketizer, a: Buffer, frames: seq<seq<Packet>>, orders: seq<seq<nat>>)
    requires Shape(a) && a.window == [] && Stream(d, a.maxLate, a.lastSeqno, frames) && Orders(frames, orders)
    requires SamplesOf(d, a.fed, a.lastTimestamp, frames).Some?
    ensures ComesOut(a, Drive(d, a, AllArrivals(frames, orders)), AllPackets(frames),
                     SamplesOf(d, a.fed, a.lastTimestamp, frames).value)
    decreases |frames|
  {
    hide Shape, Frame, Building, Ready, Drive, Decoded, SlotsOf, Payloads, Stream, SamplesOf, Delivered, Orders, Order;
    if frames == [] {
      NoStream(d, a);
    } else {
      var f, more := frames[0], frames[1..];
      OrdersTail(frames, orders);
      StreamSplit(d, a.maxLate, a.lastSeqno, frames);
      SamplesSplit(d, a.fed, a.lastTimestamp, frames);
      BeginFrame(d, a, f);
      var c := OneFrame(d, a, f, orders[0], AllArrivals(more, orders[1..]));
      AfterFrame(a, c, f);
      StreamAnyOrder(d, c, more, orders[1..]);
      Onwards(a, c, f, Drive(d, c, AllArrivals(more, orders[1..])), AllPackets(more),
              SamplesOf(d, c.fed, c.lastTimestamp, more).value,
              SampleOf(Decoded(d, a.fed, SlotsOf(f)).value, a.lastTimestamp, f[0].timestamp));
    }
  }
}
