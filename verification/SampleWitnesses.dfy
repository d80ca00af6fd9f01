/** Two runs from a new builder in which a sample or a result is not what one would expect. */
module SampleWitnesses {
  import opened Outcomes
  import opened Octets
  import opened SampleBuffer
  import opened Serial
  import opened SampleBufferInvariant
  import opened SampleBufferAccount
  import opened SampleRuns
  import opened SampleFrames
  import opened SampleStream

  /** A frame begins with the byte 1 and ends with the marker; decoding copies the payload. */
  function Plain(): Depacketizer {
    Depacketizer(
      (x: Bytes) => x == [1],
      (marker: bool, _: Bytes) => marker,
      (fed: seq<Bytes>) => if fed == [] then None else Some(fed[|fed| - 1]))
  }

  /** Two frames of one packet each, then one frame of four packets. */
  function Stream(k: nat): Packet
    requires k < 6
  {
    if k < 2 then Packet(k, k, true, [1], k) else Packet(k, 2, k == 5, [k - 1], k)
  }

  function SlotOf(k: nat): Slot
    requires k < 6
  {
    Full(k <= 2, k < 2 || k == 5, Stream(k))
  }

  predicate Shows(w: seq<Slot>, from: nat, to: nat)
    requires from <= to <= 6
  {
    |w| == to - from && forall i | 0 <= i < |w| :: w[i] == SlotOf(from + i)
  }

  /** Packets `from .. to` lie in the window, from ring position `from` on. */
  predicate Looks(b: Buffer, from: nat, to: nat) {
    && from < to <= 6 && from < 5 && to - from <= 4
    && b.maxLate == 2 && b.tail == from && Shows(b.window, from, to)
    && b.lastSeqno == (if from == 0 then None else Some(from - 1))
    && b.lastTimestamp == (if from == 0 then None else Some(from - 1))
    && |b.fed| == from
  }

  lemma LooksShape(b: Buffer, from: nat, to: nat)
    requires Looks(b, from, to)
    ensures Shape(b)
  {}

  lemma FirstPush(b: Buffer)
    requires b == New(2)
    ensures Push(Plain(), b, Stream(0)).Done? && Looks(Push(Plain(), b, Stream(0)).b, 0, 1)
  {}

  lemma ScreenStays(b: Buffer, from: nat, to: nat)
    requires Looks(b, from, to) && to < 6 && to - from < 4 && (from == 0 || from == 2)
    ensures Shape(b) && Screen(b, Stream(to)).Admitted? && Looks(Screen(b, Stream(to)).b, from, to)
  {
    LooksShape(b, from, to);
  }

  lemma AttachNext(a: Buffer, from: nat, to: nat)
    requires Looks(a, from, to) && to < 6 && to - from < 4 && (from == 0 || from == 2)
    ensures Shape(a) && Newest(a) == to - 1 && Looks(Attach(Plain(), a, Stream(to)), from, to + 1)
  {
    LooksShape(a, from, to);
    assert Shows(Attach(Plain(), a, Stream(to)).window, from, to + 1);
  }

  lemma NextPush(b: Buffer, from: nat, to: nat)
    requires Looks(b, from, to) && to < 6 && to - from < 4 && (from == 0 || from == 2)
    ensures Shape(b) && Push(Plain(), b, Stream(to)).Done? && Looks(Push(Plain(), b, Stream(to)).b, from, to + 1)
  {
    ScreenStays(b, from, to);
    var a := Screen(b, Stream(to)).b;
    AttachNext(a, from, to);
    hide Shows, Screen, Attach, Shape, Behind, Leap;
    assert Push(Plain(), b, Stream(to)) == Done(Attach(Plain(), a, Stream(to)));
  }

  lemma SinglePop(b: Buffer, from: nat)
    requires Looks(b, from, 4) && from < 2
    ensures Shape(b) && Looks(Pop(Plain(), b, false).0, from + 1, 4)
  {
    LooksShape(b, from, 4);
    assert FrameEnd(b.window, 0) == 0 && Emits(b, false) && Count(b, 0) == 1;
    hide FrameEnd;
    FeedPlain(b);
    FeedRecords(b);
    var f := Feed(b);
    hide Feed;
    assert Take(Plain(), f, 0, [] + Plain().unmarshal(f.fed).value).0 == f;
    assert Take(Plain(), b, 1, []).0 == f;
  }

  const OPS: seq<Op> := [
    DoPush(Stream(0)), DoPush(Stream(1)), DoPush(Stream(2)), DoPush(Stream(3)),
    DoPop, DoPop, DoPush(Stream(4)), DoPush(Stream(5))]

  /** What the window holds after the first `k` calls. */
  lemma {:induction false} StreamRun(k: nat)
    requires 1 <= k <= 8
    ensures var r := Run(Plain(), New(2), OPS[..k]);
            var from := if k <= 4 then 0 else if k == 5 then 1 else 2;
            r.Done? && Looks(r.b, from, if k <= 4 then k else if k <= 6 then 4 else k - 2)
  {
    hide Push, Pop, Looks;
    var ops := OPS[..k];
    assert ops[..k - 1] == OPS[..k - 1] && ops[k - 1] == OPS[k - 1];
    var before := Run(Plain(), New(2), OPS[..k - 1]);
    if k == 1 {
      assert OPS[..0] == [];
      FirstPush(New(2));
    } else {
      StreamRun(k - 1);
      if k <= 4 {
        NextPush(before.b, 0, k - 1);
      } else if k <= 6 {
        SinglePop(before.b, k - 5);
      } else {
        NextPush(before.b, 2, k - 3);
      }
    }
  }

  lemma {:induction false} PlainDecodes(b: Buffer, n: nat, data: Bytes)
    requires Shape(b) && FullUpTo(b.window, n)
    ensures Take(Plain(), b, n, data).1.Some?
    decreases n
  {
    if n > 0 {
      FeedKeepsFull(b, n);
      FeedRecords(b);
      PlainDecodes(Feed(b), n - 1, data + Plain().unmarshal(Feed(b).fed).value);
    }
  }

  /** A whole frame of four packets lies in ring positions 2, 3, 4 and 0.  The sample popped
      has the data of the first three, and the last packet stays behind. */
  lemma WrappedFrameCut()
    ensures var b := Run(Plain(), New(2), OPS).b;
            && IsFrame(b.window, 0, 4, 2)
            && Pop(Plain(), b, false).1 == Got(Sample([1, 2, 3], 2, 1))
            && Pop(Plain(), b, false).0.window == [SlotOf(5)]
  {
    hide Pop, Looks, IsFrame, Inv;
    StreamRun(8);
    assert OPS[..8] == OPS;
    RunKeepsInvariant(Plain(), 2, OPS);
    LastPop(Run(Plain(), New(2), OPS).b);
  }

  lemma WholeFrame(b: Buffer)
    requires Looks(b, 2, 6)
    ensures Shape(b) && FrameEnd(b.window, 0) == 3 && Emits(b, false) && Count(b, 3) == 3
    ensures FullUpTo(b.window, 4) && !Drops(b, false)
  {
    LooksShape(b, 2, 6);
    assert b.window[3].end;
  }

  /** The window holds one frame, so a sample can come from no other. */
  lemma OnlyFrame(b: Buffer, r: Buffer, s: Sample, i: nat, len: nat)
    requires Looks(b, 2, 6) && SampleFrom(Plain(), b, r, s, i, len)
    ensures i == 0 && len == 4 && s.timestamp == 2 && Taken(b, 0, 4) == 3
  {
    hide Shape, Decoded, NextFull;
    assert b.window[i].start && b.window[i + len - 1].end;
  }

  lemma LastPop(b: Buffer)
    requires Looks(b, 2, 6) && Inv(b)
    ensures IsFrame(b.window, 0, 4, 2)
    ensures Pop(Plain(), b, false).1 == Got(Sample([1, 2, 3], 2, 1))
    ensures Pop(Plain(), b, false).0.window == [SlotOf(5)]
  {
    hide Inv, Pop, Looks, Shape, SampleFrom, IsFrame;
    PopsSample(b);
    var i, len := PopYieldsFrame(Plain(), b, false);
    var (r, s) := Pop(Plain(), b, false);
    OnlyFrame(b, r, s.sample, i, len);
    CutSample(b, r, s.sample);
  }

  lemma PopsSample(b: Buffer)
    requires Looks(b, 2, 6)
    ensures Shape(b) && Pop(Plain(), b, false).1.Got?
  {
    WholeFrame(b);
    hide Take, FrameEnd, Emits, Drops, Shape, Looks, Feed;
    PlainDecodes(b, 3, []);
    assert Pop(Plain(), b, false) == Emit(Plain(), b, 3);
  }

  lemma CutSample(b: Buffer, r: Buffer, s: Sample)
    requires Looks(b, 2, 6) && SampleFrom(Plain(), b, r, s, 0, 4) && Taken(b, 0, 4) == 3
    ensures IsFrame(b.window, 0, 4, s.timestamp) && s.data == [1, 2, 3] && s.samples == Sub32(s.timestamp, 1)
    ensures r.window == [SlotOf(5)]
  {
    hide Shape, Taken, IsFrame, Decoded, Packets;
    CutDecoded(b);
    assert NextFull(b.window, 3) == 3;
    assert b.window[3..] == [SlotOf(5)];
  }

  lemma CutDecoded(b: Buffer)
    requires Looks(b, 2, 6)
    ensures FullUpTo(b.window[0..3], 3) && Decoded(Plain(), b.fed, b.window[0..3]) == Some([1, 2, 3])
  {
    var w := b.window[0..3];
    var f1, f2, f3 := b.fed + [w[0].packet.payload], b.fed + [w[0].packet.payload] + [w[1].packet.payload],
                      b.fed + [w[0].packet.payload] + [w[1].packet.payload] + [w[2].packet.payload];
    assert Decoded(Plain(), f3, []) == Some([]);
    assert w[2..][1..] == [] && w[1..][1..] == w[2..];
    assert Decoded(Plain(), f2, w[2..]) == Some([3] + []);
    assert Decoded(Plain(), f1, w[1..]) == Some([2] + ([3] + []));
    assert [1] + ([2] + ([3] + [])) == [1, 2, 3];
  }

  /** A packet that begins a frame and does not end it: `ForcePop` finds nothing, and leaves
      the builder as it is. */
  lemma OpenFrameStays()
    ensures var b := Run(Plain(), New(2), [DoPush(Stream(2))]).b;
            Pop(Plain(), b, true) == (b, Nothing) && b.window == [SlotOf(2)]
  {
    var ops := [DoPush(Stream(2))];
    assert ops[..0] == [] && Run(Plain(), New(2), []) == Done(New(2));
    var b := Run(Plain(), New(2), ops).b;
    assert Push(Plain(), New(2), Stream(2)) == Done(New(2).(window := [SlotOf(2)]));
    assert FrameEnd(b.window, 0) == 1;
  }

  // ---------------------------------------------------------------- frames without tail marks

  /** Frames of two packets whose codec does not mark the last one. */
  function Unmarked(k: nat): Packet
    requires k < 7
  {
    Packet(k, k / 2, false, [if k % 2 == 0 then 1 else 2], k)
  }

  function UnmarkedFrom(k: nat): (ps: seq<Packet>)
    requires k <= 7
    ensures |ps| == 7 - k && forall i | 0 <= i < |ps| :: ps[i] == Unmarked(k + i)
    decreases 7 - k
  {
    if k == 7 then [] else [Unmarked(k)] + UnmarkedFrom(k + 1)
  }

  /** The end of a frame is seen when the next one begins. */
  function UnmarkedSlot(k: nat, to: nat): Slot
    requires k < 7
  {
    Full(k % 2 == 0, k % 2 == 1 && k + 1 < to, Unmarked(k))
  }

  /** Packets `from .. to` lie in the window, from ring position `from` on. */
  predicate Gathers(b: Buffer, from: nat, to: nat) {
    && from < to <= 7 && (from == 0 || from == 2 || from == 4) && to - from <= 3
    && b.maxLate == 2 && b.tail == from && |b.window| == to - from
    && (forall i | 0 <= i < |b.window| :: b.window[i] == UnmarkedSlot(from + i, to))
    && b.lastSeqno == (if from == 0 then None else Some(from - 1))
    && b.lastTimestamp == (if from == 0 then None else Some(from / 2 - 1))
  }

  lemma GathersShape(b: Buffer, from: nat, to: nat)
    requires Gathers(b, from, to)
    ensures Shape(b) && Newest(b) == to - 1
  {}

  lemma GathersScreen(b: Buffer, from: nat, to: nat)
    requires Gathers(b, from, to) && to < 7
    ensures Shape(b) && Screen(b, Unmarked(to)).Admitted? && Gathers(Screen(b, Unmarked(to)).b, from, to)
  {
    GathersShape(b, from, to);
  }

  lemma GathersAttach(b: Buffer, from: nat, to: nat)
    requires Gathers(b, from, to) && to < 7 && to - from < 3
    ensures Shape(b) && Newest(b) == to - 1 && Gathers(Attach(Plain(), b, Unmarked(to)), from, to + 1)
  {
    GathersShape(b, from, to);
    hide Shape;
    var n, w, v := to - from, b.window, Attach(Plain(), b, Unmarked(to)).window;
    assert w[n - 1] == UnmarkedSlot(to - 1, to);
    assert v[n] == UnmarkedSlot(to, to + 1) && v[n - 1] == UnmarkedSlot(to - 1, to + 1);
    forall i | 0 <= i < n - 1 ensures v[i] == UnmarkedSlot(from + i, to + 1) {
      assert v[i] == w[i];
    }
  }

  lemma GathersPush(b: Buffer, from: nat, to: nat)
    requires Gathers(b, from, to) && to < 7 && to - from < 3
    ensures Shape(b) && Push(Plain(), b, Unmarked(to)).Done?
    ensures Gathers(Push(Plain(), b, Unmarked(to)).b, from, to + 1)
  {
    GathersScreen(b, from, to);
    var a := Screen(b, Unmarked(to)).b;
    GathersAttach(a, from, to);
    hide Screen, Attach, Shape, Behind, Leap;
    assert Push(Plain(), b, Unmarked(to)) == Done(Attach(Plain(), a, Unmarked(to)));
  }

  lemma GathersWaits(b: Buffer, from: nat, to: nat)
    requires Gathers(b, from, to) && to - from <= 2
    ensures Shape(b) && Pop(Plain(), b, false) == (b, Nothing)
  {
    GathersShape(b, from, to);
    assert FrameEnd(b.window, 0) == |b.window|;
  }

  /** One packet is taken from the tail. */
  lemma FeedPlain(b: Buffer)
    requires Shape(b) && |b.window| > 1 && b.window[1].Full?
    ensures var f := Feed(b);
            && f.window == b.window[1..] && Plain().unmarshal(f.fed) == Some(b.window[0].packet.payload)
            && f.tail == Around(b.tail, 1, b.Size()) && f.lastSeqno == Some(b.window[0].packet.seqno)
            && f.lastTimestamp == b.lastTimestamp && f.maxLate == b.maxLate
  {}

  /** The sample of the frame from packet `from` on, with the data that came out. */
  function UnmarkedSample(from: nat, data: Bytes): Sample
    requires from <= 4
  {
    Sample(data, from / 2, if from == 0 then 0 else 1)
  }

  lemma GathersWhole(b: Buffer, from: nat)
    requires Gathers(b, from, from + 3) && from < 4
    ensures Shape(b) && Gathers(Pop(Plain(), b, false).0, from + 2, from + 3)
    ensures Pop(Plain(), b, false).1 == Got(UnmarkedSample(from, [1, 2]))
  {
    GathersEnd(b, from);
    TakeTwo(b);
    var t := Take(Plain(), b, 2, []).0;
    assert Pop(Plain(), b, false) == Emit(Plain(), b, 1) by { hide Take, FrameEnd, Emits, Drops, Shape, Gathers; }
    var r := Emit(Plain(), b, 1).0;
    assert r == t.(lastTimestamp := Some(from / 2)) by { hide Take, FrameEnd, Emits, Drops, Shape; }
    hide Pop, FrameEnd, Emits, Drops, Shape, Take;
    GathersNext(b, r, from);
  }

  lemma GathersNext(b: Buffer, r: Buffer, from: nat)
    requires Gathers(b, from, from + 3) && from < 4 && r.maxLate == 2 && r.tail == Around(b.tail, 2, b.Size())
    requires r.window == b.window[2..] && r.lastSeqno == Some(b.window[1].packet.seqno)
    requires r.lastTimestamp == Some(from / 2)
    ensures Gathers(r, from + 2, from + 3)
  {}

  lemma GathersEnd(b: Buffer, from: nat)
    requires Gathers(b, from, from + 3)
    ensures Shape(b) && FrameEnd(b.window, 0) == 1 && Emits(b, false) && !Drops(b, false)
    ensures Count(b, 1) == if from == 4 then 1 else 2
  {
    GathersShape(b, from, from + 3);
  }

  lemma TakeTwo(b: Buffer)
    requires Shape(b) && |b.window| == 3 && FullUpTo(b.window, 3) && b.maxLate == 2
    requires b.window[0].packet.payload == [1] && b.window[1].packet.payload == [2]
    ensures var (g, data) := Take(Plain(), b, 2, []);
            && data == Some([1, 2]) && g.window == b.window[2..] && g.tail == Around(b.tail, 2, b.Size())
            && g.lastSeqno == Some(b.window[1].packet.seqno)
            && g.lastTimestamp == b.lastTimestamp && g.maxLate == b.maxLate
  {
    FeedPlain(b);
    var f := Feed(b);
    FeedPlain(f);
    var g := Feed(f);
    assert Around(Around(b.tail, 1, 5), 1, 5) == Around(b.tail, 2, 5);
    hide Feed, Shape, Around;
    var none: Bytes, one: Bytes, both: Bytes := [], [1], [1, 2];
    assert none + [1] == one && one + [2] == both;
    assert Take(Plain(), g, 0, both) == (g, Some(both));
    assert Take(Plain(), f, 1, one) == (g, Some(both));
    assert Take(Plain(), b, 2, none) == (g, Some(both));
  }

  /** The third frame lies in ring positions 4 and 0. */
  lemma GathersCut(b: Buffer)
    requires Gathers(b, 4, 7)
    ensures Shape(b) && Pop(Plain(), b, false).1 == Got(UnmarkedSample(4, [1]))
    ensures Pop(Plain(), b, false).0.window == b.window[1..]
  {
    GathersEnd(b, 4);
    hide FrameEnd, Emits, Drops;
    FeedPlain(b);
    var f := Feed(b);
    hide Feed;
    var none: Bytes, one: Bytes := [], [1];
    assert none + [1] == one;
    assert Take(Plain(), f, 0, one) == (f, Some(one));
    assert Take(Plain(), b, 1, none) == (f, Some(one));
  }

  /** The samples still to come when packet `to` is next. */
  function Expected(to: nat): seq<Sample> {
    if to <= 2 then [UnmarkedSample(0, [1, 2]), UnmarkedSample(2, [1, 2]), UnmarkedSample(4, [1])]
    else if to <= 4 then [UnmarkedSample(2, [1, 2]), UnmarkedSample(4, [1])]
    else if to <= 6 then [UnmarkedSample(4, [1])]
    else []
  }

  lemma {:induction false} UnmarkedRun(b: Buffer, from: nat, to: nat)
    requires Gathers(b, from, to) && 1 <= to < 7 && from == (to - 1) / 2 * 2
    ensures Shape(b)
    ensures var r := Drive(Plain(), b, UnmarkedFrom(to)); r.Some? && r.value.1 == Expected(to)
    decreases 7 - to
  {
    hide Push, Pop, Gathers, Shape;
    var ps := UnmarkedFrom(to);
    assert ps[0] == Unmarked(to) && ps[1..] == UnmarkedFrom(to + 1);
    GathersPush(b, from, to);
    var e := Push(Plain(), b, Unmarked(to)).b;
    if to == 6 {
      GathersCut(e);
      assert Drive(Plain(), Pop(Plain(), e, false).0, []).value.1 == [];
    } else if to % 2 == 0 {
      GathersWhole(e, from);
      UnmarkedRun(Pop(Plain(), e, false).0, from + 2, to + 1);
    } else {
      GathersWaits(e, from, to + 1);
      UnmarkedRun(e, from, to + 1);
    }
  }

  /** Without tail marks a stream without loss does not come out whole: the first packet of the
      next frame stays in the ring, which therefore does not start again at 0, and the third
      frame of two packets loses one. */
  lemma UnmarkedFrameCut()
    ensures var r := Drive(Plain(), New(2), UnmarkedFrom(0));
            && r.Some?
            && r.value.1 == [UnmarkedSample(0, [1, 2]), UnmarkedSample(2, [1, 2]), UnmarkedSample(4, [1])]
  {
    var ps := UnmarkedFrom(0);
    assert ps[0] == Unmarked(0) && ps[1..] == UnmarkedFrom(1);
    var e := Push(Plain(), New(2), Unmarked(0)).b;
    assert Gathers(e, 0, 1);
    hide Push, Pop, Gathers, Shape;
    GathersWaits(e, 0, 1);
    UnmarkedRun(e, 0, 1);
  }
}
