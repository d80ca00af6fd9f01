/** What a stream without loss yields: every frame comes out whole and in order. */
module SampleStream {
  import opened Outcomes
  import opened Octets
  import opened Serial
  import opened SampleBuffer
  import opened SampleBufferAccount
  import opened SampleFrames

  // ---------------------------------------------------------------- streams

  /** Consecutive packets of one timestamp; the codec marks the first as the head of a frame
      and the last as its tail, and no other. */
  predicate Frame(d: Depacketizer, f: seq<Packet>) {
    && f != []
    && (forall i | 0 <= i < |f| :: f[i].timestamp == f[0].timestamp)
    && (forall i | 0 <= i < |f| && i < 0x1_0000 :: f[i].seqno == Add(f[0].seqno, i))
    && (forall i | 0 <= i < |f| :: d.isHead(f[i].payload) <==> i == 0)
    && (forall i | 0 <= i < |f| :: d.isTail(f[i].marker, f[i].payload) <==> i == |f| - 1)
  }

  /** The frame fits into the builder. */
  predicate Fits(maxLate: nat, f: seq<Packet>) { |f| <= 2 * maxLate && |f| <= 0x8000 }

  /** The number of the last packet of a frame. */
  function LastOf(f: seq<Packet>): u16
    requires f != []
  {
    f[|f| - 1].seqno
  }

  /** Frames that fit, each beginning where the one before ended; the first follows `last`. */
  predicate Stream(d: Depacketizer, maxLate: nat, last: Option<u16>, frames: seq<seq<Packet>>)
    decreases |frames|
  {
    frames == [] ||
    (&& Frame(d, frames[0]) && Fits(maxLate, frames[0])
     && (last.Some? ==> frames[0][0].seqno == Add(last.value, 1))
     && Stream(d, maxLate, Some(LastOf(frames[0])), frames[1..]))
  }

  /** The slot of packet `i` of a frame. */
  function SlotOf(f: seq<Packet>, i: nat): Slot
    requires i < |f|
  {
    Full(i == 0, i == |f| - 1, f[i])
  }

  function SlotsOf(f: seq<Packet>): (w: seq<Slot>)
    ensures |w| == |f| && FullUpTo(w, |w|) && forall i | 0 <= i < |f| :: w[i] == SlotOf(f, i)
  {
    seq(|f|, i requires 0 <= i < |f| => SlotOf(f, i))
  }

  function Payloads(f: seq<Packet>): (r: seq<Bytes>)
    ensures |r| == |f| && forall i | 0 <= i < |f| :: r[i] == f[i].payload
  {
    seq(|f|, i requires 0 <= i < |f| => f[i].payload)
  }

  function AllPackets(frames: seq<seq<Packet>>): seq<Packet> {
    if frames == [] then [] else frames[0] + AllPackets(frames[1..])
  }

  /** The sample of a frame: its data, its timestamp, and the ticks since the one before. */
  function SampleOf(data: Bytes, last: Option<u32>, ts: u32): Sample {
    Sample(data, ts, if last.Some? then Sub32(ts, last.value) else 0)
  }

  /** The samples of the frames; `None` if one of them cannot be decoded. */
  function SamplesOf(d: Depacketizer, fed: seq<Bytes>, last: Option<u32>, frames: seq<seq<Packet>>): Option<seq<Sample>>
    decreases |frames|
  {
    if frames == [] then Some([])
    else if frames[0] == [] then None
    else
      var f, ts := frames[0], frames[0][0].timestamp;
      match (Decoded(d, fed, SlotsOf(f)), SamplesOf(d, fed + Payloads(f), Some(ts), frames[1..]))
      case (Some(data), Some(more)) => Some([SampleOf(data, last, ts)] + more)
      case _ => None
  }

  /** `WriteRtp`: a `Pop` after every `Push`.  `None` for a panic. */
  function Drive(d: Depacketizer, b: Buffer, ps: seq<Packet>): Option<(Buffer, seq<Sample>)>
    requires Shape(b)
    decreases |ps|
  {
    if ps == [] then Some((b, []))
    else
      var o := Push(d, b, ps[0]);
      if o.Panic? then None
      else
        var (c, popped) := Pop(d, o.b, false);
        Before(popped, Drive(d, c, ps[1..]))
  }

  function Before(popped: Popped, rest: Option<(Buffer, seq<Sample>)>): Option<(Buffer, seq<Sample>)> {
    if rest.None? then None
    else Some((rest.value.0, (if popped.Got? then [popped.sample] else []) + rest.value.1))
  }

  // ---------------------------------------------------------------- one frame

  /** The first `j` packets of the frame have been pushed into the empty builder `a`. */
  predicate Building(a: Buffer, b: Buffer, f: seq<Packet>, j: nat) {
    && j <= |f| && b.tail == 0 && b.window == SlotsOf(f)[..j]
    && b == a.(window := b.window, tail := b.tail, trail := b.trail)
  }

  /** The builder is empty and the frame may begin. */
  predicate Ready(d: Depacketizer, a: Buffer, f: seq<Packet>) {
    && Shape(a) && a.window == [] && Frame(d, f) && Fits(a.maxLate, f)
    && (a.lastSeqno.Some? ==> f[0].seqno == Add(a.lastSeqno.value, 1))
  }

  lemma BuildingShape(d: Depacketizer, a: Buffer, b: Buffer, f: seq<Packet>, j: nat)
    requires Ready(d, a, f) && Building(a, b, f, j)
    ensures Shape(b) && |b.window| == j && (forall i | 0 <= i < j :: b.window[i] == SlotOf(f, i))
    ensures j > 0 ==> Newest(b) == Add(f[0].seqno, j - 1)
  {}

  /** Nothing is late: at most `lastSeqno` is set to the value it has. */
  lemma ScreenPasses(d: Depacketizer, a: Buffer, b: Buffer, f: seq<Packet>, j: nat)
    requires Ready(d, a, f) && Building(a, b, f, j) && j < |f|
    ensures Shape(b) && Screen(b, f[j]).Admitted? && Building(a, Screen(b, f[j]).b, f, j)
  {
    BuildingShape(d, a, b, f, j);
    if b.lastSeqno.Some? {
      var last := b.lastSeqno.value;
      assert Fwd(last, f[j].seqno) == j + 1;
      if j > 0 { assert Sub(b.window[0].packet.seqno, 1) == last; }
    }
  }

  lemma PushInto(d: Depacketizer, a: Buffer, b: Buffer, f: seq<Packet>, j: nat)
    requires Ready(d, a, f) && Building(a, b, f, j) && j < |f|
    ensures Shape(b) && Push(d, b, f[j]).Done? && Building(a, Push(d, b, f[j]).b, f, j + 1)
  {
    ScreenPasses(d, a, b, f, j);
    PlaceInto(d, a, Screen(b, f[j]).b, f, j);
    hide Screen, Place, Building, Ready;
  }

  lemma PlaceInto(d: Depacketizer, a: Buffer, b: Buffer, f: seq<Packet>, j: nat)
    requires Ready(d, a, f) && Building(a, b, f, j) && j < |f|
    ensures Shape(b) && Place(d, b, f[j]).Done? && Building(a, Place(d, b, f[j]).b, f, j + 1)
  {
    BuildingShape(d, a, b, f, j);
    if j == 0 {
      var r := Place(d, b, f[j]).b;
      assert r.window == [SlotOf(f, 0)] && r.window == SlotsOf(f)[..1];
    } else {
      assert Fwd(Newest(b), f[j].seqno) == 1 && |b.window| < b.Cap();
      assert Place(d, b, f[j]) == Done(Attach(d, b, f[j]));
      hide Place;
      AttachInto(d, a, b, f, j);
    }
  }

  lemma AttachInto(d: Depacketizer, a: Buffer, b: Buffer, f: seq<Packet>, j: nat)
    requires Ready(d, a, f) && Building(a, b, f, j) && 0 < j < |f| && Shape(b) && j < b.Cap()
    requires f[j].seqno == Add(Newest(b), 1)
    ensures Building(a, Attach(d, b, f[j]), f, j + 1)
  {
    hide Shape;
    var newest := b.window[j - 1];
    assert newest == SlotOf(f, j - 1) && b.window[j - 1 := newest] == b.window;
    assert Attach(d, b, f[j]).window == b.window + [SlotOf(f, j)];
    assert b.window + [SlotOf(f, j)] == SlotsOf(f)[..j + 1];
  }

  /** Without its last packet the frame stays where it is. */
  lemma PopWaits(d: Depacketizer, a: Buffer, b: Buffer, f: seq<Packet>, j: nat)
    requires Ready(d, a, f) && Building(a, b, f, j) && 0 < j < |f|
    ensures Shape(b) && Pop(d, b, false) == (b, Nothing)
  {
    BuildingShape(d, a, b, f, j);
    var k := FrameEnd(b.window, 0);
    assert k < |b.window| ==> b.window[k] == SlotOf(f, k);
  }

  lemma {:induction false} TakeAll(d: Depacketizer, b: Buffer, n: nat, data: Bytes)
    requires Shape(b) && 0 < n == |b.window| && FullUpTo(b.window, n) && Take(d, b, n, data).1.Some?
    ensures var r := Take(d, b, n, data).0;
            && r.lastSeqno == Some(Newest(b)) && r.fed == b.fed + PayloadsIn(b.window)
            && r.discarded == b.discarded && r.maxLate == b.maxLate
    decreases n
  {
    hide Shape, Feed;
    var f := Feed(b);
    FeedKeepsFull(b, n);
    FeedParts(b);
    var t := data + d.unmarshal(f.fed).value;
    if n > 1 {
      TakeAll(d, f, n - 1, t);
      assert b.fed + [b.window[0].packet.payload] + PayloadsIn(f.window) == b.fed + PayloadsIn(b.window);
    } else {
      assert Take(d, f, 0, t).0 == f;
      assert PayloadsIn(b.window) == [b.window[0].packet.payload];
    }
  }

  function PayloadsIn(w: seq<Slot>): (r: seq<Bytes>)
    requires FullUpTo(w, |w|)
    ensures |r| == |w| && forall i | 0 <= i < |w| :: r[i] == w[i].packet.payload
  {
    seq(|w|, i requires 0 <= i < |w| => w[i].packet.payload)
  }

  lemma FeedParts(b: Buffer)
    requires Shape(b) && FullUpTo(b.window, |b.window|) && b.window != []
    ensures var f := Feed(b);
            && f.window == b.window[1..] && FullUpTo(f.window, |f.window|)
            && f.fed == b.fed + [b.window[0].packet.payload] && f.discarded == b.discarded && f.maxLate == b.maxLate
            && (if f.window == [] then f.lastSeqno == Some(Newest(b)) else Newest(f) == Newest(b))
  {
    if |b.window| == 1 { assert NextFull(b.window, 1) == 1; }
  }

  lemma {:induction false} TakeSucceeds(d: Depacketizer, b: Buffer, n: nat, data: Bytes)
    requires Shape(b) && n == |b.window| && FullUpTo(b.window, n) && Decoded(d, b.fed, b.window).Some?
    ensures Take(d, b, n, data).1.Some?
    decreases n
  {
    hide Shape, Feed;
    if n > 0 {
      var f := Feed(b);
      FeedKeepsFull(b, n);
      FeedParts(b);
      TakeSucceeds(d, f, n - 1, data + d.unmarshal(f.fed).value);
    }
  }

  lemma {:induction false} PacketsOfSlots(w: seq<Slot>, f: seq<Packet>)
    requires |w| == |f| && forall i | 0 <= i < |w| :: w[i].Full? && w[i].packet == f[i]
    ensures Packets(w) == f
  {
    if w != [] { PacketsOfSlots(w[1..], f[1..]); }
  }

  /** The builder after the frame has been popped. */
  predicate Delivered(a: Buffer, r: Buffer, f: seq<Packet>) {
    && f != [] && Shape(r) && r.window == [] && r.maxLate == a.maxLate
    && r.lastSeqno == Some(LastOf(f)) && r.lastTimestamp == Some(f[0].timestamp)
    && r.fed == a.fed + Payloads(f) && r.released == a.released + f && r.discarded == a.discarded
  }

  /** With its last packet the frame comes out whole. */
  lemma PopGives(d: Depacketizer, a: Buffer, b: Buffer, f: seq<Packet>)
    requires Ready(d, a, f) && Building(a, b, f, |f|) && Decoded(d, a.fed, SlotsOf(f)).Some?
    ensures var ts := f[0].timestamp;
            && Shape(b) && Delivered(a, Pop(d, b, false).0, f)
            && Pop(d, b, false).1 == Got(SampleOf(Decoded(d, a.fed, SlotsOf(f)).value, a.lastTimestamp, ts))
  {
    var n := |f|;
    assert SlotsOf(f)[..n] == SlotsOf(f);
    BuildingShape(d, a, b, f, n);
    EmitsWhole(d, a, b, f);
    hide Shape, Frame, FrameEnd, Emits, Drops;
    TakeSucceeds(d, b, n, []);
    TakeAll(d, b, n, []);
    TakeTakes(d, b, n, []);
    TakeDecodes(d, b, n, []);
    assert b.window[..n] == b.window;
    PacketsOfSlots(b.window, f);
    assert PayloadsIn(b.window) == Payloads(f);
    var data := Decoded(d, a.fed, SlotsOf(f)).value;
    assert [] + data == data;
    var t := Take(d, b, n, []).0;
    assert NextFull(b.window, n) == n && t.window == [];
    hide Take, NextFull;
    assert Pop(d, b, false) == Emit(d, b, n - 1);
  }

  lemma EmitsWhole(d: Depacketizer, a: Buffer, b: Buffer, f: seq<Packet>)
    requires Ready(d, a, f) && Building(a, b, f, |f|)
    ensures Shape(b) && b.window != [] && FrameEnd(b.window, 0) == |f| - 1 && Emits(b, false) && !Drops(b, false)
    ensures Count(b, |f| - 1) == |f| && Newest(b) == LastOf(f)
  {
    BuildingShape(d, a, b, f, |f|);
    var k := FrameEnd(b.window, 0);
    assert b.window[|f| - 1] == SlotOf(f, |f| - 1);
    assert k < |b.window| ==> b.window[k] == SlotOf(f, k);
  }

  /** From the `j`th packet of the frame to its end. */
  lemma {:induction false} FrameRun(d: Depacketizer, a: Buffer, b: Buffer, f: seq<Packet>, j: nat, rest: seq<Packet>)
    returns (c: Buffer)
    requires Ready(d, a, f) && Building(a, b, f, j) && j < |f| && Decoded(d, a.fed, SlotsOf(f)).Some?
    ensures Shape(b) && Delivered(a, c, f)
    ensures var s := SampleOf(Decoded(d, a.fed, SlotsOf(f)).value, a.lastTimestamp, f[0].timestamp);
            Drive(d, b, f[j..] + rest) == Before(Got(s), Drive(d, c, rest))
    decreases |f| - j
  {
    hide Push, Pop, Building, Ready, Delivered;
    PushInto(d, a, b, f, j);
    var ps, e := f[j..] + rest, Push(d, b, f[j]).b;
    assert ps[0] == f[j] && ps[1..] == f[j + 1..] + rest;
    if j + 1 < |f| {
      PopWaits(d, a, e, f, j + 1);
      c := FrameRun(d, a, e, f, j + 1, rest);
      Quiet(Drive(d, e, f[j + 1..] + rest));
    } else {
      PopGives(d, a, e, f);
      c := Pop(d, e, false).0;
      assert f[j + 1..] + rest == rest;
      assert Shape(c) by { AfterFrame(a, c, f); }
    }
  }

  lemma Quiet(rest: Option<(Buffer, seq<Sample>)>)
    ensures Before(Nothing, rest) == rest
  {
    if rest.Some? { assert [] + rest.value.1 == rest.value.1; }
  }

  lemma AfterFrame(a: Buffer, c: Buffer, f: seq<Packet>)
    requires Delivered(a, c, f)
    ensures Shape(c) && f != [] && c.window == [] && c.maxLate == a.maxLate && c.lastSeqno == Some(LastOf(f))
    ensures c.lastTimestamp == Some(f[0].timestamp) && c.fed == a.fed + Payloads(f)
    ensures c.released == a.released + f && c.discarded == a.discarded
  {}

  // ---------------------------------------------------------------- the whole stream

  /** Push and pop the packets of a stream without loss, one after the other: no call panics,
      the samples are those of the frames, whole and in order, every packet is handed over in
      order, and the builder is empty in the end. */
  lemma {:induction false} StreamComesOut(d: Depacketizer, a: Buffer, frames: seq<seq<Packet>>)
    requires Shape(a) && a.window == [] && Stream(d, a.maxLate, a.lastSeqno, frames)
    requires SamplesOf(d, a.fed, a.lastTimestamp, frames).Some?
    ensures ComesOut(a, Drive(d, a, AllPackets(frames)), AllPackets(frames),
                     SamplesOf(d, a.fed, a.lastTimestamp, frames).value)
    decreases |frames|
  {
    hide Shape, Frame, Building, Ready, Drive, Decoded, SlotsOf, Payloads, Stream, SamplesOf, Delivered;
    if frames == [] {
      NoStream(d, a);
    } else {
      var f, more := frames[0], frames[1..];
      StreamSplit(d, a.maxLate, a.lastSeqno, frames);
      SamplesSplit(d, a.fed, a.lastTimestamp, frames);
      BeginFrame(d, a, f);
      var c := FrameRun(d, a, a, f, 0, AllPackets(more));
      AfterFrame(a, c, f);
      StreamComesOut(d, c, more);
      assert f[0..] == f;
      Onwards(a, c, f, Drive(d, c, AllPackets(more)), AllPackets(more),
              SamplesOf(d, c.fed, c.lastTimestamp, more).value,
              SampleOf(Decoded(d, a.fed, SlotsOf(f)).value, a.lastTimestamp, f[0].timestamp));
    }
  }

  /** The samples came out, every packet was handed over in order, and the builder is empty. */
  predicate ComesOut(a: Buffer, r: Option<(Buffer, seq<Sample>)>, packets: seq<Packet>, samples: seq<Sample>) {
    && r.Some? && r.value.1 == samples && r.value.0.window == []
    && r.value.0.released == a.released + packets && r.value.0.discarded == a.discarded
  }

  lemma Onwards(a: Buffer, c: Buffer, f: seq<Packet>, rest: Option<(Buffer, seq<Sample>)>, packets: seq<Packet>,
                samples: seq<Sample>, s: Sample)
    requires ComesOut(c, rest, packets, samples) && c.released == a.released + f && c.discarded == a.discarded
    ensures ComesOut(a, Before(Got(s), rest), f + packets, [s] + samples)
  {
    assert a.released + f + packets == a.released + (f + packets);
  }

  lemma NoStream(d: Depacketizer, a: Buffer)
    requires Shape(a) && a.window == []
    ensures ComesOut(a, Drive(d, a, AllPackets([])), AllPackets([]), SamplesOf(d, a.fed, a.lastTimestamp, []).value)
  {
    assert AllPackets([]) == [] && a.released + [] == a.released;
  }

  lemma BeginFrame(d: Depacketizer, a: Buffer, f: seq<Packet>)
    requires Shape(a) && a.window == [] && Frame(d, f) && Fits(a.maxLate, f)
    requires a.lastSeqno.Some? ==> f[0].seqno == Add(a.lastSeqno.value, 1)
    ensures Ready(d, a, f) && Building(a, a, f, 0)
  {
    assert SlotsOf(f)[..0] == [];
  }

  lemma StreamSplit(d: Depacketizer, maxLate: nat, last: Option<u16>, frames: seq<seq<Packet>>)
    requires Stream(d, maxLate, last, frames) && frames != []
    ensures Frame(d, frames[0]) && Fits(maxLate, frames[0])
    ensures last.Some? ==> frames[0][0].seqno == Add(last.value, 1)
    ensures Stream(d, maxLate, Some(LastOf(frames[0])), frames[1..])
  {
    hide Frame;
  }

  lemma SamplesSplit(d: Depacketizer, fed: seq<Bytes>, last: Option<u32>, frames: seq<seq<Packet>>)
    requires SamplesOf(d, fed, last, frames).Some? && frames != []
    ensures var f := frames[0];
            && f != [] && Decoded(d, fed, SlotsOf(f)).Some?
            && var more := SamplesOf(d, fed + Payloads(f), Some(f[0].timestamp), frames[1..]);
            && more.Some?
            && SamplesOf(d, fed, last, frames).value ==
                 [SampleOf(Decoded(d, fed, SlotsOf(f)).value, last, f[0].timestamp)] + more.value
  {
    hide Decoded, SlotsOf, Payloads;
  }
}
