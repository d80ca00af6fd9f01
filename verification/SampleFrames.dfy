/** Which packets a sample is made of, and what `ForcePop` finds. */
module SampleFrames {
  import opened Outcomes
  import opened Octets
  import opened Serial
  import opened SampleBuffer
  import opened SampleBufferInvariant
  import opened SampleBufferAccount

  // ---------------------------------------------------------------- shedding a prefix

  /** `r` is `b` without its first `j` slots, whose packets went to the release handler in order. */
  predicate ShedTo(b: Buffer, r: Buffer, j: nat) {
    && Shape(b) && Shape(r) && r.maxLate == b.maxLate && r.fed == b.fed
    && j <= |b.window| && r.window == b.window[j..]
    && r.released == b.released + Packets(b.window[..j])
    && (j < |b.window| ==> r.tail == Around(b.tail, j, b.Size()))
  }

  lemma ShedChain(a: Buffer, b: Buffer, c: Buffer, i: nat, j: nat)
    requires ShedTo(a, b, i) && ShedTo(b, c, j)
    ensures ShedTo(a, c, i + j)
  {
    hide Shape, Packets;
    ShapeBounds(a);
    assert a.window[i..][j..] == a.window[i + j..];
    assert a.window[..i + j] == a.window[..i] + b.window[..j];
    PacketsConcat(a.window[..i], b.window[..j]);
    assert (a.released + Packets(a.window[..i])) + Packets(b.window[..j])
        == a.released + (Packets(a.window[..i]) + Packets(b.window[..j]));
  }

  lemma ReleaseSheds(b: Buffer)
    requires Shape(b) && b.window != []
    ensures ShedTo(b, Release(b), NextFull(b.window, 1))
  {
    var k := NextFull(b.window, 1);
    PacketsSkip(b.window[..k], k);
    assert Packets(b.window[..k]) == [b.window[0].packet] + Packets([]);
  }

  predicate NoStart(w: seq<Slot>, from: nat, to: nat)
    requires to <= |w|
  {
    forall h | from <= h < to :: w[h].Empty? || !w[h].start
  }

  lemma ShedNone(b: Buffer)
    requires Shape(b)
    ensures ShedTo(b, b, 0)
  {
    assert b.window[..0] == [] && b.window[0..] == b.window;
  }

  lemma ShedStamp(b: Buffer, r: Buffer, s: Buffer, j: nat)
    requires ShedTo(b, r, j) && s == r.(lastTimestamp := s.lastTimestamp)
    ensures ShedTo(b, s, j)
  {
    assert s.window == r.window && s.released == r.released && s.fed == r.fed && s.tail == r.tail;
  }

  lemma NoStartChain(w: seq<Slot>, from: nat, k: nat, i: nat)
    requires from <= k && k + i <= |w| && NoStart(w, from, k) && NoStart(w[k..], 0, i)
    ensures NoStart(w, from, k + i)
  {
    forall h | from <= h < k + i ensures w[h].Empty? || !w[h].start {
      if h >= k { assert w[h] == w[k..][h - k]; }
    }
  }

  lemma {:induction false} DropRestSheds(b: Buffer, ts: u32) returns (j: nat)
    requires Shape(b)
    ensures ShedTo(b, DropRest(b, ts), j) && NoStart(b.window, 0, j)
    decreases |b.window|
  {
    hide Release;
    j := 0;
    ShedNone(b);
    if b.window != [] && !b.window[0].start && b.window[0].packet.timestamp == ts {
      var r := Release(b);
      var k := NextFull(b.window, 1);
      ReleaseSheds(b);
      var i := DropRestSheds(r, ts);
      ShedChain(b, r, DropRest(r, ts), k, i);
      NoStartChain(b.window, 0, k, i);
      j := k + i;
    }
  }

  lemma ShedBoth(b: Buffer, r: Buffer, t: Buffer, s: Buffer, k: nat, i: nat)
    requires ShedTo(b, r, k) && ShedTo(r, t, i) && s == t.(lastTimestamp := s.lastTimestamp)
    requires 0 < k && NoStart(b.window, 1, k) && NoStart(r.window, 0, i)
    ensures ShedTo(b, s, k + i) && NoStart(b.window, 1, k + i)
  {
    NoStartChain(b.window, 1, k, i);
    hide Shape, NoStart;
    ShedChain(b, r, t, k, i);
    ShedStamp(b, t, s, k + i);
  }

  /** A drop never passes over the beginning of a later frame. */
  lemma DropSheds(b: Buffer) returns (j: nat)
    requires Shape(b) && b.window != []
    ensures ShedTo(b, Drop(b), j) && 0 < j && NoStart(b.window, 1, j)
  {
    hide Shape, Release, DropRest, ShedTo;
    ShapeBounds(b);
    var r := Release(b);
    var ts := b.window[0].packet.timestamp;
    var k := NextFull(b.window, 1);
    ReleaseSheds(b);
    var i := DropRestSheds(r, ts);
    j := k + i;
    ShedBoth(b, r, DropRest(r, ts), Drop(b), k, i);
  }

  // ---------------------------------------------------------------- decoding

  /** The payloads of `w` decoded one after the other by a depacketizer that has seen `fed`. */
  function Decoded(d: Depacketizer, fed: seq<Bytes>, w: seq<Slot>): Option<Bytes>
    requires FullUpTo(w, |w|)
    decreases |w|
  {
    if w == [] then Some([])
    else
      var seen := fed + [w[0].packet.payload];
      match (d.unmarshal(seen), Decoded(d, seen, w[1..]))
      case (Some(x), Some(y)) => Some(x + y)
      case _ => None
  }

  lemma {:induction false} TakeDecodes(d: Depacketizer, b: Buffer, n: nat, data: Bytes)
    requires Shape(b) && FullUpTo(b.window, n) && Take(d, b, n, data).1.Some?
    ensures var t := Decoded(d, b.fed, b.window[..n]);
            t.Some? && Take(d, b, n, data).1.value == data + t.value
    decreases n
  {
    hide Shape, Feed;
    if n > 0 {
      var f := Feed(b);
      FeedKeepsFull(b, n);
      var x := d.unmarshal(f.fed).value;
      TakeDecodes(d, f, n - 1, data + x);
      FeedRecords(b);
      assert b.window[..n][1..] == f.window[..n - 1];
    }
  }

  /** `r` is `b` after its first `n` packets were decoded and released. */
  predicate TookFrom(b: Buffer, r: Buffer, n: nat) {
    && n <= |b.window|
    && r.lastTimestamp == b.lastTimestamp
    && r.window == b.window[NextFull(b.window, n)..]
    && r.released == b.released + Packets(b.window[..n])
  }

  lemma {:induction false} TakeTakes(d: Depacketizer, b: Buffer, n: nat, data: Bytes)
    requires Shape(b) && 0 < n && FullUpTo(b.window, n) && Take(d, b, n, data).1.Some?
    ensures TookFrom(b, Take(d, b, n, data).0, n)
    decreases n
  {
    hide Shape, Feed, TookFrom;
    var f := Feed(b);
    FeedKeepsFull(b, n);
    FeedRecords(b);
    var t := data + d.unmarshal(f.fed).value;
    if n > 1 {
      TakeTakes(d, f, n - 1, t);
      TakeStep(b, f, Take(d, f, n - 1, t).0, n);
    } else {
      assert Take(d, f, 0, t).0 == f;
      TakeOne(b, f);
    }
  }

  lemma TakeOne(b: Buffer, f: Buffer)
    requires b.window != [] && b.window[0].Full? && f.window == b.window[NextFull(b.window, 1)..]
    requires f.released == b.released + [b.window[0].packet] && f.lastTimestamp == b.lastTimestamp
    ensures TookFrom(b, f, 1)
  {
    PacketsSkip(b.window[..1], 1);
    assert Packets(b.window[..1]) == [b.window[0].packet] + Packets([]);
  }

  lemma TakeStep(b: Buffer, f: Buffer, r: Buffer, n: nat)
    requires 1 < n && FullUpTo(b.window, n) && f.window == b.window[1..]
    requires f.released == b.released + [b.window[0].packet] && f.lastTimestamp == b.lastTimestamp
    requires TookFrom(f, r, n - 1)
    ensures TookFrom(b, r, n)
  {
    var w := b.window;
    NextFullShift(w, 1, n - 1);
    assert w[..n][0] == w[0] && w[..n][1..] == f.window[..n - 1];
    assert Packets(w[..n]) == [w[0].packet] + Packets(f.window[..n - 1]) by { PacketsSkip(w[..n], 1); }
    hide Packets, NextFull;
    assert b.released + [w[0].packet] + Packets(f.window[..n - 1]) == b.released + Packets(w[..n]);
  }

  // ---------------------------------------------------------------- frames

  /** Slots `i .. i + len` hold one frame: consecutive packets of one timestamp, the first
      flagged as a start and the last as an end, with no flag in between. */
  predicate IsFrame(w: seq<Slot>, i: nat, len: nat, ts: u32) {
    && 0 < len && i + len <= |w|
    && (forall j | i <= j < i + len :: w[j].Full?)
    && (forall j | i <= j < i + len :: w[j].packet.timestamp == ts)
    && (forall j | i <= j < i + len && j - i < 0x1_0000 :: w[j].packet.seqno == Add(w[i].packet.seqno, j - i))
    && (forall j | i <= j < i + len :: w[j].start <==> j == i)
    && (forall j | i <= j < i + len :: w[j].end <==> j == i + len - 1)
  }

  lemma FrameAtTail(b: Buffer)
    requires Inv(b) && b.window != [] && b.window[0].start
    requires var k := FrameEnd(b.window, 0); k < |b.window| && b.window[k].Full?
    ensures IsFrame(b.window, 0, FrameEnd(b.window, 0) + 1, b.window[0].packet.timestamp)
  {
    var k := FrameEnd(b.window, 0);
    OneTimestamp(b.window, k);
  }

  lemma {:induction false} OneTimestamp(w: seq<Slot>, k: nat)
    requires Flagged(w) && k < |w| && w[k].Full?
    requires forall j | 0 <= j < k :: w[j].Full? && !w[j].end
    ensures forall j | 0 < j <= k :: !w[j].start
    ensures forall j | 0 <= j <= k :: w[j].packet.timestamp == w[0].packet.timestamp
  {
    if k > 0 {
      OneTimestamp(w, k - 1);
      assert Linked(w[k - 1], w[k]);
    }
  }

  /** How many packets of a frame `pop` takes: all of them exactly when the frame does not
      lie across the end of the ring, otherwise all but the last. */
  function Taken(b: Buffer, i: nat, len: nat): nat
    requires Shape(b) && i < |b.window|
  {
    if Around(b.tail, i, b.Size()) + len <= b.Size() then len else len - 1
  }

  /** The ticks of a sample with timestamp `ts`: the distance to the timestamp popped before.
      Without one it is the distance to the first frame dropped, and 0 if nothing was. */
  function Ticks(b: Buffer, dropped: bool, ts: u32): u32
    requires dropped ==> b.window != [] && b.window[0].Full?
  {
    if b.lastTimestamp.Some? then Sub32(ts, b.lastTimestamp.value)
    else if dropped then Sub32(ts, b.window[0].packet.timestamp)
    else 0
  }

  /** The `n` packets from slot `i` on were decoded, in order, to the data; they and whatever
      lay before them went to the release handler, in order. */
  predicate Yields(d: Depacketizer, b: Buffer, r: Buffer, data: Bytes, i: nat, n: nat) {
    && i + n <= |b.window| && FullUpTo(b.window[i..i + n], n)
    && Decoded(d, b.fed, b.window[i..i + n]) == Some(data)
    && r.released == b.released + Packets(b.window[..i + n])
    && r.window == b.window[NextFull(b.window, i + n)..]
  }

  /** The sample `s` and the buffer `r` result from taking the frame in slots `i .. i + len`
      of `b`: what lay before the frame and the packets taken from it went to the release
      handler in order, and the data is the taken payloads decoded in order. */
  predicate SampleFrom(d: Depacketizer, b: Buffer, r: Buffer, s: Sample, i: nat, len: nat) {
    && Shape(b)
    && IsFrame(b.window, i, len, s.timestamp)
    && var n := Taken(b, i, len);
    && 0 < n && Yields(d, b, r, s.data, i, n)
    && r.lastTimestamp == Some(s.timestamp) && b.window[0].Full? && s.samples == Ticks(b, i > 0, s.timestamp)
  }

  lemma SampleFromTake(d: Depacketizer, b: Buffer, t: Buffer, r: Buffer, s: Sample, k: nat)
    requires Shape(b) && IsFrame(b.window, 0, k + 1, s.timestamp)
    requires TookFrom(b, t, Count(b, k)) && Decoded(d, b.fed, b.window[..Count(b, k)]) == Some(s.data)
    requires r.window == t.window && r.released == t.released && r.lastTimestamp == Some(s.timestamp)
    requires s.samples == if t.lastTimestamp.Some? then Sub32(s.timestamp, t.lastTimestamp.value) else 0
    ensures SampleFrom(d, b, r, s, 0, k + 1)
  {
    var n := Count(b, k);
    assert 0 < n == Taken(b, 0, k + 1);
    assert b.window[0..0 + n] == b.window[..n];
    hide Shape, IsFrame;
  }

  lemma EmitFrame(d: Depacketizer, b: Buffer)
    requires Inv(b) && b.window != [] && b.window[0].start
    requires var k := FrameEnd(b.window, 0);
             k < |b.window| && b.window[k].Full? && Emit(d, b, k).1.Got?
    ensures var k := FrameEnd(b.window, 0);
            SampleFrom(d, b, Emit(d, b, k).0, Emit(d, b, k).1.sample, 0, k + 1)
  {
    hide Shape, Flagged, LastBeforeTail, Tracked, Take, SampleFrom, IsFrame, TookFrom, Decoded;
    var k := FrameEnd(b.window, 0);
    FrameAtTail(b);
    var n := Count(b, k);
    assert 0 < n && FullUpTo(b.window, n) by { ShapeBounds(b); }
    TakeTakes(d, b, n, []);
    TakeDecodes(d, b, n, []);
    var (t, data) := Take(d, b, n, []);
    var out := Decoded(d, b.fed, b.window[..n]);
    assert [] + out.value == out.value && data == out;
    SampleFromTake(d, b, t, Emit(d, b, k).0, Emit(d, b, k).1.sample, k);
  }

  lemma FrameShift(w: seq<Slot>, j: nat, h: nat, len: nat, ts: u32)
    requires j <= |w| && IsFrame(w[j..], h, len, ts)
    ensures IsFrame(w, j + h, len, ts)
  {
    var v := w[j..];
    forall x | j + h <= x < j + h + len ensures w[x] == v[x - j] {}
  }

  lemma ShedSlices(b: Buffer, c: Buffer, j: nat, i: nat, n: nat)
    requires ShedTo(b, c, j) && i + n <= |c.window|
    ensures j + i + n <= |b.window|
    ensures c.window[i..i + n] == b.window[j + i..j + i + n]
    ensures c.released + Packets(c.window[..i + n]) == b.released + Packets(b.window[..j + i + n])
    ensures c.window[NextFull(c.window, i + n)..] == b.window[NextFull(b.window, j + i + n)..]
  {
    hide Shape, Packets;
    assert b.window[..j + i + n] == b.window[..j] + c.window[..i + n];
    PacketsConcat(b.window[..j], c.window[..i + n]);
    NextFullShift(b.window, j, i + n);
  }

  lemma TakenShift(b: Buffer, c: Buffer, j: nat, i: nat, len: nat)
    requires ShedTo(b, c, j) && i < |c.window|
    ensures Taken(b, j + i, len) == Taken(c, i, len)
  {
    hide Packets;
    ShapeBounds(b);
    hide Shape;
    assert b.Size() == c.Size();
    assert Around(c.tail, i, c.Size()) == Around(b.tail, j + i, b.Size());
  }

  /** The timestamp after a drop: the one before, or else that of the frame dropped. */
  predicate Stamped(b: Buffer, c: Buffer)
    requires b.window != [] && b.window[0].Full?
  {
    c.lastTimestamp == if b.lastTimestamp.Some? then b.lastTimestamp else Some(b.window[0].packet.timestamp)
  }

  lemma {:induction false} DropRestSameStamp(b: Buffer, ts: u32)
    requires Shape(b)
    ensures DropRest(b, ts).lastTimestamp == b.lastTimestamp
    decreases |b.window|
  {
    if b.window != [] && !b.window[0].start && b.window[0].packet.timestamp == ts {
      DropRestSameStamp(Release(b), ts);
    }
  }

  lemma DropStamps(b: Buffer)
    requires Shape(b) && b.window != []
    ensures Stamped(b, Drop(b))
  {
    DropRestSameStamp(Release(b), b.window[0].packet.timestamp);
  }

  lemma ShedParts(b: Buffer, c: Buffer, j: nat)
    requires ShedTo(b, c, j)
    ensures Shape(b) && Shape(c) && c.fed == b.fed && j <= |b.window| && c.window == b.window[j..]
    ensures b.window != [] ==> b.window[0].Full?
  {}

  lemma YieldsShift(d: Depacketizer, b: Buffer, c: Buffer, r: Buffer, data: Bytes, j: nat, i: nat, n: nat)
    requires ShedTo(b, c, j) && Yields(d, c, r, data, i, n)
    ensures Yields(d, b, r, data, j + i, n)
  {
    hide Shape, Packets, NextFull, Decoded, ShedTo, FullUpTo;
    ShedParts(b, c, j);
    ShedSlices(b, c, j, i, n);
  }

  lemma SampleShift(d: Depacketizer, b: Buffer, c: Buffer, r: Buffer, s: Sample, j: nat, i: nat, len: nat)
    requires ShedTo(b, c, j) && SampleFrom(d, c, r, s, i, len)
    requires 0 < j <= |b.window| && b.window[0].Full? && Stamped(b, c)
    ensures SampleFrom(d, b, r, s, j + i, len)
  {
    assert 0 < len && i + len <= |c.window|;
    hide Shape, Taken, ShedTo, Yields, IsFrame;
    ShedParts(b, c, j);
    FrameShift(b.window, j, i, len, s.timestamp);
    TakenShift(b, c, j, i, len);
    YieldsShift(d, b, c, r, s.data, j, i, Taken(c, i, len));
  }

  /** Every sample comes from one frame of the window. */
  lemma {:induction false} PopYieldsFrame(d: Depacketizer, b: Buffer, force: bool) returns (i: nat, len: nat)
    requires Inv(b) && Pop(d, b, force).1.Got?
    ensures SampleFrom(d, b, Pop(d, b, force).0, Pop(d, b, force).1.sample, i, len)
    decreases |b.window|
  {
    hide Emit, Drop, SampleFrom, ShedTo;
    if Drops(b, force) {
      var j := DropSheds(b);
      DropKeeps(b);
      DropStamps(b);
      ShedParts(b, Drop(b), j);
      i, len := PopYieldsFrame(d, Drop(b), force);
      SampleShift(d, b, Drop(b), Pop(d, b, force).0, Pop(d, b, force).1.sample, j, i, len);
      i := j + i;
    } else {
      i, len := 0, FrameEnd(b.window, 0) + 1;
      EmitFrame(d, b);
    }
  }

  // ---------------------------------------------------------------- ForcePop

  predicate Begins(w: seq<Slot>, i: nat) { i < |w| && w[i].Full? && w[i].start }

  /** A frame with all its packets begins at slot `i`. */
  predicate Complete(w: seq<Slot>, i: nat) {
    Begins(w, i) && var k := FrameEnd(w, i); k < |w| && w[k].Full?
  }

  /** From slot `i` on, the window is the beginning of one frame without any gap or end. */
  predicate Open(w: seq<Slot>, i: nat) { Begins(w, i) && FrameEnd(w, i) == |w| }

  lemma {:induction false} FrameEndShift(w: seq<Slot>, j: nat, i: nat)
    requires i + j <= |w|
    ensures FrameEnd(w[j..], i) + j == FrameEnd(w, i + j)
    decreases |w| - i - j
  {
    if i + j < |w| && w[i + j].Full? && !w[i + j].end { FrameEndShift(w, j, i + 1); }
  }

  /** Shedding slots in which no frame is complete or open hides none of either. */
  lemma ShedKeepsFrames(w: seq<Slot>, j: nat)
    requires 0 < j <= |w| && NoStart(w, 1, j) && !Complete(w, 0) && !Open(w, 0)
    ensures (exists i :: Complete(w, i)) <==> (exists i :: Complete(w[j..], i))
    ensures (exists i :: Open(w, i)) <==> (exists i :: Open(w[j..], i))
  {
    var v := w[j..];
    forall i: nat | i < |v| ensures Complete(v, i) == Complete(w, i + j) && Open(v, i) == Open(w, i + j) {
      FrameEndShift(w, j, i);
    }
    if i: nat :| Complete(w, i) { assert i >= j; assert Complete(v, i - j); }
    if i: nat :| Complete(v, i) { assert Complete(w, i + j); }
    if i: nat :| Open(w, i) { assert i >= j; assert Open(v, i - j); }
    if i: nat :| Open(v, i) { assert Open(w, i + j); }
  }

  /** `ForcePop` reaches the depacketizer exactly when some frame in the window is complete.
      When it finds nothing, the buffer is empty afterwards if and only if the window did not
      end in an open frame; an open frame is left in place. */
  lemma {:induction false} ForcePopFinds(d: Depacketizer, b: Buffer)
    requires Shape(b)
    ensures var (r, popped) := Pop(d, b, true);
            && (popped != Nothing <==> exists i :: Complete(b.window, i))
            && (popped == Nothing ==> (r.window == [] <==> !exists i :: Open(b.window, i)))
            && (popped == Nothing && r.window != [] ==> Open(r.window, 0))
    decreases |b.window|
  {
    hide Emit, Drop;
    if b.window != [] {
      if Drops(b, true) {
        var j := DropSheds(b);
        ForcePopFinds(d, Drop(b));
        ShedKeepsFrames(b.window, j);
      } else {
        assert Begins(b.window, 0);
        assert Emits(b, true) ==> Complete(b.window, 0);
        assert !Emits(b, true) ==> Open(b.window, 0);
      }
    }
  }
}
