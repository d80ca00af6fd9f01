/** The sample builder seen as a window of slots over consecutive sequence numbers.

    The ring positions `tail .. head` of the source become one sequence of slots; only
    the ring position of the first slot is kept, because the frame count that `pop`
    computes depends on it.  Calls of the packet release handler, packets dropped by the
    late return, payloads given to the depacketizer, and every change of `lastSeqno` are
    recorded in histories. */
module SampleBuffer {
  import opened Outcomes
  import opened Octets
  import opened Serial

  datatype Packet = Packet(seqno: u16, timestamp: u32, marker: bool, payload: Bytes, buff: nat)

  /** `packet{}` is the only packetless slot the source ever writes. */
  datatype Slot = Empty | Full(start: bool, end: bool, packet: Packet)

  /** The codec hooks.  `unmarshal` sees every payload given to it so far, the current one
      last, so a depacketizer with internal state is covered. */
  datatype Depacketizer = Depacketizer(
    isHead: Bytes -> bool,
    isTail: (bool, Bytes) -> bool,
    unmarshal: seq<Bytes> -> Option<Bytes>)

  /** What happens to `lastSeqno`: set by a packet leaving the tail, moved forward by `Push`
      without a packet leaving, or invalidated. */
  datatype Mark = Left(packet: Packet) | Moved(to: u16) | Forgot
  {
    function Seqno(): u16 requires !Forgot? { if Left? then packet.seqno else to }
  }

  datatype Buffer = Buffer(
    maxLate: nat,
    tail: nat,
    window: seq<Slot>,
    lastSeqno: Option<u16>,
    lastTimestamp: Option<u32>,
    fed: seq<Bytes>,
    released: seq<Packet>,
    discarded: seq<Packet>,
    trail: seq<Mark>)
  {
    function Size(): nat { 2 * maxLate + 1 }
    function Cap(): nat { 2 * maxLate }
  }

  datatype Outcome = Done(b: Buffer) | Panic(b: Buffer)

  datatype Sample = Sample(data: Bytes, timestamp: u32, samples: u32)

  /** The source returns nil both for `Nothing` and for `Corrupt` (a depacketizer error). */
  datatype Popped = Nothing | Corrupt | Got(sample: Sample)

  // ---------------------------------------------------------------- shape

  predicate Ends(w: seq<Slot>) {
    w != [] ==> w[0].Full? && w[|w| - 1].Full?
  }

  predicate Sequential(w: seq<Slot>) {
    |w| < 0x1_0000 && (w != [] && w[0].Full? ==>
      forall i | 0 <= i < |w| && w[i].Full? :: w[i].packet.seqno == Add(w[0].packet.seqno, i))
  }

  /** What the ring representation needs, for every `maxLate` that `New` can produce. */
  predicate Shape(b: Buffer) {
    && 2 <= b.maxLate <= 0x7FFF
    && |b.window| <= b.Cap()
    && b.tail < b.Size()
    && (b.window == [] ==> b.tail == 0)
    && Ends(b.window)
    && Sequential(b.window)
  }

  lemma ShapeBounds(b: Buffer)
    requires Shape(b)
    ensures |b.window| <= b.Cap() && b.tail < b.Size() && (b.window != [] ==> b.window[0].Full?)
  {}

  function Newest(b: Buffer): u16
    requires Shape(b) && b.window != []
  {
    b.window[|b.window| - 1].packet.seqno
  }

  function New(maxLate: u16): (b: Buffer)
    ensures Shape(b) && b.window == []
  {
    var m := if maxLate < 2 then 2 else if maxLate > 0x7FFF then 0x7FFF else maxLate;
    Buffer(m, 0, [], None, None, [], [], [], [])
  }

  // ---------------------------------------------------------------- leaving the tail

  /** The first full slot from `i` on; `|w|` if there is none. */
  function NextFull(w: seq<Slot>, i: nat): (k: nat)
    requires i <= |w|
    ensures i <= k <= |w|
    ensures forall j | i <= j < k :: w[j].Empty?
    ensures k < |w| ==> w[k].Full?
    decreases |w| - i
  {
    if i == |w| || w[i].Full? then i else NextFull(w, i + 1)
  }

  lemma {:induction false} NextFullShift(w: seq<Slot>, j: nat, i: nat)
    requires i + j <= |w|
    ensures NextFull(w[j..], i) + j == NextFull(w, i + j)
    decreases |w| - i - j
  {
    if i + j < |w| && w[i + j].Empty? { NextFullShift(w, j, i + 1); }
  }

  lemma SuffixSequential(w: seq<Slot>, k: nat)
    requires w != [] && w[0].Full? && Sequential(w)
    requires k < |w| && w[k].Full?
    ensures Sequential(w[k..])
  {
    forall i | 0 <= i < |w| - k && w[k..][i].Full?
      ensures w[k..][i].packet.seqno == Add(w[k..][0].packet.seqno, i)
    {
      assert w[k + i].packet.seqno == Add(w[0].packet.seqno, k + i);
    }
  }

  function Release(b: Buffer): (r: Buffer)
    requires Shape(b) && b.window != []
    ensures Shape(r) && |r.window| < |b.window| && r.maxLate == b.maxLate
    ensures if r.window == [] then r.lastSeqno == Some(Newest(b)) else Newest(r) == Newest(b)
  {
    var p := b.window[0].packet;
    var k := NextFull(b.window, 1);
    assert Sequential(b.window[k..]) by { if k < |b.window| { SuffixSequential(b.window, k); } }
    b.(window := b.window[k..],
       tail := if k == |b.window| then 0 else Around(b.tail, k, b.Size()),
       lastSeqno := Some(p.seqno),
       released := b.released + [p],
       trail := b.trail + [Left(p)])
  }

  function ReleaseAll(b: Buffer): (r: Buffer)
    requires Shape(b)
    ensures Shape(r) && r.window == [] && r.maxLate == b.maxLate
    ensures b.window != [] ==> r.lastSeqno == Some(Newest(b))
    decreases |b.window|
  {
    if b.window == [] then b else ReleaseAll(Release(b))
  }

  function DropRest(b: Buffer, ts: u32): (r: Buffer)
    requires Shape(b)
    ensures Shape(r) && |r.window| <= |b.window| && r.maxLate == b.maxLate
    ensures b.window != [] ==>
              if r.window == [] then r.lastSeqno == Some(Newest(b)) else Newest(r) == Newest(b)
    decreases |b.window|
  {
    if b.window == [] || b.window[0].start || b.window[0].packet.timestamp != ts then b
    else DropRest(Release(b), ts)
  }

  function Drop(b: Buffer): (r: Buffer)
    requires Shape(b) && b.window != []
    ensures Shape(r) && |r.window| < |b.window| && r.maxLate == b.maxLate
    ensures if r.window == [] then r.lastSeqno == Some(Newest(b)) else Newest(r) == Newest(b)
  {
    var ts := b.window[0].packet.timestamp;
    var r := DropRest(Release(b), ts);
    if r.lastTimestamp.None? then r.(lastTimestamp := Some(ts)) else r
  }

  // ---------------------------------------------------------------- Push

  datatype Screened = TooLate | Admitted(b: Buffer)

  function Forget(b: Buffer): Buffer {
    b.(lastSeqno := None, trail := b.trail + [Forgot])
  }

  function Advance(b: Buffer, to: u16): Buffer {
    b.(lastSeqno := Some(to), trail := b.trail + [Moved(to)])
  }

  /** The part of `Push` that looks at `lastSeqno` only. */
  function Screen(b: Buffer, p: Packet): (r: Screened)
    requires Shape(b)
    ensures r.Admitted? ==> Shape(r.b) && r.b.window == b.window && r.b.maxLate == b.maxLate
  {
    if b.lastSeqno.None? then Admitted(b)
    else
      var last := b.lastSeqno.value;
      if AtOrAfter(last, p.seqno) then
        if Fwd(p.seqno, last) > b.maxLate then Admitted(Forget(b)) else TooLate
      else
        var floor := Sub(p.seqno, b.maxLate);
        if !AtOrAfter(floor, last) then Admitted(b)
        else if b.window == [] then Admitted(Advance(b, floor))
        else
          var before := Sub(b.window[0].packet.seqno, 1);
          Admitted(Advance(b, if AtOrAfter(floor, before) then before else floor))
  }

  function Discard(b: Buffer, p: Packet): Buffer { b.(discarded := b.discarded + [p]) }

  function Reject(b: Buffer, p: Packet): Buffer { b.(released := b.released + [p]) }

  function Fresh(d: Depacketizer, p: Packet): Slot {
    Full(d.isHead(p.payload), d.isTail(p.marker, p.payload), p)
  }

  /** `p` directly follows the newest packet. */
  function Attach(d: Depacketizer, b: Buffer, p: Packet): (r: Buffer)
    requires Shape(b) && |b.window| < b.Cap()
    requires b.window != [] ==> p.seqno == Add(Newest(b), 1)
    ensures Shape(r) && r.maxLate == b.maxLate
  {
    if b.window == [] then b.(window := [Fresh(d, p)])
    else
      var k := |b.window| - 1;
      var newest := b.window[k];
      var start := newest.end || newest.packet.timestamp != p.timestamp || d.isHead(p.payload);
      b.(window := b.window[k := newest.(end := newest.end || start)] + [Fresh(d, p).(start := start)])
  }

  function Append(d: Depacketizer, b: Buffer, p: Packet): (r: Outcome)
    requires Shape(b) && b.window != [] && p.seqno == Add(Newest(b), 1)
    ensures Shape(r.b) && r.b.maxLate == b.maxLate
  {
    if |b.window| < b.Cap() then Done(Attach(d, b, p))
    else
      var r := Drop(b);
      if b.window[0].packet.timestamp != p.timestamp then Done(Attach(d, r, p))
      else if r.window != [] then Panic(r)
      else Done(Reject(r, p))
  }

  function Empties(k: nat): (r: seq<Slot>)
    ensures |r| == k && forall i | 0 <= i < k :: r[i] == Empty
  {
    seq(k, _ => Empty)
  }

  function MakeRoom(b: Buffer, count: nat): (r: Buffer)
    requires Shape(b) && count <= b.Cap()
    ensures Shape(r) && |r.window| + count <= r.Cap() && r.maxLate == b.maxLate
    ensures |r.window| <= |b.window|
    ensures b.window != [] ==>
              if r.window == [] then r.lastSeqno == Some(Newest(b)) else Newest(r) == Newest(b)
    decreases |b.window|
  {
    if |b.window| + count <= b.Cap() then b else MakeRoom(Drop(b), count)
  }

  /** A window continued, after a gap, by one more packet. */
  lemma GapSequential(w: seq<Slot>, e: seq<Slot>, s: Slot, v: seq<Slot>)
    requires w != [] && Ends(w) && Sequential(w) && v == w + e + [s]
    requires forall i | 0 <= i < |e| :: e[i].Empty?
    requires s.Full? && |v| < 0x1_0000 && s.packet.seqno == Add(w[|w| - 1].packet.seqno, |e| + 1)
    ensures Ends(v) && Sequential(v)
  {}

  function Skip(d: Depacketizer, b: Buffer, p: Packet, count: nat): (r: Buffer)
    requires Shape(b) && b.window != [] && 2 <= count && |b.window| + count <= b.Cap()
    requires p.seqno == Add(Newest(b), count)
    ensures Shape(r) && r.maxLate == b.maxLate
  {
    var v := b.window + Empties(count - 1) + [Fresh(d, p)];
    GapSequential(b.window, Empties(count - 1), Fresh(d, p), v);
    b.(window := v)
  }

  /** `p` is `count` ahead of the newest packet, with a gap in between. */
  function Leap(d: Depacketizer, b: Buffer, p: Packet, count: nat): (r: Buffer)
    requires Shape(b) && b.window != [] && 2 <= count <= b.Cap() && p.seqno == Add(Newest(b), count)
    ensures Shape(r) && r.maxLate == b.maxLate
  {
    var m := MakeRoom(b, count);
    if m.window == [] then m.(window := [Fresh(d, p)]) else Skip(d, m, p, count)
  }

  predicate SameContent(a: Slot, b: Slot) {
    a.Full? == b.Full? && (a.Full? ==> a.packet == b.packet)
  }

  /** `v` is `w` with `p` put into the empty slot `i`, frame flags aside. */
  predicate Inserted(w: seq<Slot>, i: nat, p: Packet, v: seq<Slot>) {
    && i < |w| == |v| && w[i].Empty?
    && v[i].Full? && v[i].packet == p
    && (forall j | 0 <= j < |w| && j != i :: SameContent(w[j], v[j]))
  }

  lemma PrependSequential(w: seq<Slot>, e: seq<Slot>, p: Packet, v: seq<Slot>)
    requires w != [] && Ends(w) && Sequential(w)
    requires e != [] && |e| + |w| < 0x1_0000 && w[0].packet.seqno == Add(p.seqno, |e|)
    requires forall i | 0 <= i < |e| :: e[i].Empty?
    requires Inserted(e + w, 0, p, v)
    ensures Ends(v) && Sequential(v)
  {
    var x := e + w;
    forall i | 0 <= i < |v| && v[i].Full? ensures v[i].packet.seqno == Add(p.seqno, i) {
      if i > 0 {
        assert SameContent(x[i], v[i]);
        assert x[i] == w[i - |e|];
      }
    }
    assert SameContent(x[|x| - 1], v[|x| - 1]);
  }

  lemma FillSequential(w: seq<Slot>, i: nat, p: Packet, v: seq<Slot>)
    requires w != [] && Ends(w) && Sequential(w) && i < |w| && p.seqno == Add(w[0].packet.seqno, i)
    requires Inserted(w, i, p, v)
    ensures Ends(v) && Sequential(v) && v[0].packet == w[0].packet
  {
    assert SameContent(w[0], v[0]) && SameContent(w[|w| - 1], v[|w| - 1]);
    forall j | 0 <= j < |w| && v[j].Full? ensures v[j].packet.seqno == Add(v[0].packet.seqno, j) {
      if j != i { assert SameContent(w[j], v[j]); }
    }
  }

  /** Put `p` into the empty slot `i`, settling the frame flags with both neighbours. */
  function Insert(d: Depacketizer, w: seq<Slot>, i: nat, p: Packet): (r: seq<Slot>)
    requires i < |w| && w[i].Empty?
    ensures Inserted(w, i, p, r)
  {
    var before := i > 0 && w[i - 1].Full?;
    var after := i + 1 < |w| && w[i + 1].Full?;
    var cutBefore := d.isHead(p.payload) || (before && w[i - 1].packet.timestamp != p.timestamp);
    var cutAfter := d.isTail(p.marker, p.payload) || (after && w[i + 1].packet.timestamp != p.timestamp);
    var w1 := if before && cutBefore then w[i - 1 := w[i - 1].(end := true)] else w;
    var w2 := if after && cutAfter then w1[i + 1 := w[i + 1].(start := true)] else w1;
    w2[i := Full(if before && !cutBefore then w[i - 1].end else cutBefore,
                 if after && !cutAfter then w[i + 1].start else cutAfter,
                 p)]
  }

  function Extend(d: Depacketizer, b: Buffer, p: Packet, k: nat): (r: Buffer)
    requires Shape(b) && b.window != [] && 0 < k && |b.window| + k <= b.Cap()
    requires b.window[0].packet.seqno == Add(p.seqno, k)
    ensures Shape(r) && r.maxLate == b.maxLate
  {
    var v := Insert(d, Empties(k) + b.window, 0, p);
    PrependSequential(b.window, Empties(k), p, v);
    b.(tail := Around(b.tail, b.Size() - k, b.Size()), window := v)
  }

  function Fill(d: Depacketizer, b: Buffer, p: Packet, i: nat): (r: Buffer)
    requires Shape(b) && i < |b.window| && b.window[i].Empty?
    requires p.seqno == Add(b.window[0].packet.seqno, i)
    ensures Shape(r) && r.maxLate == b.maxLate
  {
    var v := Insert(d, b.window, i, p);
    FillSequential(b.window, i, p, v);
    b.(window := v)
  }

  /** `p` lies `offset - 1` behind the newest packet. */
  function Behind(d: Depacketizer, b: Buffer, p: Packet, offset: nat): (r: Buffer)
    requires Shape(b) && b.window != [] && 2 <= offset < 0x1_0000 && Add(p.seqno, offset - 1) == Newest(b)
    ensures Shape(r) && r.maxLate == b.maxLate
  {
    var n := |b.window|;
    assert b.window[n - 1].packet.seqno == Add(b.window[0].packet.seqno, n - 1);
    if offset >= b.Cap() then Reject(b, p)
    else if offset > n then Extend(d, b, p, offset - n)
    else if b.window[n - offset].Full? then Reject(b, p)
    else Fill(d, b, p, n - offset)
  }

  function Place(d: Depacketizer, b: Buffer, p: Packet): (r: Outcome)
    requires Shape(b)
    ensures Shape(r.b) && r.b.maxLate == b.maxLate
    decreases b.window != [], 0
  {
    if b.window == [] then Done(b.(window := [Fresh(d, p)]))
    else
      var ahead := Fwd(Newest(b), p.seqno);
      if ahead == 0 then Done(Reject(b, p))
      else if ahead == 1 then Append(d, b, p)
      else if ahead < 0x8000 then
        if ahead > b.Cap() then Push(d, ReleaseAll(b), p) else Done(Leap(d, b, p, ahead))
      else Done(Behind(d, b, p, Fwd(p.seqno, Newest(b)) + 1))
  }

  /** The whole of `Push`.  The self-call in `Place` is on an empty buffer, which never
      reaches it again. */
  function Push(d: Depacketizer, b: Buffer, p: Packet): (r: Outcome)
    requires Shape(b)
    ensures Shape(r.b) && r.b.maxLate == b.maxLate
    decreases b.window != [], 1
  {
    match Screen(b, p)
    case TooLate => Done(Discard(b, p))
    case Admitted(a) => Place(d, a, p)
  }

  // ---------------------------------------------------------------- pop

  /** The first slot from `i` on that is empty or ends a frame; `|w|` if there is none. */
  function FrameEnd(w: seq<Slot>, i: nat): (k: nat)
    requires i <= |w|
    ensures i <= k <= |w|
    ensures forall j | i <= j < k :: w[j].Full? && !w[j].end
    ensures k < |w| ==> w[k].Empty? || w[k].end
    decreases |w| - i
  {
    if i == |w| || w[i].Empty? || w[i].end then i else FrameEnd(w, i + 1)
  }

  /** The frame occupying slots `0 .. k` lies across the end of the ring. */
  predicate Wraps(b: Buffer, k: nat) { b.tail + k >= b.Size() }

  /** How many packets `pop` takes for a frame in slots `0 .. k`: one fewer than the frame
      holds when the frame wraps, because the source adds `cap()` and not the ring size. */
  function Count(b: Buffer, k: nat): nat { if Wraps(b, k) then k else k + 1 }

  predicate FullUpTo(w: seq<Slot>, count: nat) {
    count <= |w| && forall i | 0 <= i < count :: w[i].Full?
  }

  /** Give the payload at the tail to the depacketizer and release its packet. */
  function Feed(b: Buffer): (r: Buffer)
    requires Shape(b) && b.window != []
    ensures Shape(r) && r.maxLate == b.maxLate
    ensures |b.window| > 1 && b.window[1].Full? ==> r.window == b.window[1..]
  {
    Release(b.(fed := b.fed + [b.window[0].packet.payload]))
  }

  lemma FeedKeepsFull(b: Buffer, count: nat)
    requires Shape(b) && 0 < count && FullUpTo(b.window, count)
    ensures FullUpTo(Feed(b).window, count - 1)
  {
    if count > 1 {
      var w := Feed(b).window;
      assert w == b.window[1..];
      assert forall i | 0 <= i < count - 1 :: w[i] == b.window[i + 1];
    }
  }

  lemma FeedRecords(b: Buffer)
    requires Shape(b) && b.window != []
    ensures var f := Feed(b);
            && f.fed == b.fed + [b.window[0].packet.payload]
            && f.released == b.released + [b.window[0].packet]
            && f.lastTimestamp == b.lastTimestamp
            && f.window == b.window[NextFull(b.window, 1)..]
  {}

  function Take(d: Depacketizer, b: Buffer, count: nat, data: Bytes): (r: (Buffer, Option<Bytes>))
    requires Shape(b) && FullUpTo(b.window, count)
    ensures Shape(r.0) && r.0.maxLate == b.maxLate
    decreases count
  {
    if count == 0 then (b, Some(data))
    else
      var f := Feed(b);
      FeedKeepsFull(b, count);
      match d.unmarshal(f.fed)
      case None => (f, None)
      case Some(buf) => Take(d, f, count - 1, data + buf)
  }

  function Emit(d: Depacketizer, b: Buffer, k: nat): (r: (Buffer, Popped))
    requires Shape(b) && FullUpTo(b.window, k + 1)
    ensures Shape(r.0) && r.0.maxLate == b.maxLate && r.1 != Nothing
  {
    var ts := b.window[0].packet.timestamp;
    var (t, data) := Take(d, b, Count(b, k), []);
    if data.None? then (t, Corrupt)
    else
      var samples := if t.lastTimestamp.Some? then Sub32(ts, t.lastTimestamp.value) else 0;
      (t.(lastTimestamp := Some(ts)), Got(Sample(data.value, ts, samples)))
  }

  /** `pop` gives up on the oldest frame: it has no beginning, or a packet is missing in it. */
  predicate Drops(b: Buffer, force: bool)
    requires Shape(b) && b.window != []
  {
    if !b.window[0].start then force || |b.window| - 1 > b.maxLate
    else
      var k := FrameEnd(b.window, 0);
      force && k < |b.window| && b.window[k].Empty?
  }

  /** A whole frame lies at the tail, and nothing is missing before it. */
  predicate Emits(b: Buffer, force: bool)
    requires Shape(b) && b.window != []
  {
    var k := FrameEnd(b.window, 0);
    && b.window[0].start
    && (force || b.lastSeqno.None? || Add(b.lastSeqno.value, 1) == b.window[0].packet.seqno)
    && k < |b.window| && b.window[k].Full?
  }

  function Pop(d: Depacketizer, b: Buffer, force: bool): (r: (Buffer, Popped))
    requires Shape(b)
    ensures Shape(r.0) && r.0.maxLate == b.maxLate
    decreases |b.window|
  {
    if b.window == [] then (b, Nothing)
    else if Drops(b, force) then Pop(d, Drop(b), force)
    else if Emits(b, force) then Emit(d, b, FrameEnd(b.window, 0))
    else (b, Nothing)
  }
}
