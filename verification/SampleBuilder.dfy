/** The sample builder as the source stores it: a circular array with 16-bit indices,
    changed in place.  Each method is proved to do to the array what the operation of the
    same name in `SampleBuffer` does to the window. */
module SampleBuilder {
  import opened Outcomes
  import opened Octets
  import opened Serial
  import B = SampleBuffer
  import opened RingStore

  type Packet = B.Packet

  /** The 16-bit sums of lines 346 and 370 do not wrap for this packet. */
  predicate Fits(b: B.Buffer, p: Packet)
    requires B.Shape(b)
  {
    b.window != [] ==>
      var count := Fwd(B.Newest(b), p.seqno);
      2 <= count < 0x8000 && count <= b.Cap() ==>
        |b.window| + count < 0x1_0000 && Around(b.tail, |b.window|, b.Size()) + count - 1 < 0x1_0000
  }

  lemma FitsUpToBound(b: B.Buffer, p: Packet)
    requires B.Shape(b) && b.maxLate <= 0x4000
    ensures Fits(b, p)
  {}

  /** The fields after a release, one by one. */
  lemma ReleaseParts(b: B.Buffer)
    requires B.Shape(b) && b.window != []
    ensures b.window[0].Full? && 1 <= |b.window| < b.Size() < 0x1_0000 && b.tail < b.Size()
    ensures var r := B.Release(b);
            var k := B.NextFull(b.window[1..], 0) + 1;
            && k <= |b.window| && r.window == b.window[1..][k - 1..]
            && r.tail == (if k == |b.window| then 0 else Around(b.tail, k, b.Size()))
            && r.lastSeqno == Some(b.window[0].packet.seqno) && r.lastTimestamp == b.lastTimestamp
            && r.released == b.released + [b.window[0].packet] && r.fed == b.fed
  {
    B.NextFullShift(b.window, 1, 0);
  }

  /** If a frame starts after the window, one ends with it. */
  function Ended(w: seq<Slot>, start: bool): (v: seq<Slot>)
    ensures |v| == |w|
  {
    if start && w != [] && w[|w| - 1].Full? then w[|w| - 1 := w[|w| - 1].(end := true)] else w
  }

  lemma AttachParts(d: B.Depacketizer, b: B.Buffer, p: Packet, start: bool)
    requires B.Shape(b) && |b.window| < b.Cap()
    requires b.window != [] ==> p.seqno == Add(B.Newest(b), 1)
    requires start == (
      d.isHead(p.payload) ||
      (b.window != [] && (var s := b.window[|b.window| - 1]; s.end || s.packet.timestamp != p.timestamp)))
    ensures var w := b.window;
            B.Attach(d, b, p) ==
              b.(window := Ended(w, start) + B.Empties(0) + [B.Full(start, d.isTail(p.marker, p.payload), p)])
  {
    var w := b.window;
    hide B.Sequential;
    if w != [] && !start {
      assert w[|w| - 1 := w[|w| - 1].(end := false)] == w;
    }
    assert forall x: seq<Slot> :: x + B.Empties(0) == x;
  }

  /** How many slots before the window an offset from its end reaches. */
  function Missing(w: seq<Slot>, offset: nat): nat { if offset > |w| then offset - |w| else 0 }

  /** A packet behind the newest one, as an insertion into the window extended to reach it. */
  lemma BehindParts(d: B.Depacketizer, b: B.Buffer, p: Packet, offset: u16)
    requires B.Shape(b) && b.window != [] && 2 <= offset && Add(p.seqno, offset - 1) == B.Newest(b)
    ensures offset >= b.Cap() ==> B.Behind(d, b, p, offset) == B.Reject(b, p)
    ensures offset < b.Cap() ==>
              var k := Missing(b.window, offset);
              var x := B.Empties(k) + b.window;
              && (x[|x| - offset].Full? ==> k == 0 && B.Behind(d, b, p, offset) == B.Reject(b, p))
              && (x[|x| - offset].Empty? ==>
                    B.Behind(d, b, p, offset) ==
                      b.(tail := if k > 0 then Around(b.tail, b.Size() - k, b.Size()) else b.tail,
                         window := B.Insert(d, x, |x| - offset, p)))
  {
    hide B.Insert, B.Shape, B.Behind, Around, Add;
    if offset > |b.window| {
      var k := offset - |b.window|;
      assert (B.Empties(k) + b.window)[0] == B.Empty && |B.Empties(k) + b.window| == offset;
      BehindFar(d, b, p, offset);
    } else {
      BehindNear(d, b, p, offset);
    }
  }

  /** The packet lies before the window. */
  lemma BehindFar(d: B.Depacketizer, b: B.Buffer, p: Packet, offset: u16)
    requires B.Shape(b) && b.window != [] && |b.window| < offset && Add(p.seqno, offset - 1) == B.Newest(b)
    requires 2 <= offset
    ensures var k := offset - |b.window|;
            B.Behind(d, b, p, offset) ==
              if offset >= b.Cap() then B.Reject(b, p)
              else b.(tail := Around(b.tail, b.Size() - k, b.Size()),
                      window := B.Insert(d, B.Empties(k) + b.window, 0, p))
  {
    hide B.Insert, B.Sequential;
  }

  /** The packet lies in the window. */
  lemma BehindNear(d: B.Depacketizer, b: B.Buffer, p: Packet, offset: u16)
    requires B.Shape(b) && b.window != [] && 2 <= offset <= |b.window| && Add(p.seqno, offset - 1) == B.Newest(b)
    ensures var i := |b.window| - offset;
            B.Behind(d, b, p, offset) ==
              if offset >= b.Cap() || b.window[i].Full? then B.Reject(b, p)
              else b.(window := B.Insert(d, b.window, i, p))
    ensures B.Empties(0) + b.window == b.window
  {
    hide B.Insert, B.Sequential;
  }

  lemma Stamp(b: B.Buffer, ts: u32)
    requires B.Shape(b)
    ensures B.Shape(b.(lastTimestamp := Some(ts)))
  {}

  lemma FedParts(b: B.Buffer)
    requires B.Shape(b) && b.window != []
    ensures b.window[0].Full?
    ensures var f := b.(fed := b.fed + [b.window[0].packet.payload]);
            B.Shape(f) && B.Feed(b) == B.Release(f)
  {}

  class SampleBuilder {
    const packets: array<Slot>
    const maxLate: u16
    const d: B.Depacketizer
    var head: u16
    var tail: u16
    var lastSeqnoValid: bool
    var lastSeqno: u16
    var lastTimestampValid: bool
    var lastTimestamp: u32
    var released: seq<Packet>  // the calls of the packet release handler
    var fed: seq<Bytes>      // what the depacketizer has been given
    ghost var view: B.Buffer

    ghost predicate Valid()
      reads this, packets
    {
      && B.Shape(view)
      && maxLate == view.maxLate && packets.Length == view.Size()
      && tail == view.tail && head == Around(tail, |view.window|, packets.Length)
      && view.lastSeqno == (if lastSeqnoValid then Some(lastSeqno) else None)
      && view.lastTimestamp == (if lastTimestampValid then Some(lastTimestamp) else None)
      && view.released == released && view.fed == fed
      && Holds(packets[..], view.window, tail)
    }

    constructor (maxLate: u16, d: B.Depacketizer)
      ensures Valid() && view == B.New(maxLate) && fresh(packets)
      ensures this.d == d
    {
      var m := maxLate;
      if m < 2 { m := 2; }
      if m > 0x7FFF { m := 0x7FFF; }
      this.packets := new Slot[2 * m + 1](_ => B.Empty);
      this.maxLate := m;
      this.d := d;
      head, tail := 0, 0;
      lastSeqnoValid, lastSeqno, lastTimestampValid, lastTimestamp := false, 0, false, 0;
      released, fed := [], [];
      view := B.New(maxLate);
    }

    function Len(): u16
      reads this
      requires head as int < packets.Length && tail as int < packets.Length < 0x1_0000
    {
      if tail <= head then Sub(head, tail) else Sub(Add(head, packets.Length), tail)
    }

    function Cap(): u16
      requires 0 < packets.Length < 0x1_0000
    {
      packets.Length - 1
    }

    function Inc(n: u16): u16
      requires 0 < packets.Length < 0x1_0000
    {
      if n < packets.Length - 1 then n + 1 else 0
    }

    function Dec(n: u16): u16
      requires 0 < packets.Length < 0x1_0000
    {
      if n > 0 then n - 1 else packets.Length - 1
    }

    lemma Layout()
      requires Valid()
      ensures head == tail <==> view.window == []
      ensures 5 <= packets.Length < 0x1_0000 && |view.window| < packets.Length
      ensures head < packets.Length && tail < packets.Length
      ensures view.window != [] ==> packets[tail] == view.window[0] && packets[tail].Full?
    {
      if view.window != [] { HoldsAt(packets[..], view.window, tail, 0); }
    }

    /** The loop of lines 203-205: move the tail to the next packet, or to the head. */
    method SkipMissing(ghost w: seq<Slot>)
      requires packets.Length < 0x1_0000 && |w| < packets.Length
      requires Holds(packets[..], w, tail) && head == Around(tail, |w|, packets.Length)
      modifies this`tail
      ensures var k := B.NextFull(w, 0);
              tail == Around(old(tail), k, packets.Length) && Holds(packets[..], w[k..], tail)
    {
      ghost var k := 0;
      assert w[0..] == w;
      hide Holds, SlotAt;
      while tail != head && packets[tail].Empty?
        invariant k <= |w| && tail == Around(old(tail), k, packets.Length)
        invariant Holds(packets[..], w[k..], tail)
        invariant B.NextFull(w, 0) == B.NextFull(w, k)
        decreases |w| - k
      {
        HoldsAt(packets[..], w[k..], tail, 0);
        HoldsLess(packets[..], w[k..], tail);
        assert w[k..][1..] == w[k + 1..];
        tail := Inc(tail);
        k := k + 1;
      }
      if tail != head { HoldsAt(packets[..], w[k..], tail, 0); }
    }

    /** Lines 192-200: the packet at the tail is handed over. */
    method PopTail(ghost w: seq<Slot>)
      requires 0 < packets.Length < 0x1_0000 && tail < packets.Length && packets[tail].Full?
      requires Holds(packets[..], w, tail) && w != []
      modifies this`lastSeqnoValid, this`lastSeqno, this`released, this`tail, packets
      ensures lastSeqnoValid && lastSeqno == old(packets[tail]).packet.seqno
      ensures released == old(released) + [old(packets[tail]).packet]
      ensures tail == Next(old(tail), packets.Length) && Holds(packets[..], w[1..], tail)
    {
      hide Holds;
      lastSeqnoValid := true;
      lastSeqno := packets[tail].packet.seqno;
      released := released + [packets[tail].packet];
      HoldsPop(packets[..], w, tail);
      packets[tail] := B.Empty;
      tail := Inc(tail);
    }

    method Release() returns (ok: bool)
      requires Valid()
      modifies this, packets
      ensures Valid()
      ensures ok == (old(view).window != [])
      ensures view == if ok then B.Release(old(view)) else old(view)
      ensures view.window != [] ==> head == old(head)
    {
      hide Holds, SlotAt, B.Shape, B.Release, B.NextFull, Around, Add, Sub;
      Layout();
      if head == tail { return false; }
      ReleaseParts(view);
      ghost var w, n := view.window, packets.Length;
      ghost var k := B.NextFull(w[1..], 0);
      AroundZero(tail, n);
      AroundNext(tail, 0, n);
      AroundAround(tail, 1, k, n);
      AroundAround(tail, 1, |w| - 1, n);
      AroundAround(tail, k + 1, |w| - k - 1, n);
      AroundApart(tail, k + 1, |w|, n);
      PopTail(w);
      SkipMissing(w[1..]);
      if tail == head {
        HoldsNothing(packets[..], tail);
        head, tail := 0, 0;
        AroundZero(0, n);
      }
      view := B.Release(view);
      return true;
    }

    method ReleaseAll()
      requires Valid()
      modifies this, packets
      ensures Valid() && view == B.ReleaseAll(old(view))
    {
      while tail != head
        invariant Valid() && B.ReleaseAll(view) == B.ReleaseAll(old(view))
        decreases |view.window|
      {
        Layout();
        var _ := Release();
      }
      Layout();
    }

    method Drop() returns (dropped: bool, ts: u32)
      requires Valid()
      modifies this, packets
      ensures Valid()
      ensures dropped == (old(view).window != [])
      ensures view == if dropped then B.Drop(old(view)) else old(view)
      ensures view.window != [] ==> head == old(head)
      ensures dropped ==> ts == old(view).window[0].packet.timestamp
    {
      hide Holds, SlotAt, B.Shape, B.Release, B.DropRest;
      Layout();
      if tail == head { return false, 0; }
      ts := packets[tail].packet.timestamp;
      var _ := Release();
      DropRest(ts);
      MarkTimestamp(ts);
      return true, ts;
    }

    /** Lines 232-238: the other packets of the frame at the tail. */
    method DropRest(ts: u32)
      requires Valid()
      modifies this, packets
      ensures Valid() && view == B.DropRest(old(view), ts)
      ensures view.window != [] ==> head == old(head)
    {
      hide Holds, SlotAt, B.Shape, B.Release;
      while tail != head
        invariant Valid() && (view.window != [] ==> head == old(head))
        invariant B.DropRest(view, ts) == B.DropRest(old(view), ts)
        decreases |view.window|
      {
        Layout();
        if packets[tail].start || packets[tail].packet.timestamp != ts { break; }
        var _ := Release();
      }
      Layout();
    }

    /** Lines 239-242: the first timestamp dropped is kept. */
    method MarkTimestamp(ts: u32)
      requires Valid()
      modifies this`lastTimestamp, this`lastTimestampValid, this`view
      ensures Valid()
      ensures view == if old(view).lastTimestamp.None? then old(view).(lastTimestamp := Some(ts)) else old(view)
    {
      hide Holds, SlotAt, B.Shape;
      if !lastTimestampValid {
        Stamp(view, ts);
        lastTimestamp := ts;
        lastTimestampValid := true;
        view := view.(lastTimestamp := Some(ts));
      }
    }

    /** Lines 275-282 and 361-368: the first packet of an empty builder. */
    method StoreFirst(p: Packet)
      requires Valid() && view.window == []
      modifies this, packets
      ensures Valid() && view == old(view).(window := [B.Fresh(d, p)])
    {
      packets[0] := B.Full(d.isHead(p.payload), d.isTail(p.marker, p.payload), p);
      tail := 0;
      head := 1;
      view := view.(window := [B.Fresh(d, p)]);
    }

    /** A call of the release handler for a packet that is not stored. */
    method Refuse(p: Packet)
      requires Valid()
      modifies this
      ensures Valid() && view == B.Reject(old(view), p)
    {
      released := released + [p];
      view := B.Reject(view, p);
    }

    lemma NewestSlot()
      requires Valid() && view.window != []
      ensures packets[Dec(head)] == view.window[|view.window| - 1] && packets[Dec(head)].Full?
      ensures Dec(head) == Around(tail, |view.window| - 1, packets.Length)
      ensures Len() == |view.window|
    {
      HoldsAt(packets[..], view.window, tail, |view.window| - 1);
    }

    /** Lines 314-325: does `p` begin a frame?  If so, the newest packet ends one. */
    method Boundary(p: Packet) returns (start: bool)
      requires Valid()
      modifies packets
      ensures var w := view.window;
              && start == (
                   d.isHead(p.payload) ||
                   (w != [] && (w[|w| - 1].end || w[|w| - 1].packet.timestamp != p.timestamp)))
              && Holds(packets[..], Ended(w, start), tail)
    {
      hide Holds, SlotAt, B.Shape, Around;
      Layout();
      if tail != head {
        NewestSlot();
        var newest := Dec(head);
        start := packets[newest].end || packets[newest].packet.timestamp != p.timestamp || d.isHead(p.payload);
        if start {
          ghost var w := view.window;
          HoldsSet(packets[..], w, tail, |w| - 1, w[|w| - 1].(end := true));
          packets[newest] := packets[newest].(end := true);
        }
      } else {
        start := d.isHead(p.payload);
      }
    }

    /** Lines 314-332: `p` follows the newest packet and there is room. */
    method Attach(p: Packet)
      requires Valid() && |view.window| < view.Cap()
      requires view.window != [] ==> p.seqno == Add(B.Newest(view), 1)
      modifies this, packets
      ensures Valid() && view == B.Attach(d, old(view), p)
    {
      hide Holds, SlotAt, B.Shape, B.Attach, Around;
      Layout();
      var start := Boundary(p);
      AttachParts(d, view, p, start);
      ghost var w := view.window;
      var slot := B.Full(start, d.isTail(p.marker, p.payload), p);
      HoldsAppend(packets[..], Ended(w, start), tail, 0, slot);
      AroundNext(tail, |w|, packets.Length);
      packets[head] := slot;
      head := Inc(head);
      view := B.Attach(d, view, p);
    }

    /** Lines 297-333: `p` follows the newest packet. */
    method PushNext(p: Packet) returns (panicked: bool)
      requires Valid() && view.window != [] && p.seqno == Add(B.Newest(view), 1)
      modifies this, packets
      ensures Valid()
      ensures view == B.Append(d, old(view), p).b && panicked == B.Append(d, old(view), p).Panic?
    {
      hide Holds, SlotAt, B.Sequential, B.Ends, B.Attach, B.Drop;
      Layout();
      if tail == Inc(head) {
        var dropped, ts := Drop();
        Layout();
        if dropped && ts == p.timestamp {
          if tail != head { return true; }
          Refuse(p);
          return false;
        }
      }
      Attach(p);
      return false;
    }

    /** Lines 346-355: drop frames until `count` more slots fit. */
    method MakeRoom(count: u16)
      requires Valid() && view.window != [] && count <= view.Cap()
      modifies this, packets
      ensures Valid() && view.maxLate == old(view).maxLate
      ensures view.window != [] ==> head == old(head) && B.Newest(view) == B.Newest(old(view))
      ensures |old(view).window| + count < 0x1_0000 ==> view == B.MakeRoom(old(view), count)
    {
      hide Holds, SlotAt, B.Sequential, B.Ends, B.Drop;
      Layout();
      NewestSlot();
      while Add(Len(), count) > Cap()
        invariant Valid() && Len() == |view.window| <= |old(view).window| && view.maxLate == old(view).maxLate
        invariant view.window != [] ==> head == old(head) && B.Newest(view) == B.Newest(old(view))
        invariant |old(view).window| + count < 0x1_0000 ==> B.MakeRoom(view, count) == B.MakeRoom(old(view), count)
        decreases |view.window|
      {
        var dropped, _ := Drop();
        Layout();
        if view.window != [] { NewestSlot(); }
      }
    }

    /** Lines 370-378: store `p` beyond the head, `offset` slots further on. */
    method StoreAhead(p: Packet, offset: u16)
      requires Valid() && view.window != [] && 1 <= offset < 0x7FFF
      requires p.seqno == Add(B.Newest(view), offset + 1)
      modifies this, packets
      ensures old(|view.window| + offset + 1 <= view.Cap() && head + offset < 0x1_0000) ==>
                Valid() && view == B.Skip(d, old(view), p, offset + 1)
    {
      hide Holds, SlotAt, B.Shape, Mod, Around;
      Layout();
      var index := Mod(Add(head, offset), packets.Length);
      ghost var w := view.window;
      ghost var fits := |w| + offset + 1 <= view.Cap() && head + offset < 0x1_0000;
      var slot := B.Full(d.isHead(p.payload), d.isTail(p.marker, p.payload), p);
      if fits {
        ModAround(head, offset, packets.Length);
        AroundAround(tail, |w|, offset, packets.Length);
        AroundNext(tail, |w| + offset, packets.Length);
        HoldsAppend(packets[..], w, tail, offset, slot);
      }
      packets[index] := slot;
      head := Inc(index);
      if fits {
        view := B.Skip(d, view, p, offset + 1);
      }
    }

    /** Lines 345-379: `p` is `count` ahead of the newest packet, and the ring can hold that. */
    method PushAhead(p: Packet, count: u16)
      requires Valid() && view.window != [] && 2 <= count <= view.Cap() && count < 0x8000
      requires p.seqno == Add(B.Newest(view), count)
      modifies this, packets
      ensures old(Fits(view, p)) ==> Valid() && view == B.Leap(d, old(view), p, count)
    {
      hide Holds, SlotAt, B.Sequential, B.Ends, B.Skip, B.MakeRoom;
      MakeRoom(count);
      Layout();
      if tail == head {
        StoreFirst(p);
      } else {
        StoreAhead(p, count - 1);
      }
    }

    /** Lines 425-439: the flag towards the slot before. */
    method SettleBefore(p: Packet, index: u16, ghost x: seq<Slot>, ghost i: nat) returns (start: bool)
      requires packets.Length < 0x1_0000 && |x| < packets.Length && i < |x|
      requires Holds(packets[..], x, tail) && index == Around(tail, i, packets.Length)
      modifies packets
      ensures var before := i > 0 && x[i - 1].Full?;
              var cut := d.isHead(p.payload) || (before && x[i - 1].packet.timestamp != p.timestamp);
              && start == (if before && !cut then x[i - 1].end else cut)
              && Holds(packets[..], if before && cut then x[i - 1 := x[i - 1].(end := true)] else x, tail)
    {
      assert index == tail <==> i == 0;
      assert i > 0 ==> Dec(index) == Around(tail, i - 1, packets.Length);
      hide Holds, SlotAt, Around;
      start := d.isHead(p.payload);
      if index != tail {
        var prev := Dec(index);
        HoldsAt(packets[..], x, tail, i - 1);
        if packets[prev].Full? {
          if packets[prev].packet.timestamp != p.timestamp { start := true; }
          if !start {
            start := packets[prev].end;
          } else {
            HoldsSet(packets[..], x, tail, i - 1, x[i - 1].(end := true));
            packets[prev] := packets[prev].(end := true);
          }
        }
      }
    }

    /** Lines 440-451: the flag towards the slot after. */
    method SettleAfter(p: Packet, index: u16, ghost x: seq<Slot>, ghost i: nat) returns (end: bool)
      requires packets.Length < 0x1_0000 && |x| < packets.Length && i + 1 < |x|
      requires Holds(packets[..], x, tail) && index == Around(tail, i, packets.Length)
      modifies packets
      ensures var after := x[i + 1].Full?;
              var cut := d.isTail(p.marker, p.payload) || (after && x[i + 1].packet.timestamp != p.timestamp);
              && end == (if after && !cut then x[i + 1].start else cut)
              && Holds(packets[..], if after && cut then x[i + 1 := x[i + 1].(start := true)] else x, tail)
    {
      assert Inc(index) == Around(tail, i + 1, packets.Length);
      hide Holds, SlotAt, Around;
      end := d.isTail(p.marker, p.payload);
      var next := Inc(index);
      HoldsAt(packets[..], x, tail, i + 1);
      if packets[next].Full? {
        if packets[next].packet.timestamp != p.timestamp { end := true; }
        if !end {
          end := packets[next].start;
        } else {
          HoldsSet(packets[..], x, tail, i + 1, x[i + 1].(start := true));
          packets[next] := packets[next].(start := true);
        }
      }
    }

    /** Lines 425-459: put `p` into the empty slot at `index` and settle the frame flags. */
    method StoreBetween(p: Packet, index: u16, ghost x: seq<Slot>, ghost i: nat)
      requires packets.Length < 0x1_0000 && |x| < packets.Length && i + 1 < |x| && x[i].Empty?
      requires Holds(packets[..], x, tail) && index == Around(tail, i, packets.Length)
      modifies packets
      ensures Holds(packets[..], B.Insert(d, x, i, p), tail)
    {
      assert index < packets.Length;
      hide Holds, SlotAt, Around;
      var start := SettleBefore(p, index, x, i);
      ghost var before := i > 0 && x[i - 1].Full?;
      ghost var cut := d.isHead(p.payload) || (before && x[i - 1].packet.timestamp != p.timestamp);
      ghost var w := if before && cut then x[i - 1 := x[i - 1].(end := true)] else x;
      var end := SettleAfter(p, index, w, i);
      ghost var after := w[i + 1].Full?;
      ghost var cutAfter := d.isTail(p.marker, p.payload) || (after && w[i + 1].packet.timestamp != p.timestamp);
      ghost var v := if after && cutAfter then w[i + 1 := w[i + 1].(start := true)] else w;
      HoldsSet(packets[..], v, tail, i, B.Full(start, end, p));
      packets[index] := B.Full(start, end, p);
    }

    /** Lines 396-414: the ring position `offset` before the head; the tail moves there if
        the window did not reach that far. */
    method Reach(offset: u16) returns (index: u16)
      requires Valid() && view.window != [] && 2 <= offset < view.Cap()
      modifies this`tail
      ensures index < packets.Length && tail < packets.Length
      ensures var w, n := view.window, packets.Length;
              var k := Missing(w, offset);
              && tail == (if k > 0 then Around(view.tail, n - k, n) else view.tail)
              && index == Around(tail, |w| + k - offset, n) && head == Around(tail, |w| + k, n)
              && Holds(packets[..], B.Empties(k) + w, tail)
    {
      hide Holds, SlotAt, B.Shape, Outside;
      Layout();
      ghost var w, n := view.window, packets.Length;
      index := if head >= offset then Sub(head, offset) else Sub(Add(head, packets.Length), offset);
      assert index == if head >= offset then head - offset else head + n - offset;
      Backwards(tail, |w|, n, offset);
      HoldsMore(packets[..], w, tail, Missing(w, offset));
      if Outside(tail, head, index) {
        tail := index;
      }
    }

    /** Lines 384-460: `p` lies `offset - 1` behind the newest packet. */
    method PushBehind(p: Packet, offset: u16)
      requires Valid() && view.window != [] && 2 <= offset && Add(p.seqno, offset - 1) == B.Newest(view)
      modifies this, packets
      ensures Valid() && view == B.Behind(d, old(view), p, offset)
    {
      hide Holds, SlotAt, B.Shape, B.Insert, B.Behind, Around;
      Layout();
      BehindParts(d, view, p, offset);
      if offset >= Cap() {
        Refuse(p);
        return;
      }
      var index := Reach(offset);
      ghost var x := B.Empties(Missing(view.window, offset)) + view.window;
      HoldsAt(packets[..], x, tail, |x| - offset);
      if packets[index].Full? {
        Refuse(p);
        return;
      }
      StoreBetween(p, index, x, |x| - offset);
      view := B.Behind(d, view, p, offset);
    }

    /** Lines 251-271: what a packet does to `lastSeqno`, and whether it is late. */
    method Admit(p: Packet) returns (admitted: bool)
      requires Valid()
      modifies this`lastSeqnoValid, this`lastSeqno, this`view
      ensures Valid() && head == old(head)
      ensures match B.Screen(old(view), p)
              case TooLate => !admitted && view == B.Discard(old(view), p)
              case Admitted(a) => admitted && view == a
    {
      hide Holds, SlotAt, B.Sequential;
      Layout();
      if lastSeqnoValid {
        if AtOrAfter(lastSeqno, p.seqno) {
          if Sub(lastSeqno, p.seqno) > maxLate {
            lastSeqnoValid := false;
            view := B.Forget(view);
          } else {
            view := B.Discard(view, p);
            return false;
          }
        } else {
          var last := Sub(p.seqno, maxLate);
          if AtOrAfter(last, lastSeqno) {
            if head != tail {
              var seqno := Sub(packets[tail].packet.seqno, 1);
              if AtOrAfter(last, seqno) { last := seqno; }
            }
            lastSeqno := last;
            view := B.Advance(view, last);
          }
        }
      }
      return true;
    }

    /** Adds a packet.  The self-call is made on an empty builder only, so it is at most one
        level deep. */
    method Push(p: Packet) returns (panicked: bool)
      requires Valid()
      modifies this, packets
      ensures old(Fits(view, p)) ==>
                Valid() && view == B.Push(d, old(view), p).b && panicked == B.Push(d, old(view), p).Panic?
      decreases view.window != []
    {
      hide Holds, SlotAt, B.Sequential, B.Ends, B.Append, B.Behind, B.Leap, B.ReleaseAll, B.Screen;
      var admitted := Admit(p);
      if !admitted { return false; }
      Layout();
      if head == tail {
        StoreFirst(p);
        return false;
      }
      NewestSlot();
      var newestSeqno := packets[Dec(head)].packet.seqno;
      if p.seqno == newestSeqno {
        Refuse(p);
        return false;
      }
      if p.seqno == Add(newestSeqno, 1) {
        panicked := PushNext(p);
        return;
      }
      if Sub(p.seqno, newestSeqno) < 0x8000 {
        var count := Sub(p.seqno, newestSeqno);
        if count > Cap() {
          ReleaseAll();
          panicked := Push(p);
          return;
        }
        PushAhead(p, count);
        return false;
      }
      PushBehind(p, Add(Sub(newestSeqno, p.seqno), 1));
      return false;
    }

    /** Lines 485-496: walk from the tail to the end of a frame, to a missing packet, or to
        the head. */
    method FindEnd() returns (last: u16, missing: bool)
      requires Valid() && view.window != []
      ensures var k := B.FrameEnd(view.window, 0);
              && last == Around(tail, k, packets.Length) && (last == head <==> k == |view.window|)
              && (missing <==> k < |view.window| && view.window[k].Empty?)
    {
      hide Holds, SlotAt, B.Shape;
      Layout();
      last, missing := tail, false;
      ghost var k := 0;
      while last != head && !(packets[last].Full? && packets[last].end)
        invariant 0 <= k <= |view.window| && last == Around(tail, k, packets.Length)
        invariant B.FrameEnd(view.window, 0) == B.FrameEnd(view.window, k)
        decreases |view.window| - k
      {
        HoldsAt(packets[..], view.window, tail, k);
        if packets[last].Empty? {
          missing := true;
          return;
        }
        last := Inc(last);
        k := k + 1;
      }
      if last != head { HoldsAt(packets[..], view.window, tail, k); }
    }

    /** Lines 502-516: decode and release `count` packets. */
    method TakePackets(count: u16) returns (data: Option<Bytes>)
      requires Valid() && B.FullUpTo(view.window, count)
      modifies this, packets
      ensures Valid() && (view, data) == B.Take(d, old(view), count, [])
    {
      hide Holds, SlotAt, B.Shape, B.Release, B.Feed, Around;
      var bytes: Bytes := [];
      var i := 0;
      while i < count
        invariant 0 <= i <= count && Valid() && B.FullUpTo(view.window, count - i)
        invariant B.Take(d, view, count - i, bytes) == B.Take(d, old(view), count, [])
      {
        Layout();
        B.FeedKeepsFull(view, count - i);
        B.FeedRecords(view);
        FedParts(view);
        fed := fed + [packets[tail].packet.payload];
        var buf := d.unmarshal(fed);
        view := view.(fed := fed);
        var _ := Release();
        if buf.None? { return None; }
        bytes := bytes + buf.value;
        i := i + 1;
      }
      return Some(bytes);
    }

    /** The difference computed at line 469. */
    lemma Span()
      requires Valid() && view.window != []
      ensures packets[tail].Full? && packets[Dec(head)].Full?
      ensures Sub(packets[Dec(head)].packet.seqno, packets[tail].packet.seqno) == |view.window| - 1
    {
      Layout();
      NewestSlot();
    }

    /** Lines 502-531: take the frame that ends at ring position `last`. */
    method EmitFrame(last: u16, ts: u32) returns (r: Option<B.Sample>)
      requires Valid() && view.window != [] && B.FrameEnd(view.window, 0) < |view.window|
      requires B.FullUpTo(view.window, B.FrameEnd(view.window, 0) + 1) && ts == view.window[0].packet.timestamp
      requires last == Around(tail, B.FrameEnd(view.window, 0), packets.Length)
      modifies this, packets
      ensures var (b, popped) := B.Emit(d, old(view), B.FrameEnd(old(view).window, 0));
              Valid() && view == b && r == if popped.Got? then Some(popped.sample) else None
    {
      hide Holds, SlotAt, B.Shape, B.Take, Around;
      Layout();
      CountOf(last);
      var count := Add(Sub(last, tail), 1);
      if last < tail {
        count := Add(Sub(Add(Cap(), last), tail), 1);
      }
      var data := TakePackets(count);
      if data.None? { return None; }
      var samples := 0;
      if lastTimestampValid {
        samples := Sub32(ts, lastTimestamp);
      }
      lastTimestampValid := true;
      lastTimestamp := ts;
      assert B.Shape(view.(lastTimestamp := Some(ts))) by { Stamp(view, ts); }
      view := view.(lastTimestamp := Some(ts));
      return Some(B.Sample(data.value, ts, samples));
    }

    /** The loop stands for the jumps to `again`: each one follows a drop. */
    method Pop(force: bool) returns (r: Option<B.Sample>)
      requires Valid()
      modifies this, packets
      ensures Valid() && view == B.Pop(d, old(view), force).0
      ensures r == match B.Pop(d, old(view), force).1 case Got(s) => Some(s) case _ => None
    {
      hide Holds, SlotAt, B.Sequential, B.Ends, B.Drop, B.Emit, Around;
      while true
        invariant Valid() && B.Pop(d, view, force) == B.Pop(d, old(view), force)
        decreases |view.window|
      {
        Layout();
        if tail == head { return None; }
        if !packets[tail].start {
          Span();
          var diff := Sub(packets[Dec(head)].packet.seqno, packets[tail].packet.seqno);
          if force || diff > maxLate {
            var _, _ := Drop();
            continue;
          }
          return None;
        }
        if !force && lastSeqnoValid && Add(lastSeqno, 1) != packets[tail].packet.seqno {
          return None;
        }
        var ts := packets[tail].packet.timestamp;
        var last, missing := FindEnd();
        if missing {
          if force {
            var _, _ := Drop();
            continue;
          }
          return None;
        }
        if last == head { return None; }
        r := EmitFrame(last, ts);
        return;
      }
    }

    /** The count of lines 503-506. */
    lemma CountOf(last: u16)
      requires Valid() && B.FrameEnd(view.window, 0) < |view.window|
      requires last == Around(tail, B.FrameEnd(view.window, 0), packets.Length)
      ensures var k := B.FrameEnd(view.window, 0);
              B.Count(view, k) ==
                if last < tail then Add(Sub(Add(Cap(), last), tail), 1) else Add(Sub(last, tail), 1)
    {
      Layout();
    }

    // -------------------------------------------------------------- check()

    /** The ring slot `i` places after the tail. */
    ghost function Nth(i: nat): Slot
      reads this, packets
      requires tail as int < packets.Length && i <= packets.Length
    {
      packets[Around(tail, i, packets.Length)]
    }

    /** The ring position that the loop of lines 104-125 looks at in round `i`.  On rings of
        more than 0x8001 slots the 16-bit sum can wrap. */
    function Probe(i: u16): (r: u16)
      reads this
      requires 0 < packets.Length < 0x1_0000
      ensures r < packets.Length
    {
      Mod(Add(tail, i), packets.Length)
    }

    /** Two neighbouring slots may have different timestamps only with a flag between them. */
    ghost predicate SameFrame(a: Slot, b: Slot) {
      a.Full? && b.Full? ==> a.packet.timestamp == b.packet.timestamp
    }

    /** What one round asks of ring position `j`. */
    ghost predicate SlotOk(j: u16, i: u16)
      reads this, packets
      requires head < packets.Length && tail < packets.Length < 0x1_0000 && j < packets.Length && packets[tail].Full?
    {
      packets[j].Full? ==>
        && packets[j].packet.seqno == Add(packets[tail].packet.seqno, i)
        && (j != tail && !packets[j].start ==> SameFrame(packets[Dec(j)], packets[j]))
        && (j != Dec(head) && !packets[j].end ==> SameFrame(packets[j], packets[Inc(j)]))
    }

    ghost predicate RingOk()
      reads this, packets
      requires 0 < packets.Length < 0x1_0000 && head < packets.Length && tail < packets.Length
    {
      head == tail ||
      var len, n := Len(), packets.Length;
      && packets[tail].Full? && packets[Dec(head)].Full?
      && (lastSeqnoValid ==> 0 < Sub(packets[tail].packet.seqno, lastSeqno) < 0x8000)
      && (forall i | 0 <= i < len :: SlotOk(Probe(i), i))
      && (forall i | len <= i < n :: Nth(i).Empty?)
    }

    /** The body of the loop of lines 104-125. */
    method CheckSlot(i: u16) returns (ok: bool)
      requires 0 < packets.Length < 0x1_0000 && head < packets.Length && tail < packets.Length
      requires packets[tail].Full?
      ensures ok == SlotOk(Probe(i), i)
    {
      hide Mod;
      var index := Probe(i);
      if packets[index].Empty? { return true; }
      if packets[index].packet.seqno != Add(packets[tail].packet.seqno, i) { return false; }
      var ts := packets[index].packet.timestamp;
      if index != tail && !packets[index].start {
        var prev := packets[Dec(index)];
        if prev.Full? && prev.packet.timestamp != ts { return false; }
      }
      if index != Dec(head) && !packets[index].end {
        var next := packets[Inc(index)];
        if next.Full? && next.packet.timestamp != ts { return false; }
      }
      return true;
    }

    /** `check()`, with false for a panic.  It reads any ring, in good order or not. */
    method Check() returns (ok: bool)
      requires 0 < packets.Length < 0x1_0000 && head < packets.Length && tail < packets.Length
      ensures ok == RingOk()
    {
      hide SlotOk, Probe;
      if head == tail { return true; }
      var len := Len();
      if packets[tail].Empty? { return false; }
      if packets[Dec(head)].Empty? { return false; }
      if lastSeqnoValid {
        var diff := Sub(packets[tail].packet.seqno, lastSeqno);
        if diff == 0 || diff >= 0x8000 { return false; }
      }
      var i := 0;
      while i < len
        invariant 0 <= i <= len && forall j | 0 <= j < i :: SlotOk(Probe(j), j)
      {
        var good := CheckSlot(i);
        if !good { return false; }
        i := i + 1;
      }
      var j := head;
      ghost var k: nat := len;
      while j != tail
        invariant len <= k <= packets.Length && j == Around(tail, k, packets.Length)
        invariant forall h | len <= h < k :: Nth(h).Empty?
        decreases packets.Length - k
      {
        assert packets[j] == Nth(k);
        if packets[j].Full? { return false; }
        j := Inc(j);
        k := k + 1;
      }
      return true;
    }

    method Close()
      requires Valid()
      modifies this, packets
      ensures Valid() && view == B.ReleaseAll(old(view)) && view.window == []
    {
      ReleaseAll();
    }
  }
}
