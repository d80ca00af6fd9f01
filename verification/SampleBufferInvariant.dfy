/** The invariant that `check()` codifies, strengthened until every operation keeps it. */
module SampleBufferInvariant {
  import opened Outcomes
  import opened Octets
  import opened Serial
  import opened SampleBuffer

  /** Two adjacent packets agree on whether a frame boundary lies between them, and a
      change of timestamp is always a boundary. */
  predicate Linked(a: Slot, b: Slot) {
    a.Full? && b.Full? ==>
      a.end == b.start && (a.packet.timestamp != b.packet.timestamp ==> a.end)
  }

  predicate Flagged(w: seq<Slot>) {
    forall i, j {:trigger Linked(w[i], w[j])} | 0 <= i < |w| && j == i + 1 && j < |w| :: Linked(w[i], w[j])
  }

  /** The last packet that left lies before the tail, by less than half the number range. */
  predicate LastBeforeTail(b: Buffer) {
    b.lastSeqno.Some? && b.window != [] && b.window[0].Full? ==>
      0 < Fwd(b.lastSeqno.value, b.window[0].packet.seqno) < 0x8000
  }

  /** Within one epoch `lastSeqno` only moves forward in serial-number order, strictly so
      when a packet leaves. */
  predicate Forward(a: Mark, b: Mark) {
    !a.Forgot? && !b.Forgot? ==>
      Fwd(a.Seqno(), b.Seqno()) < 0x8000 && (b.Left? ==> 0 < Fwd(a.Seqno(), b.Seqno()))
  }

  predicate Ordered(trail: seq<Mark>) {
    forall i, j {:trigger Forward(trail[i], trail[j])} | 0 <= i < |trail| && j == i + 1 && j < |trail| ::
      Forward(trail[i], trail[j])
  }

  function Latest(trail: seq<Mark>): Option<u16> {
    if trail == [] || trail[|trail| - 1].Forgot? then None else Some(trail[|trail| - 1].Seqno())
  }

  predicate Tracked(b: Buffer) { Ordered(b.trail) && b.lastSeqno == Latest(b.trail) }

  /** The flag test of lines 113-124: without a flag between them, two adjacent packets have
      the same timestamp. */
  predicate Separated(a: Slot, b: Slot) {
    a.Full? && b.Full? && a.packet.timestamp != b.packet.timestamp ==> a.end && b.start
  }

  /** What `check()` tests. */
  predicate Checked(b: Buffer) {
    && Shape(b) && LastBeforeTail(b)
    && forall i, j {:trigger Separated(b.window[i], b.window[j])} |
         0 <= i < |b.window| && j == i + 1 && j < |b.window| :: Separated(b.window[i], b.window[j])
  }

  lemma InvImpliesChecked(b: Buffer)
    requires Inv(b)
    ensures Checked(b)
  {
    var w := b.window;
    forall i, j | 0 <= i < |w| && j == i + 1 && j < |w| ensures Separated(w[i], w[j]) {
      assert Linked(w[i], w[j]);
    }
  }

  predicate Inv(b: Buffer) {
    Shape(b) && b.maxLate <= 0x4000 && Flagged(b.window) && LastBeforeTail(b) && Tracked(b)
  }

  // ---------------------------------------------------------------- leaving the tail

  lemma TrailGrows(t: seq<Mark>, m: Mark)
    requires Ordered(t)
    requires t != [] ==> Forward(t[|t| - 1], m)
    ensures Ordered(t + [m])
  {
    var r := t + [m];
    forall i, j | 0 <= i < |r| && j == i + 1 && j < |r| ensures Forward(r[i], r[j]) {
      if j < |t| { assert Forward(t[i], t[j]); }
    }
  }

  lemma FwdWithin(a: u16, k: nat)
    requires k < 0x1_0000
    ensures Fwd(a, Add(a, k)) == k
  {}

  lemma SuffixFlagged(w: seq<Slot>, k: nat)
    requires Flagged(w) && k <= |w|
    ensures Flagged(w[k..])
  {
    var r := w[k..];
    forall i, j | 0 <= i < |r| && j == i + 1 && j < |r| ensures Linked(r[i], r[j]) {
      assert Linked(w[k + i], w[k + j]);
    }
  }

  lemma ReleaseTracked(b: Buffer)
    requires Shape(b) && b.window != [] && LastBeforeTail(b) && Tracked(b)
    ensures Tracked(Release(b))
  {
    TrailGrows(b.trail, Left(b.window[0].packet));
  }

  lemma ReleaseLast(b: Buffer)
    requires Shape(b) && b.maxLate <= 0x4000 && b.window != []
    ensures LastBeforeTail(Release(b))
  {
    var k := NextFull(b.window, 1);
    if k < |b.window| {
      assert b.window[k].packet.seqno == Add(b.window[0].packet.seqno, k);
      FwdWithin(b.window[0].packet.seqno, k);
    }
  }

  lemma ReleaseKeeps(b: Buffer)
    requires Inv(b) && b.window != []
    ensures Inv(Release(b))
  {
    ReleaseTracked(b);
    ReleaseLast(b);
    SuffixFlagged(b.window, NextFull(b.window, 1));
  }

  lemma {:induction false} ReleaseAllKeeps(b: Buffer)
    requires Inv(b)
    ensures Inv(ReleaseAll(b))
    decreases |b.window|
  {
    if b.window != [] {
      ReleaseKeeps(b);
      ReleaseAllKeeps(Release(b));
    }
  }

  lemma {:induction false} DropRestKeeps(b: Buffer, ts: u32)
    requires Inv(b)
    ensures Inv(DropRest(b, ts))
    decreases |b.window|
  {
    if b.window != [] && !b.window[0].start && b.window[0].packet.timestamp == ts {
      ReleaseKeeps(b);
      DropRestKeeps(Release(b), ts);
    }
  }

  /** Neither the timestamp nor the depacketizer history matters to the invariant. */
  lemma SameCore(b: Buffer, c: Buffer)
    requires c == b.(lastTimestamp := c.lastTimestamp, fed := c.fed)
    requires Inv(b)
    ensures Inv(c)
  {
    assert c.window == b.window && c.trail == b.trail;
  }

  lemma DropKeeps(b: Buffer)
    requires Inv(b) && b.window != []
    ensures Inv(Drop(b))
  {
    var ts := b.window[0].packet.timestamp;
    ReleaseKeeps(b);
    DropRestKeeps(Release(b), ts);
    SameCore(DropRest(Release(b), ts), Drop(b));
  }

  lemma {:induction false} MakeRoomKeeps(b: Buffer, count: nat)
    requires Inv(b) && count <= b.Cap()
    ensures Inv(MakeRoom(b, count))
    decreases |b.window|
  {
    if |b.window| + count > b.Cap() {
      DropKeeps(b);
      MakeRoomKeeps(Drop(b), count);
    }
  }

  // ---------------------------------------------------------------- Push

  /** `p` may be stored: it lies after the last packet that left. */
  predicate Eligible(b: Buffer, p: Packet) {
    b.lastSeqno.Some? ==>
      && 0 < Fwd(b.lastSeqno.value, p.seqno) <= 0x8000
      && (b.window == [] ==> Fwd(b.lastSeqno.value, p.seqno) < 0x8000)
  }

  /** The half-range tests of lines 252-266 select the smaller of the two forward moves. */
  lemma AdvanceArith(last: u16, seqno: u16, tail: u16, maxLate: nat)
    requires 2 <= maxLate <= 0x7FFF
    requires !AtOrAfter(last, seqno) && AtOrAfter(Sub(seqno, maxLate), last)
    requires 0 < Fwd(last, tail) < 0x8000
    ensures var d := Fwd(last, seqno);
            var o := Fwd(last, tail);
            var floor := Sub(seqno, maxLate);
            var before := Sub(tail, 1);
            && Fwd(last, floor) == d - maxLate
            && Fwd(last, before) == o - 1
            && (AtOrAfter(floor, before) <==> d - maxLate >= o - 1)
            && Fwd(floor, seqno) == maxLate && Fwd(before, tail) == 1
            && (d - maxLate < o - 1 ==> Fwd(floor, tail) == o - (d - maxLate))
            && (d - maxLate >= o - 1 ==> Fwd(before, seqno) == d - (o - 1))
  {}

  lemma ScreenKeeps(b: Buffer, p: Packet)
    requires Inv(b) && Screen(b, p).Admitted?
    ensures var a := Screen(b, p).b;
            Inv(a) && a.window == b.window && Eligible(a, p) && a.maxLate == b.maxLate
  {
    if b.lastSeqno.Some? {
      var last := b.lastSeqno.value;
      var a := Screen(b, p).b;
      if AtOrAfter(last, p.seqno) {
        TrailGrows(b.trail, Forgot);
      } else if AtOrAfter(Sub(p.seqno, b.maxLate), last) {
        AdvanceArith(last, p.seqno, if b.window == [] then Add(last, 0x7FFF) else b.window[0].packet.seqno, b.maxLate);
        TrailGrows(b.trail, Moved(a.lastSeqno.value));
      }
    }
  }

  lemma AttachFlagged(d: Depacketizer, b: Buffer, p: Packet)
    requires Shape(b) && |b.window| < b.Cap() && Flagged(b.window)
    requires b.window != [] ==> p.seqno == Add(Newest(b), 1)
    ensures Flagged(Attach(d, b, p).window)
  {
    var w, v := b.window, Attach(d, b, p).window;
    forall i, j | 0 <= i < |v| && j == i + 1 && j < |v| ensures Linked(v[i], v[j]) {
      if j < |w| { assert Linked(w[i], w[j]); }
    }
  }

  lemma AttachKeeps(d: Depacketizer, b: Buffer, p: Packet)
    requires Inv(b) && |b.window| < b.Cap()
    requires if b.window == [] then Eligible(b, p) else p.seqno == Add(Newest(b), 1)
    ensures Inv(Attach(d, b, p))
  {
    AttachFlagged(d, b, p);
  }

  lemma AppendKeeps(d: Depacketizer, b: Buffer, p: Packet)
    requires Inv(b) && b.window != [] && p.seqno == Add(Newest(b), 1)
    ensures Inv(Append(d, b, p).b)
  {
    if |b.window| < b.Cap() {
      AttachKeeps(d, b, p);
    } else {
      DropKeeps(b);
      AttachKeeps(d, Drop(b), p);
    }
  }

  lemma SkipKeeps(d: Depacketizer, b: Buffer, p: Packet, count: nat)
    requires Inv(b) && b.window != [] && 2 <= count && |b.window| + count <= b.Cap()
    requires p.seqno == Add(Newest(b), count)
    ensures Inv(Skip(d, b, p, count))
  {
    var w, v := b.window, Skip(d, b, p, count).window;
    forall i, j | 0 <= i < |v| && j == i + 1 && j < |v| ensures Linked(v[i], v[j]) {
      if j < |w| { assert Linked(w[i], w[j]); }
    }
  }

  lemma LeapKeeps(d: Depacketizer, b: Buffer, p: Packet, count: nat)
    requires Inv(b) && b.window != [] && 2 <= count <= b.Cap() && count < 0x8000
    requires p.seqno == Add(Newest(b), count)
    ensures Inv(Leap(d, b, p, count))
  {
    var m := MakeRoom(b, count);
    MakeRoomKeeps(b, count);
    if m.window != [] { SkipKeeps(d, m, p, count); }
  }

  lemma InsertFlagged(d: Depacketizer, w: seq<Slot>, i: nat, p: Packet)
    requires i < |w| && w[i].Empty? && Flagged(w)
    ensures Flagged(Insert(d, w, i, p))
  {
    var v := Insert(d, w, i, p);
    forall h, j | 0 <= h < |v| && j == h + 1 && j < |v| ensures Linked(v[h], v[j]) {
      assert Linked(w[h], w[j]);
    }
  }

  lemma EligibleTail(last: u16, seqno: u16, tail: u16, k: nat)
    requires 0 < k < 0x8000 && tail == Add(seqno, k)
    requires 0 < Fwd(last, tail) < 0x8000 && 0 < Fwd(last, seqno) <= 0x8000
    ensures Fwd(last, seqno) < 0x8000
  {}

  lemma ExtendKeeps(d: Depacketizer, b: Buffer, p: Packet, k: nat)
    requires Inv(b) && b.window != [] && 0 < k && |b.window| + k < b.Cap()
    requires b.window[0].packet.seqno == Add(p.seqno, k) && Eligible(b, p)
    ensures Inv(Extend(d, b, p, k))
  {
    var w, x := b.window, Empties(k) + b.window;
    forall i, j | 0 <= i < |x| && j == i + 1 && j < |x| ensures Linked(x[i], x[j]) {
      if i >= k { assert Linked(w[i - k], w[j - k]); }
    }
    InsertFlagged(d, x, 0, p);
    if b.lastSeqno.Some? {
      EligibleTail(b.lastSeqno.value, p.seqno, w[0].packet.seqno, k);
    }
  }

  lemma FillKeeps(d: Depacketizer, b: Buffer, p: Packet, i: nat)
    requires Inv(b) && i < |b.window| && b.window[i].Empty? && p.seqno == Add(b.window[0].packet.seqno, i)
    ensures Inv(Fill(d, b, p, i))
  {
    InsertFlagged(d, b.window, i, p);
    assert SameContent(b.window[0], Fill(d, b, p, i).window[0]);
  }

  lemma BehindKeeps(d: Depacketizer, b: Buffer, p: Packet, offset: nat)
    requires Inv(b) && b.window != [] && 2 <= offset < 0x1_0000 && Add(p.seqno, offset - 1) == Newest(b)
    requires Eligible(b, p)
    ensures Inv(Behind(d, b, p, offset))
  {
    hide Extend, Fill;
    var n := |b.window|;
    assert b.window[n - 1].packet.seqno == Add(b.window[0].packet.seqno, n - 1);
    if offset < b.Cap() {
      if offset > n {
        ExtendKeeps(d, b, p, offset - n);
      } else if b.window[n - offset].Empty? {
        FillKeeps(d, b, p, n - offset);
      }
    }
  }

  lemma {:induction false} PlaceKeeps(d: Depacketizer, b: Buffer, p: Packet)
    requires Inv(b) && Eligible(b, p)
    ensures Inv(Place(d, b, p).b)
    decreases b.window != [], 0
  {
    if b.window != [] {
      var ahead := Fwd(Newest(b), p.seqno);
      if ahead == 1 {
        AppendKeeps(d, b, p);
      } else if ahead >= 0x8000 {
        BehindKeeps(d, b, p, Fwd(p.seqno, Newest(b)) + 1);
      } else if ahead > b.Cap() {
        ReleaseAllKeeps(b);
        PushKeeps(d, ReleaseAll(b), p);
      } else if ahead != 0 {
        LeapKeeps(d, b, p, ahead);
      }
    }
  }

  /** Every `Push` keeps the invariant, also one that panics. */
  lemma {:induction false} PushKeeps(d: Depacketizer, b: Buffer, p: Packet)
    requires Inv(b)
    ensures Inv(Push(d, b, p).b)
    decreases b.window != [], 1
  {
    if Screen(b, p).Admitted? {
      ScreenKeeps(b, p);
      PlaceKeeps(d, Screen(b, p).b, p);
    }
  }

  // ---------------------------------------------------------------- pop

  lemma {:induction false} TakeKeeps(d: Depacketizer, b: Buffer, count: nat, data: Bytes)
    requires Inv(b) && FullUpTo(b.window, count)
    ensures Inv(Take(d, b, count, data).0)
    decreases count
  {
    if count > 0 {
      var f := b.(fed := b.fed + [b.window[0].packet.payload]);
      SameCore(b, f);
      ReleaseKeeps(f);
      FeedKeepsFull(b, count);
      if d.unmarshal(f.fed).Some? {
        TakeKeeps(d, Feed(b), count - 1, data + d.unmarshal(f.fed).value);
      }
    }
  }

  lemma EmitKeeps(d: Depacketizer, b: Buffer, k: nat)
    requires Inv(b) && FullUpTo(b.window, k + 1)
    ensures Inv(Emit(d, b, k).0)
  {
    TakeKeeps(d, b, Count(b, k), []);
    SameCore(Take(d, b, Count(b, k), []).0, Emit(d, b, k).0);
  }

  lemma {:induction false} PopKeeps(d: Depacketizer, b: Buffer, force: bool)
    requires Inv(b)
    ensures Inv(Pop(d, b, force).0)
    decreases |b.window|
  {
    if b.window != [] {
      if Drops(b, force) {
        DropKeeps(b);
        PopKeeps(d, Drop(b), force);
      } else if Emits(b, force) {
        EmitKeeps(d, b, FrameEnd(b.window, 0));
      }
    }
  }
}
