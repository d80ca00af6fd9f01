/** Which packets `Push` keeps: the window as a map from sequence numbers to packets. */
module SamplePlacing {
  import opened Outcomes
  import opened Serial
  import opened SampleBuffer
  import opened SampleBufferInvariant
  import opened SampleBufferAccount
  import opened SampleFrames
  import opened SampleWaits

  /** The packet with number `s`. */
  function At(w: seq<Slot>, s: u16): Option<Packet>
    requires w != [] ==> w[0].Full?
  {
    if w == [] then None
    else
      var i := Fwd(w[0].packet.seqno, s);
      if i < |w| && w[i].Full? then Some(w[i].packet) else None
  }

  /** The packet lies at or behind the last one that left, by at most `maxLate`. */
  predicate Late(b: Buffer, p: Packet) {
    b.lastSeqno.Some? && Fwd(p.seqno, b.lastSeqno.value) <= b.maxLate
  }

  /** The number is not taken, and the window with it is not longer than the ring allows. */
  predicate HasRoom(b: Buffer, p: Packet)
    requires Shape(b)
  {
    b.window == [] ||
    var ahead := Fwd(Newest(b), p.seqno);
    if ahead < 0x8000 then 0 < ahead && |b.window| + ahead <= b.Cap()
    else Fwd(p.seqno, Newest(b)) + 1 < b.Cap() && At(b.window, p.seqno).None?
  }

  /** The packet is the newest one again, too far behind it, or has a number that is taken. */
  predicate Unwanted(b: Buffer, p: Packet)
    requires Shape(b)
  {
    b.window != [] &&
    var ahead := Fwd(Newest(b), p.seqno);
    ahead == 0 || (ahead >= 0x8000 && (Fwd(p.seqno, Newest(b)) + 1 >= b.Cap() || At(b.window, p.seqno).Some?))
  }

  /** The map `At(v, ·)` is `At(w, ·)` with `p` added under its number. */
  ghost predicate Adds(w: seq<Slot>, v: seq<Slot>, p: Packet)
    requires (w != [] ==> w[0].Full?) && (v != [] ==> v[0].Full?)
  {
    forall s: u16 :: At(v, s) == if s == p.seqno then Some(p) else At(w, s)
  }

  // ---------------------------------------------------------------- windows

  lemma AddsFirst(s: Slot)
    requires s.Full?
    ensures Adds([], [s], s.packet)
  {}

  /** A packet beyond the end, after a gap. */
  lemma AddsBeyond(w: seq<Slot>, v: seq<Slot>, p: Packet, gap: nat)
    requires w != [] && w[0].Full? && |v| == |w| + gap + 1 < 0x1_0000
    requires forall i | 0 <= i < |w| :: SameContent(w[i], v[i])
    requires forall i | |w| <= i < |w| + gap :: v[i].Empty?
    requires v[|w| + gap].Full? && v[|w| + gap].packet == p && p.seqno == Add(w[0].packet.seqno, |w| + gap)
    ensures v[0].Full? && Adds(w, v, p)
  {
    assert SameContent(w[0], v[0]);
    forall s: u16 ensures At(v, s) == if s == p.seqno then Some(p) else At(w, s) {
      var i := Fwd(w[0].packet.seqno, s);
      if i < |w| { assert SameContent(w[i], v[i]); }
    }
  }

  lemma AddsInside(w: seq<Slot>, v: seq<Slot>, p: Packet, i: nat)
    requires w != [] && w[0].Full? && |w| < 0x1_0000 && 0 < i && Inserted(w, i, p, v)
    requires p.seqno == Add(w[0].packet.seqno, i)
    ensures v[0].Full? && Adds(w, v, p)
  {
    assert SameContent(w[0], v[0]);
    forall s: u16 ensures At(v, s) == if s == p.seqno then Some(p) else At(w, s) {
      var j := Fwd(w[0].packet.seqno, s);
      if j < |w| && j != i { assert SameContent(w[j], v[j]); }
    }
  }

  lemma AddsBefore(w: seq<Slot>, e: seq<Slot>, v: seq<Slot>, p: Packet)
    requires w != [] && w[0].Full? && e != [] && |e| + |w| < 0x1_0000 && w[0].packet.seqno == Add(p.seqno, |e|)
    requires (forall i | 0 <= i < |e| :: e[i].Empty?) && Inserted(e + w, 0, p, v)
    ensures v[0].Full? && Adds(w, v, p)
  {
    var x := e + w;
    forall s: u16 ensures At(v, s) == if s == p.seqno then Some(p) else At(w, s) {
      var j := Fwd(p.seqno, s);
      if 0 < j < |v| { assert SameContent(x[j], v[j]); }
      if |e| <= j < |v| { assert x[j] == w[j - |e|]; }
    }
  }

  // ---------------------------------------------------------------- operations

  /** `r` is `b` with another window, and nothing handed over. */
  predicate OnlyWindow(b: Buffer, r: Buffer) {
    && r.maxLate == b.maxLate && r.released == b.released && r.discarded == b.discarded
    && r.fed == b.fed && r.lastTimestamp == b.lastTimestamp && r.lastSeqno == b.lastSeqno
  }

  /** The packet is added, and nothing else changes. */
  ghost predicate Stores(b: Buffer, r: Buffer, p: Packet) {
    && (b.window != [] ==> b.window[0].Full?) && r.window != [] && r.window[0].Full?
    && Adds(b.window, r.window, p) && OnlyWindow(b, r)
  }

  lemma AttachAdds(d: Depacketizer, b: Buffer, p: Packet)
    requires Shape(b) && b.window != [] && |b.window| < b.Cap() && p.seqno == Add(Newest(b), 1)
    ensures Stores(b, Attach(d, b, p), p)
  {
    var w, v := b.window, Attach(d, b, p).window;
    assert w[|w| - 1].packet.seqno == Add(w[0].packet.seqno, |w| - 1);
    AddsBeyond(w, v, p, 0);
  }

  lemma SkipAdds(d: Depacketizer, b: Buffer, p: Packet, count: nat)
    requires Shape(b) && b.window != [] && 2 <= count && |b.window| + count <= b.Cap()
    requires p.seqno == Add(Newest(b), count)
    ensures Stores(b, Skip(d, b, p, count), p)
  {
    var w, v := b.window, Skip(d, b, p, count).window;
    assert w[|w| - 1].packet.seqno == Add(w[0].packet.seqno, |w| - 1);
    AddsBeyond(w, v, p, count - 1);
  }

  lemma ExtendAdds(d: Depacketizer, b: Buffer, p: Packet, k: nat)
    requires Shape(b) && b.window != [] && 0 < k && |b.window| + k <= b.Cap()
    requires b.window[0].packet.seqno == Add(p.seqno, k)
    ensures Stores(b, Extend(d, b, p, k), p)
  {
    hide Insert;
    AddsBefore(b.window, Empties(k), Extend(d, b, p, k).window, p);
  }

  lemma FillAdds(d: Depacketizer, b: Buffer, p: Packet, i: nat)
    requires Shape(b) && i < |b.window| && b.window[i].Empty? && p.seqno == Add(b.window[0].packet.seqno, i)
    ensures Stores(b, Fill(d, b, p, i), p)
  {
    hide Insert;
    AddsInside(b.window, Fill(d, b, p, i).window, p, i);
  }

  /** The slot with number `p.seqno`, seen from the end of the window. */
  lemma FromTheEnd(b: Buffer, p: Packet)
    requires Shape(b) && b.window != []
    ensures b.window[0].Full?
    ensures var offset := Fwd(p.seqno, Newest(b)) + 1;
            && offset < 0x1_0001 && (offset < 0x1_0000 ==> Add(p.seqno, offset - 1) == Newest(b))
            && (offset <= |b.window| ==>
                  && p.seqno == Add(b.window[0].packet.seqno, |b.window| - offset)
                  && (At(b.window, p.seqno).Some? <==> b.window[|b.window| - offset].Full?))
            && (|b.window| < offset < b.Cap() ==>
                  b.window[0].packet.seqno == Add(p.seqno, offset - |b.window|) && At(b.window, p.seqno).None?)
  {
    var w := b.window;
    assert w[|w| - 1].packet.seqno == Add(w[0].packet.seqno, |w| - 1);
  }

  lemma BehindAdds(d: Depacketizer, b: Buffer, p: Packet)
    requires Shape(b) && b.window != [] && Fwd(Newest(b), p.seqno) >= 0x8000 && HasRoom(b, p)
    ensures var o := Fwd(p.seqno, Newest(b)) + 1;
            && 2 <= o < 0x1_0000 && Add(p.seqno, o - 1) == Newest(b)
            && Stores(b, Behind(d, b, p, o), p)
  {
    hide Shape, Behind, Stores, At;
    FromTheEnd(b, p);
    if Fwd(p.seqno, Newest(b)) + 1 > |b.window| {
      FarAdds(d, b, p, Fwd(p.seqno, Newest(b)) + 1);
    } else {
      NearAdds(d, b, p, Fwd(p.seqno, Newest(b)) + 1);
    }
  }

  lemma FarAdds(d: Depacketizer, b: Buffer, p: Packet, o: nat)
    requires Shape(b) && b.window != [] && |b.window| < o < b.Cap() && 2 <= o < 0x1_0000
    requires Add(p.seqno, o - 1) == Newest(b) && b.window[0].packet.seqno == Add(p.seqno, o - |b.window|)
    ensures Stores(b, Behind(d, b, p, o), p)
  {
    hide Shape, Stores, Extend, Fill, Add;
    ExtendAdds(d, b, p, o - |b.window|);
  }

  lemma NearAdds(d: Depacketizer, b: Buffer, p: Packet, o: nat)
    requires Shape(b) && 2 <= o <= |b.window| && o < b.Cap() && Add(p.seqno, o - 1) == Newest(b)
    requires o < 0x1_0000 && p.seqno == Add(b.window[0].packet.seqno, |b.window| - o) && b.window[|b.window| - o].Empty?
    ensures Stores(b, Behind(d, b, p, o), p)
  {
    hide Shape, Stores, Extend, Fill, Add;
    FillAdds(d, b, p, |b.window| - o);
  }

  lemma BehindRefuses(d: Depacketizer, b: Buffer, p: Packet)
    requires Shape(b) && b.window != [] && Fwd(Newest(b), p.seqno) >= 0x8000 && Unwanted(b, p)
    ensures var o := Fwd(p.seqno, Newest(b)) + 1;
            2 <= o < 0x1_0000 && Add(p.seqno, o - 1) == Newest(b) && Behind(d, b, p, o) == Reject(b, p)
  {
    FromTheEnd(b, p);
    hide Shape, Extend, Fill, At;
  }

  // ---------------------------------------------------------------- Push

  /** Nothing but `lastSeqno` changes for a packet that is not late. */
  lemma ScreenLate(b: Buffer, p: Packet)
    requires Shape(b)
    ensures Screen(b, p).TooLate? <==> Late(b, p)
    ensures !Late(b, p) ==>
              var a := Screen(b, p).b;
              a == b.(lastSeqno := a.lastSeqno, trail := a.trail)
  {}

  /** How far a packet moves `lastSeqno` forward: to `maxLate` before the packet, but not over the
      oldest packet, and never back. */
  function Move(b: Buffer, p: Packet): nat
    requires Shape(b) && b.lastSeqno.Some? && (b.window != [] ==> b.window[0].Full?)
  {
    var d := Fwd(b.lastSeqno.value, p.seqno);
    var step := if d > b.maxLate then d - b.maxLate else 0;
    if b.window == [] then step
    else
      var room := Sub(Fwd(b.lastSeqno.value, b.window[0].packet.seqno), 1);
      if step < room then step else room
  }

  /** What a packet that is not late does to `lastSeqno`: behind it by more than `maxLate`, it
      invalidates it; ahead of it, it moves it forward. */
  lemma PushMoves(b: Buffer, p: Packet)
    requires Inv(b) && !Late(b, p)
    ensures Screen(b, p).Admitted? && (b.window != [] ==> b.window[0].Full?)
    ensures Screen(b, p).b.lastSeqno ==
              if b.lastSeqno.None? || Fwd(p.seqno, b.lastSeqno.value) < 0x8000 then None
              else Some(Add(b.lastSeqno.value, Move(b, p)))
  {
    ScreenLate(b, p);
    ShapeBounds(b);
    hide Flagged, Tracked, Sequential;
  }

  /** A packet that is not late and for which there is room is stored under its number; every
      other number keeps its packet, and nothing is handed over. */
  lemma PushStores(d: Depacketizer, b: Buffer, p: Packet)
    requires Shape(b) && !Late(b, p) && HasRoom(b, p)
    ensures var o := Push(d, b, p);
            && o.Done? && (b.window != [] ==> b.window[0].Full?) && o.b.window != [] && o.b.window[0].Full?
            && Adds(b.window, o.b.window, p) && o.b.released == b.released && o.b.discarded == b.discarded
            && o.b.lastTimestamp == b.lastTimestamp && o.b.fed == b.fed
            && Screen(b, p).Admitted? && o.b.lastSeqno == Screen(b, p).b.lastSeqno
  {
    ScreenLate(b, p);
    var a := Screen(b, p).b;
    ShapeBounds(b);
    assert Shape(a) && HasRoom(a, p) && Push(d, b, p) == Place(d, a, p);
    PlaceStores(d, a, p);
    hide Shape, Screen, Push, Place, HasRoom, Adds;
  }

  lemma PlaceStores(d: Depacketizer, b: Buffer, p: Packet)
    requires Shape(b) && HasRoom(b, p)
    ensures var o := Place(d, b, p);
            o.Done? && Stores(b, o.b, p)
  {
    if b.window == [] {
      AddsFirst(Fresh(d, p));
    } else {
      var ahead := Fwd(Newest(b), p.seqno);
      PlaceIs(d, b, p, ahead);
      hide Shape, Place, Attach, Skip, Behind, Stores, At;
      if ahead == 1 {
        AttachAdds(d, b, p);
      } else if ahead < 0x8000 {
        SkipAdds(d, b, p, ahead);
      } else {
        BehindAdds(d, b, p);
      }
    }
  }

  /** The branch that a packet for which there is room takes. */
  lemma PlaceIs(d: Depacketizer, b: Buffer, p: Packet, ahead: nat)
    requires Shape(b) && b.window != [] && HasRoom(b, p) && ahead == Fwd(Newest(b), p.seqno)
    ensures ahead == 1 ==>
              |b.window| < b.Cap() && p.seqno == Add(Newest(b), 1) && Place(d, b, p) == Done(Attach(d, b, p))
    ensures 1 < ahead < 0x8000 ==>
              && |b.window| + ahead <= b.Cap() && p.seqno == Add(Newest(b), ahead)
              && Place(d, b, p) == Done(Skip(d, b, p, ahead))
    ensures ahead >= 0x8000 ==>
              var o := Fwd(p.seqno, Newest(b)) + 1;
              2 <= o < 0x1_0000 && Add(p.seqno, o - 1) == Newest(b) && Place(d, b, p) == Done(Behind(d, b, p, o))
    ensures ahead != 0
  {
    hide Sequential, Ends, Attach, Skip, Behind, At;
    if 1 < ahead < 0x8000 { assert MakeRoom(b, ahead) == b; }
  }

  /** An unwanted packet goes to the release handler, and the window stays as it is. */
  lemma PushRefuses(d: Depacketizer, b: Buffer, p: Packet)
    requires Shape(b) && !Late(b, p) && Unwanted(b, p)
    ensures var o := Push(d, b, p);
            && o.Done? && o.b.window == b.window && o.b.tail == b.tail
            && o.b.released == b.released + [p] && o.b.discarded == b.discarded
  {
    ScreenLate(b, p);
    var a := Screen(b, p).b;
    assert Shape(a) && Unwanted(a, p);
    if Fwd(Newest(a), p.seqno) >= 0x8000 { BehindRefuses(d, a, p); }
    hide Shape, Screen, Behind, Unwanted, At;
  }

  // ---------------------------------------------------------------- making room

  /** A drop may stop at slot `j`. */
  predicate Boundary(w: seq<Slot>, j: nat)
    requires 0 < j <= |w| && w[0].Full?
  {
    j == |w| ||
    (w[j].Full? && (w[j].start || w[PrevFull(w, j)].packet.timestamp != w[j].packet.timestamp))
  }

  /** ... and leaves room for `ahead` more slots, or nothing. */
  predicate RoomAt(w: seq<Slot>, cap: nat, ahead: nat, j: nat)
    requires 0 < j <= |w| && w[0].Full?
  {
    Boundary(w, j) && (j == |w| || |w| - j + ahead <= cap)
  }

  predicate FirstRoom(w: seq<Slot>, cap: nat, ahead: nat, j: nat)
    requires w != [] && w[0].Full?
  {
    0 < j <= |w| && RoomAt(w, cap, ahead, j) && forall h | 0 < h < j :: !RoomAt(w, cap, ahead, h)
  }

  lemma BoundaryShift(w: seq<Slot>, k: nat, i: nat)
    requires 0 < k && 0 < i && k + i <= |w| && w[0].Full? && w[k].Full?
    ensures Boundary(w[k..], i) <==> Boundary(w, k + i)
  {
    var v := w[k..];
    if k + i < |w| {
      PrevFullShift(w, k, i);
      assert v[i] == w[k + i] && v[PrevFull(v, i)] == w[PrevFull(w, k + i)];
    }
  }

  /** Within a stretch there is no boundary, and it ends at one. */
  lemma StretchBoundary(w: seq<Slot>, k: nat, h: nat)
    requires w != [] && w[0].Full? && 0 < h <= k && Stretch(w, 1, k, w[0].packet.timestamp)
    ensures Boundary(w, h) <==> h == k
  {
    var g := PrevFull(w, h);
    assert w[g].packet.timestamp == w[0].packet.timestamp;
  }

  lemma RoomAfterDrop(b: Buffer, c: Buffer, ahead: nat, k: nat, i: nat)
    requires Dropped(b, c, k) && |b.window| - k + ahead > b.Cap() && c.window != [] && c.window[0].Full?
    requires FirstRoom(c.window, b.Cap(), ahead, i)
    ensures FirstRoom(b.window, b.Cap(), ahead, k + i)
  {
    ShedParts(b, c, k);
    var w, cap := b.window, b.Cap();
    assert w[k] == c.window[0];
    hide Shape, ShedTo, LeftAt, Boundary, Stamped;
    BoundaryShift(w, k, i);
    forall h | 0 < h < k + i ensures !RoomAt(w, cap, ahead, h) {
      if h <= k {
        StretchBoundary(w, k, h);
      } else {
        BoundaryShift(w, k, h - k);
        assert !RoomAt(c.window, cap, ahead, h - k);
      }
    }
  }

  lemma RoomAtOnce(b: Buffer, c: Buffer, ahead: nat, k: nat)
    requires Dropped(b, c, k) && (|b.window| - k + ahead <= b.Cap() || k == |b.window|)
    ensures FirstRoom(b.window, b.Cap(), ahead, k)
  {
    var w, cap := b.window, b.Cap();
    hide Shape, ShedTo, LeftAt, Boundary, Stamped;
    forall h | 0 < h <= k ensures Boundary(w, h) <==> h == k { StretchBoundary(w, k, h); }
  }

  /** Frames are dropped up to the first place at which there is room. */
  lemma {:induction false} MakeRoomStops(b: Buffer, ahead: nat) returns (j: nat)
    requires Shape(b) && ahead <= b.Cap() && |b.window| + ahead > b.Cap()
    ensures b.window != [] && b.window[0].Full? && FirstRoom(b.window, b.Cap(), ahead, j)
    ensures ShedTo(b, MakeRoom(b, ahead), j) && MakeRoom(b, ahead).discarded == b.discarded
    decreases |b.window|
  {
    hide Shape, Drop, Dropped, ShedTo, FirstRoom;
    ShapeBounds(b);
    var k := DropDrops(b);
    var c := Drop(b);
    DroppedParts(b, c, k);
    DropDiscards(b);
    ShapeBounds(c);
    if |c.window| + ahead > c.Cap() {
      var i := MakeRoomStops(c, ahead);
      RoomAfterDrop(b, c, ahead, k, i);
      ShedChain(b, c, MakeRoom(c, ahead), k, i);
      j := k + i;
    } else {
      RoomAtOnce(b, c, ahead, k);
      j := k;
    }
  }

  lemma DroppedParts(b: Buffer, c: Buffer, k: nat)
    requires Dropped(b, c, k)
    ensures ShedTo(b, c, k) && Shape(c) && 0 < k <= |b.window| && c.window == b.window[k..]
    ensures c.maxLate == b.maxLate && |c.window| == |b.window| - k
  {}

  lemma {:induction false} DropRestDiscards(b: Buffer, ts: u32)
    requires Shape(b)
    ensures DropRest(b, ts).discarded == b.discarded
    decreases |b.window|
  {
    if b.window != [] && !b.window[0].start && b.window[0].packet.timestamp == ts {
      DropRestDiscards(Release(b), ts);
    }
  }

  lemma DropDiscards(b: Buffer)
    requires Shape(b) && b.window != []
    ensures Drop(b).discarded == b.discarded
  {
    DropRestDiscards(Release(b), b.window[0].packet.timestamp);
  }

  lemma {:induction false} ReleaseAllSheds(b: Buffer)
    requires Shape(b)
    ensures ShedTo(b, ReleaseAll(b), |b.window|) && ReleaseAll(b).discarded == b.discarded
    decreases |b.window|
  {
    hide Shape, ShedTo;
    if b.window == [] {
      ShedNone(b);
    } else {
      var r, k := Release(b), NextFull(b.window, 1);
      ReleaseSheds(b);
      ShedParts(b, r, k);
      assert r.discarded == b.discarded;
      ReleaseAllSheds(r);
      hide Release;
      ShedChain(b, r, ReleaseAll(r), k, |r.window|);
    }
  }

  /** A packet beyond the newest one for which there is no room: whatever lies before the first
      place at which there is room, or everything, is handed over in order; the packet is then
      stored under its number, and every other number from that place on keeps its packet.  The
      one exception is the next packet of the oldest timestamp of a full builder. */
  lemma PushMakesRoom(d: Depacketizer, b: Buffer, p: Packet) returns (j: nat)
    requires Shape(b) && !Late(b, p) && b.window != [] && 0 < Fwd(Newest(b), p.seqno) < 0x8000
    requires |b.window| + Fwd(Newest(b), p.seqno) > b.Cap()
    requires Fwd(Newest(b), p.seqno) == 1 ==> p.timestamp != b.window[0].packet.timestamp
    ensures Replaced(b, p, Fwd(Newest(b), p.seqno), Push(d, b, p), j)
  {
    hide Shape, Replaced;
    ScreenLate(b, p);
    ShapeBounds(b);
    var a, ahead := Screen(b, p).b, Fwd(Newest(b), p.seqno);
    assert Push(d, b, p) == Place(d, a, p);
    hide Screen, Push, Place;
    if ahead == 1 {
      j := NextMakesRoom(d, a, p);
    } else if ahead <= a.Cap() {
      j := LeapMakesRoom(d, a, p, ahead);
    } else {
      j := AllMakeRoom(d, a, p);
    }
    ReplacedSame(a, b, p, ahead, Place(d, a, p), j);
  }

  lemma ReplacedSame(a: Buffer, b: Buffer, p: Packet, ahead: nat, o: Outcome, j: nat)
    requires a == b.(lastSeqno := a.lastSeqno, trail := a.trail) && Replaced(a, p, ahead, o, j)
    ensures Replaced(b, p, ahead, o, j)
  {
    hide FirstRoom, Adds, Packets;
  }

  /** What is said about each of the three ways. */
  ghost predicate Replaced(b: Buffer, p: Packet, ahead: nat, o: Outcome, j: nat) {
    && b.window != [] && b.window[0].Full? && FirstRoom(b.window, b.Cap(), ahead, j)
    && o.Done? && o.b.window != [] && o.b.window[0].Full? && (j < |b.window| ==> b.window[j].Full?)
    && Adds(b.window[j..], o.b.window, p)
    && o.b.released == b.released + Packets(b.window[..j]) && o.b.discarded == b.discarded
  }

  lemma ReplacedBy(b: Buffer, m: Buffer, p: Packet, ahead: nat, r: Buffer, j: nat)
    requires Shape(b) && b.window != [] && b.window[0].Full? && FirstRoom(b.window, b.Cap(), ahead, j)
    requires ShedTo(b, m, j) && m.discarded == b.discarded && (m.window != [] ==> m.window[0].Full?)
    requires r.window != [] && r.window[0].Full? && Adds(m.window, r.window, p)
    requires r.released == m.released && r.discarded == m.discarded
    ensures Replaced(b, p, ahead, Done(r), j)
  {
    ShedParts(b, m, j);
    hide Shape, FirstRoom, Packets;
    if j < |b.window| { assert m.window[0] == b.window[j]; }
  }

  lemma NextMakesRoom(d: Depacketizer, b: Buffer, p: Packet) returns (j: nat)
    requires Shape(b) && b.window != [] && Fwd(Newest(b), p.seqno) == 1 && |b.window| + 1 > b.Cap()
    requires b.window[0].Full? ==> p.timestamp != b.window[0].packet.timestamp
    ensures Replaced(b, p, 1, Place(d, b, p), j)
  {
    ShapeBounds(b);
    var c := Drop(b);
    assert Place(d, b, p) == Done(Attach(d, c, p));
    j := DropDrops(b);
    DroppedParts(b, c, j);
    RoomAtOnce(b, c, 1, j);
    DropDiscards(b);
    ShapeBounds(c);
    if c.window == [] {
      AddsFirst(Fresh(d, p));
    } else {
      AttachAdds(d, c, p);
    }
    hide Shape, Place, Drop, ShedTo, FirstRoom, Adds, Dropped;
    ReplacedBy(b, c, p, 1, Attach(d, c, p), j);
  }

  lemma LeapMakesRoom(d: Depacketizer, b: Buffer, p: Packet, ahead: nat) returns (j: nat)
    requires Shape(b) && b.window != [] && ahead == Fwd(Newest(b), p.seqno) && 2 <= ahead <= b.Cap() && ahead < 0x8000
    requires |b.window| + ahead > b.Cap()
    ensures Replaced(b, p, ahead, Place(d, b, p), j)
  {
    ShapeBounds(b);
    var m := MakeRoom(b, ahead);
    assert Place(d, b, p) == Done(Leap(d, b, p, ahead));
    j := MakeRoomStops(b, ahead);
    ShapeBounds(m);
    if m.window == [] {
      AddsFirst(Fresh(d, p));
    } else {
      SkipAdds(d, m, p, ahead);
    }
    hide Shape, Place, MakeRoom, ShedTo, FirstRoom, Adds, Skip;
    ReplacedBy(b, m, p, ahead, Leap(d, b, p, ahead), j);
  }

  lemma AllMakeRoom(d: Depacketizer, b: Buffer, p: Packet) returns (j: nat)
    requires Shape(b) && b.window != [] && b.Cap() < Fwd(Newest(b), p.seqno) < 0x8000
    ensures Replaced(b, p, Fwd(Newest(b), p.seqno), Place(d, b, p), j)
  {
    ShapeBounds(b);
    var m := ReleaseAll(b);
    j := |b.window|;
    ReleaseAllSheds(b);
    assert Place(d, b, p) == Push(d, m, p);
    assert !Late(m, p);
    ScreenLate(m, p);
    AddsFirst(Fresh(d, p));
    var r := Push(d, m, p).b;
    assert r.window == [Fresh(d, p)] && r.released == m.released && r.discarded == m.discarded;
    assert FirstRoom(b.window, b.Cap(), Fwd(Newest(b), p.seqno), j);
    hide Shape, Place, Push, ReleaseAll, ShedTo, FirstRoom, Adds;
    ReplacedBy(b, m, p, Fwd(Newest(b), p.seqno), r, j);
  }

  /** The exception: what belongs to the oldest frame is handed over; the packet follows it if
      nothing else is left, and otherwise `Push` panics. */
  lemma PushSqueezes(d: Depacketizer, b: Buffer, p: Packet) returns (j: nat)
    requires Shape(b) && !Late(b, p) && |b.window| == b.Cap()
    requires Fwd(Newest(b), p.seqno) == 1 && p.timestamp == b.window[0].packet.timestamp
    ensures b.window[0].Full? && 0 < j <= |b.window| && Stretch(b.window, 1, j, p.timestamp)
    ensures var o := Push(d, b, p);
            && (o.Panic? <==> j < |b.window|) && o.b.window == b.window[j..] && o.b.discarded == b.discarded
            && o.b.released == b.released + Packets(b.window[..j]) + if o.Done? then [p] else []
  {
    ScreenLate(b, p);
    ShapeBounds(b);
    var a := Screen(b, p).b;
    assert Shape(a) && Push(d, b, p) == Append(d, a, p);
    j := DropDrops(a);
    DroppedParts(a, Drop(a), j);
    DropDiscards(a);
    assert Drop(a).released == a.released + Packets(a.window[..j]);
    hide Shape, Screen, Push, Drop, Packets;
    if j == |b.window| { assert b.window[j..] == []; }
  }

  // ---------------------------------------------------------------- what is late

  /** A packet is discarded if and only if it lies at or behind the last one that left by at most
      `maxLate`; nothing else happens then. */
  lemma PushDiscardsIff(d: Depacketizer, b: Buffer, p: Packet)
    requires Shape(b)
    ensures var r := Push(d, b, p).b;
            if b.lastSeqno.Some? && Fwd(p.seqno, b.lastSeqno.value) <= b.maxLate
            then Push(d, b, p) == Done(b.(discarded := b.discarded + [p]))
            else r.discarded == b.discarded
  {
    ScreenLate(b, p);
    if !Late(b, p) { PlaceDiscards(d, Screen(b, p).b, p); }
    hide Screen, Place;
  }

  lemma PlaceDiscards(d: Depacketizer, b: Buffer, p: Packet)
    requires Shape(b)
    ensures Place(d, b, p).b.discarded == b.discarded
  {
    if b.window != [] {
      var ahead := Fwd(Newest(b), p.seqno);
      hide Place, Shape;
      if ahead == 1 {
        NextDiscards(d, b, p);
      } else if ahead < 0x8000 {
        AheadDiscards(d, b, p, ahead);
      } else {
        BehindDiscards(d, b, p);
      }
    }
  }

  lemma NextDiscards(d: Depacketizer, b: Buffer, p: Packet)
    requires Shape(b) && b.window != [] && Fwd(Newest(b), p.seqno) == 1
    ensures Place(d, b, p).b.discarded == b.discarded
  {
    hide Drop;
    DropDiscards(b);
  }

  lemma BehindDiscards(d: Depacketizer, b: Buffer, p: Packet)
    requires Shape(b) && b.window != [] && Fwd(Newest(b), p.seqno) >= 0x8000
    ensures Place(d, b, p).b.discarded == b.discarded
  {
    hide Insert;
  }

  lemma AheadDiscards(d: Depacketizer, b: Buffer, p: Packet, ahead: nat)
    requires Shape(b) && b.window != [] && ahead == Fwd(Newest(b), p.seqno) && ahead != 1 && ahead < 0x8000
    ensures Place(d, b, p).b.discarded == b.discarded
  {
    if ahead > b.Cap() {
      hide Shape, Place;
      var j := AllMakeRoom(d, b, p);
    } else if |b.window| + ahead > b.Cap() && ahead > 1 {
      hide Shape, Place;
      var j := LeapMakesRoom(d, b, p, ahead);
    } else if ahead > 1 {
      assert MakeRoom(b, ahead) == b;
    }
  }
}
