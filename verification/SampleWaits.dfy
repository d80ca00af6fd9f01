/** When `Pop`, not forced, delivers a frame, gives one up, or waits. */
module SampleWaits {
  import opened Outcomes
  import opened Octets
  import opened Serial
  import opened SampleBuffer
  import opened SampleBufferInvariant
  import opened SampleFrames

  /** The last full slot before slot `j`. */
  function PrevFull(w: seq<Slot>, j: nat): (h: nat)
    requires 0 < j <= |w| && w[0].Full?
    ensures h < j && w[h].Full? && forall i | h < i < j :: w[i].Empty?
  {
    if w[j - 1].Full? then j - 1 else PrevFull(w, j - 1)
  }

  /** Dropping stops at slot `j`: there the window ends, a frame begins, or another timestamp
      begins and the rest of the window is not longer than `maxLate`. */
  predicate Halts(w: seq<Slot>, maxLate: nat, j: nat)
    requires j <= |w| && (w != [] ==> w[0].Full?)
  {
    j == |w| ||
    (w[j].Full? &&
     (w[j].start ||
      ((j == 0 || w[PrevFull(w, j)].packet.timestamp != w[j].packet.timestamp) && |w| - 1 - j <= maxLate)))
  }

  /** ... and at no slot before it. */
  predicate FirstHalt(w: seq<Slot>, maxLate: nat, j: nat)
    requires w != [] ==> w[0].Full?
  {
    j <= |w| && Halts(w, maxLate, j) && forall h | 0 <= h < j :: !Halts(w, maxLate, h)
  }

  /** No packet is missing between the last one that left and slot `j`. */
  predicate Adjacent(b: Buffer, j: nat)
    requires Shape(b) && j < |b.window|
  {
    if j == 0 then b.lastSeqno.None? || Add(b.lastSeqno.value, 1) == b.window[0].packet.seqno
    else b.window[j - 1].Full?
  }

  // ---------------------------------------------------------------- the last full slot

  lemma {:induction false} PrevFullShift(w: seq<Slot>, k: nat, i: nat)
    requires 0 < i && k + i <= |w| && w[0].Full? && w[k].Full?
    ensures PrevFull(w, k + i) == k + PrevFull(w[k..], i)
    decreases i
  {
    if w[k + i - 1].Empty? { PrevFullShift(w, k, i - 1); }
  }

  lemma {:induction false} PrevFullFirst(w: seq<Slot>, k: nat)
    requires 0 < k <= |w| && w[0].Full? && forall i | 0 < i < k :: w[i].Empty?
    ensures PrevFull(w, k) == 0
  {
    if k > 1 { PrevFullFirst(w, k - 1); }
  }

  // ---------------------------------------------------------------- drops, exactly

  /** The slots a drop goes over, and where it stops. */
  predicate Stretch(w: seq<Slot>, from: nat, j: nat, ts: u32) {
    && j <= |w| && (forall h | from <= h < j && w[h].Full? :: !w[h].start && w[h].packet.timestamp == ts)
    && (j < |w| ==> w[j].Full? && (w[j].start || w[j].packet.timestamp != ts))
  }

  lemma StretchChain(w: seq<Slot>, from: nat, k: nat, i: nat, ts: u32)
    requires from <= k <= |w| && Stretch(w[k..], 0, i, ts)
    requires forall h | from <= h < k && w[h].Full? :: !w[h].start && w[h].packet.timestamp == ts
    ensures Stretch(w, from, k + i, ts)
  {
    var v := w[k..];
    forall h | from <= h < k + i && w[h].Full? ensures !w[h].start && w[h].packet.timestamp == ts {
      if h >= k { assert w[h] == v[h - k]; }
    }
  }

  /** The number of the last packet that has left, after a prefix was shed. */
  predicate LeftAt(b: Buffer, r: Buffer, j: nat)
    requires Shape(b) && b.window != [] && 0 < j <= |b.window|
  {
    r.lastSeqno == Some(b.window[PrevFull(b.window, j)].packet.seqno)
  }

  lemma ReleaseLeft(b: Buffer)
    requires Shape(b) && b.window != []
    ensures var k := NextFull(b.window, 1);
            && LeftAt(b, Release(b), k) && (forall h | 0 < h < k :: b.window[h].Empty?)
            && (k < |b.window| ==> b.window[k].Full?)
  {
    PrevFullFirst(b.window, NextFull(b.window, 1));
  }

  lemma LeftShift(b: Buffer, r: Buffer, t: Buffer, k: nat, i: nat)
    requires ShedTo(b, r, k) && 0 < k && 0 < i <= |r.window| && LeftAt(r, t, i)
    ensures k + i <= |b.window| && LeftAt(b, t, k + i)
  {
    assert r.window[0] == b.window[k] && b.window[0].Full?;
    PrevFullShift(b.window, k, i);
    hide Shape;
  }

  lemma {:induction false} DropRestStops(b: Buffer, ts: u32) returns (j: nat)
    requires Shape(b)
    ensures ShedTo(b, DropRest(b, ts), j) && Stretch(b.window, 0, j, ts)
    ensures if j == 0 then DropRest(b, ts) == b else LeftAt(b, DropRest(b, ts), j)
    decreases |b.window|
  {
    hide Release, Shape, ShedTo, LeftAt;
    j := 0;
    ShedNone(b);
    ShapeBounds(b);
    if b.window != [] && !b.window[0].start && b.window[0].packet.timestamp == ts {
      var r, k := Release(b), NextFull(b.window, 1);
      ReleaseSheds(b);
      ReleaseLeft(b);
      var i := DropRestStops(r, ts);
      ShedParts(b, r, k);
      ShedChain(b, r, DropRest(r, ts), k, i);
      StretchChain(b.window, 0, k, i, ts);
      if i > 0 { LeftShift(b, r, DropRest(r, ts), k, i); }
      j := k + i;
    }
  }

  /** A drop goes to the next packet that begins a frame or has another timestamp. */
  lemma DropStops(b: Buffer) returns (j: nat)
    requires Shape(b) && b.window != []
    ensures 0 < j && ShedTo(b, Drop(b), j) && LeftAt(b, Drop(b), j)
    ensures b.window[0].Full? && Stretch(b.window, 1, j, b.window[0].packet.timestamp)
  {
    hide Release, Shape, ShedTo, LeftAt, DropRest;
    ShapeBounds(b);
    var ts := b.window[0].packet.timestamp;
    var r, k := Release(b), NextFull(b.window, 1);
    ReleaseSheds(b);
    ReleaseLeft(b);
    var i := DropRestStops(r, ts);
    j := k + i;
    ShedParts(b, r, k);
    ShedChain(b, r, DropRest(r, ts), k, i);
    StretchChain(b.window, 1, k, i, ts);
    if i > 0 { LeftShift(b, r, DropRest(r, ts), k, i); }
    ShedStamp(b, DropRest(r, ts), Drop(b), j);
    assert Drop(b).lastSeqno == DropRest(r, ts).lastSeqno;
    SameLast(b, DropRest(r, ts), Drop(b), j);
  }

  lemma SameLast(b: Buffer, r: Buffer, s: Buffer, j: nat)
    requires Shape(b) && b.window != [] && 0 < j <= |b.window| && LeftAt(b, r, j) && s.lastSeqno == r.lastSeqno
    ensures LeftAt(b, s, j)
  {}

  // ---------------------------------------------------------------- where dropping ends

  lemma HaltShift(w: seq<Slot>, maxLate: nat, k: nat, i: nat)
    requires 0 < k && k + i <= |w| && w[0].Full? && (k < |w| ==> w[k].Full?)
    requires Stretch(w, 1, k, w[0].packet.timestamp)
    ensures Halts(w[k..], maxLate, i) <==> Halts(w, maxLate, k + i)
  {
    var v := w[k..];
    if k + i < |w| {
      assert v[i] == w[k + i];
      if i > 0 {
        PrevFullShift(w, k, i);
        assert v[PrevFull(v, i)] == w[PrevFull(w, k + i)];
      } else {
        var h := PrevFull(w, k);
        assert w[h].packet.timestamp == w[0].packet.timestamp;
      }
    }
  }

  lemma NoHaltWithin(w: seq<Slot>, maxLate: nat, k: nat, h: nat)
    requires 0 < k <= |w| && h < k && w[0].Full? && Stretch(w, 1, k, w[0].packet.timestamp)
    requires !w[0].start && |w| - 1 > maxLate
    ensures !Halts(w, maxLate, h)
  {
    if h > 0 && w[h].Full? {
      var g := PrevFull(w, h);
      assert w[g].packet.timestamp == w[0].packet.timestamp;
    }
  }

  lemma FirstHaltShift(w: seq<Slot>, maxLate: nat, k: nat, i: nat)
    requires 0 < k <= |w| && w[0].Full? && (k < |w| ==> w[k].Full?) && Stretch(w, 1, k, w[0].packet.timestamp)
    requires !w[0].start && |w| - 1 > maxLate && FirstHalt(w[k..], maxLate, i)
    ensures FirstHalt(w, maxLate, k + i)
  {
    HaltShift(w, maxLate, k, i);
    forall h | 0 <= h < k + i ensures !Halts(w, maxLate, h) {
      if h < k {
        NoHaltWithin(w, maxLate, k, h);
      } else {
        HaltShift(w, maxLate, k, h - k);
        assert !Halts(w[k..], maxLate, h - k);
      }
    }
  }

  lemma AdjacentShift(b: Buffer, c: Buffer, k: nat, i: nat)
    requires ShedTo(b, c, k) && 0 < k && b.window != [] && LeftAt(b, c, k) && i < |c.window|
    ensures k + i < |b.window| && (Adjacent(c, i) <==> Adjacent(b, k + i))
  {
    if i == 0 {
      var w, h := b.window, PrevFull(b.window, k);
      assert c.window[0] == w[k] && w[k].Full?;
      assert w[k].packet.seqno == Add(w[0].packet.seqno, k) && w[h].packet.seqno == Add(w[0].packet.seqno, h);
      assert w[k - 1].Full? <==> h == k - 1;
    } else {
      assert c.window[i - 1] == b.window[k + i - 1];
    }
  }

  // ---------------------------------------------------------------- Pop

  /** The depacketizer is reached exactly with a complete frame and nothing missing before it. */
  predicate Reaches(b: Buffer, popped: Popped, j: nat)
    requires Shape(b)
  {
    popped != Nothing <==> Complete(b.window, j) && Adjacent(b, j)
  }

  /** Otherwise only what lies before slot `j` has left. */
  predicate Leaves(b: Buffer, r: Buffer, popped: Popped, j: nat) {
    popped == Nothing ==> ShedTo(b, r, j) && (j == 0 ==> r == b)
  }

  /** The sample is the frame that begins at slot `j`. */
  predicate Yielded(d: Depacketizer, b: Buffer, r: Buffer, popped: Popped, j: nat) {
    Inv(b) && popped.Got? ==>
      j <= |b.window| && SampleFrom(d, b, r, popped.sample, j, FrameEnd(b.window, j) + 1 - j)
  }

  /** What a `Pop` that is not forced comes to, with dropping ended at slot `j`. */
  predicate Waited(d: Depacketizer, b: Buffer, r: Buffer, popped: Popped, j: nat)
    requires Shape(b)
  {
    && (b.window != [] ==> b.window[0].Full?) && FirstHalt(b.window, b.maxLate, j)
    && Reaches(b, popped, j) && Leaves(b, r, popped, j) && Yielded(d, b, r, popped, j)
  }

  lemma StaysPut(d: Depacketizer, b: Buffer)
    requires Shape(b) && (b.window == [] || !Drops(b, false))
    ensures Waited(d, b, Pop(d, b, false).0, Pop(d, b, false).1, 0)
  {
    hide Emit, SampleFrom, ShedTo;
    ShedNone(b);
    if b.window != [] && Emits(b, false) {
      if Inv(b) && Pop(d, b, false).1.Got? { EmitFrame(d, b); }
    }
  }

  /** `c` is `b` after a drop that went over the first `k` slots. */
  predicate Dropped(b: Buffer, c: Buffer, k: nat) {
    && Shape(b) && Shape(c) && b.window != [] && b.window[0].Full? && 0 < k <= |b.window|
    && ShedTo(b, c, k) && LeftAt(b, c, k) && Stamped(b, c) && (Inv(b) ==> Inv(c))
    && Stretch(b.window, 1, k, b.window[0].packet.timestamp)
  }

  lemma ReachesShift(b: Buffer, c: Buffer, popped: Popped, k: nat, i: nat)
    requires Dropped(b, c, k) && i <= |c.window| && Reaches(c, popped, i)
    ensures Reaches(b, popped, k + i)
  {
    hide Shape, ShedTo, LeftAt, Stretch, Inv, Adjacent, Stamped;
    ShedParts(b, c, k);
    if i < |c.window| {
      AdjacentShift(b, c, k, i);
      FrameEndShift(b.window, k, i);
    }
  }

  lemma LeavesShift(b: Buffer, c: Buffer, r: Buffer, popped: Popped, k: nat, i: nat)
    requires Dropped(b, c, k) && Leaves(c, r, popped, i)
    ensures Leaves(b, r, popped, k + i)
  {
    hide Shape, ShedTo, LeftAt, Stretch, Inv;
    if popped == Nothing { ShedChain(b, c, r, k, i); }
  }

  lemma YieldedShift(d: Depacketizer, b: Buffer, c: Buffer, r: Buffer, popped: Popped, k: nat, i: nat)
    requires Dropped(b, c, k) && i <= |c.window| && Yielded(d, c, r, popped, i)
    ensures Yielded(d, b, r, popped, k + i)
  {
    hide Shape, ShedTo, LeftAt, Stretch, Inv, SampleFrom, Stamped, FrameEnd;
    ShedParts(b, c, k);
    if Inv(b) && popped.Got? {
      var len := FrameEnd(c.window, i) + 1 - i;
      FrameEndShift(b.window, k, i);
      assert i + k == k + i && len == FrameEnd(b.window, k + i) + 1 - (k + i);
      SampleShift(d, b, c, r, popped.sample, k, i, len);
    }
  }

  lemma HaltAfterDrop(b: Buffer, c: Buffer, k: nat, i: nat)
    requires Dropped(b, c, k) && !b.window[0].start && |b.window| - 1 > b.maxLate
    requires (c.window != [] ==> c.window[0].Full?) && FirstHalt(c.window, c.maxLate, i)
    ensures FirstHalt(b.window, b.maxLate, k + i)
  {
    assert c.maxLate == b.maxLate by { hide Shape, LeftAt, Stretch, Inv, Halts, Stamped; }
    hide Shape, ShedTo, LeftAt, Stretch, Inv, Halts, Stamped;
    ShedParts(b, c, k);
    FirstHaltShift(b.window, b.maxLate, k, i);
  }

  lemma DropsFirst(d: Depacketizer, b: Buffer, c: Buffer, r: Buffer, popped: Popped, k: nat, i: nat)
    requires Dropped(b, c, k) && !b.window[0].start && |b.window| - 1 > b.maxLate
    requires Shape(c) && Waited(d, c, r, popped, i)
    ensures Shape(b) && Waited(d, b, r, popped, k + i)
  {
    hide Reaches, Leaves, Yielded, Halts;
    HaltAfterDrop(b, c, k, i);
    ReachesShift(b, c, popped, k, i);
    LeavesShift(b, c, r, popped, k, i);
    YieldedShift(d, b, c, r, popped, k, i);
    hide Shape, ShedTo, LeftAt, Stretch, Inv, Stamped;
  }

  lemma DropDrops(b: Buffer) returns (k: nat)
    requires Shape(b) && b.window != []
    ensures Dropped(b, Drop(b), k)
  {
    hide Shape, Drop, ShedTo, LeftAt, Stretch, Inv;
    ShapeBounds(b);
    k := DropStops(b);
    ShedParts(b, Drop(b), k);
    DropStamps(b);
    if Inv(b) { DropKeeps(b); }
  }

  lemma PopAfterDrop(d: Depacketizer, b: Buffer)
    requires Shape(b) && b.window != [] && Drops(b, false)
    ensures b.window[0].Full? && !b.window[0].start && |b.window| - 1 > b.maxLate
    ensures Pop(d, b, false) == Pop(d, Drop(b), false)
  {}

  /** `Pop`, not forced.  First, stretches that do not begin a frame are given up for as long as
      the window is longer than `maxLate`; they end at slot `j`.  Then the depacketizer is reached
      if and only if a complete frame begins there and no packet is missing before it, and the
      sample is that frame.  Otherwise nothing else happens, and nothing at all if nothing was
      given up. */
  lemma {:induction false} PopWaits(d: Depacketizer, b: Buffer) returns (j: nat)
    requires Shape(b)
    ensures Waited(d, b, Pop(d, b, false).0, Pop(d, b, false).1, j)
    decreases |b.window|
  {
    hide Waited, Drop, Pop, Shape, Dropped;
    if b.window == [] || !Drops(b, false) {
      j := 0;
      StaysPut(d, b);
    } else {
      PopAfterDrop(d, b);
      var k := DropDrops(b);
      var i := PopWaits(d, Drop(b));
      DropsFirst(d, b, Drop(b), Pop(d, b, false).0, Pop(d, b, false).1, k, i);
      j := k + i;
    }
  }

  // ---------------------------------------------------------------- ForcePop

  /** The sample is the first complete frame of the window. */
  predicate FirstWhole(d: Depacketizer, b: Buffer, r: Buffer, s: Sample, i: nat) {
    && Complete(b.window, i) && (forall h | 0 <= h < i :: !Complete(b.window, h))
    && SampleFrom(d, b, r, s, i, FrameEnd(b.window, i) + 1 - i)
  }

  /** A sample of `ForcePop` is the first complete frame of the window. */
  lemma {:induction false} ForcePopFirst(d: Depacketizer, b: Buffer) returns (i: nat)
    requires Inv(b) && Pop(d, b, true).1.Got?
    ensures FirstWhole(d, b, Pop(d, b, true).0, Pop(d, b, true).1.sample, i)
    decreases |b.window|
  {
    hide Emit, Drop, Pop, Shape, Flagged, LastBeforeTail, Tracked, FirstWhole;
    ForceSplit(d, b);
    if Drops(b, true) {
      var j := DropSheds(b);
      DropKeeps(b);
      var k := ForcePopFirst(d, Drop(b));
      FirstWholeShift(d, b, Drop(b), Pop(d, b, true).0, Pop(d, b, true).1.sample, j, k);
      i := j + k;
    } else {
      i := 0;
    }
  }

  lemma ForceSplit(d: Depacketizer, b: Buffer)
    requires Inv(b) && Pop(d, b, true).1.Got?
    ensures b.window != [] && b.window[0].Full? && Stamped(b, Drop(b))
    ensures Drops(b, true) ==> !Complete(b.window, 0) && Pop(d, b, true) == Pop(d, Drop(b), true)
    ensures !Drops(b, true) ==> FirstWhole(d, b, Pop(d, b, true).0, Pop(d, b, true).1.sample, 0)
  {
    hide Emit, Drop, SampleFrom;
    DropStamps(b);
    if !Drops(b, true) { EmitFrame(d, b); }
  }

  lemma FirstWholeShift(d: Depacketizer, b: Buffer, c: Buffer, r: Buffer, s: Sample, j: nat, k: nat)
    requires ShedTo(b, c, j) && 0 < j <= |b.window| && NoStart(b.window, 1, j) && b.window[0].Full? && Stamped(b, c)
    requires !Complete(b.window, 0) && FirstWhole(d, c, r, s, k)
    ensures FirstWhole(d, b, r, s, j + k)
  {
    hide ShedTo, SampleFrom, Shape, Stamped, Complete, NoStart, FrameEnd;
    ShedParts(b, c, j);
    FirstComplete(b.window, j, k);
    SampleShift(d, b, c, r, s, j, k, FrameEnd(c.window, k) + 1 - k);
  }

  lemma FirstComplete(w: seq<Slot>, j: nat, k: nat)
    requires 0 < j <= |w| && NoStart(w, 1, j) && !Complete(w, 0)
    requires Complete(w[j..], k) && forall h | 0 <= h < k :: !Complete(w[j..], h)
    ensures Complete(w, j + k) && forall h | 0 <= h < j + k :: !Complete(w, h)
    ensures FrameEnd(w, j + k) == j + FrameEnd(w[j..], k)
  {
    forall h: nat | h < |w| - j ensures Complete(w[j..], h) == Complete(w, h + j) { FrameEndShift(w, j, h); }
    FrameEndShift(w, j, k);
    forall h | 0 <= h < j + k ensures !Complete(w, h) {
      if h >= j { assert !Complete(w[j..], h - j); }
    }
  }

  /** When the depacketizer fails, it fails at one packet: those before it were decoded, and they
      and the packet itself have left. */
  lemma {:induction false} TakeStops(d: Depacketizer, b: Buffer, n: nat, data: Bytes) returns (m: nat)
    requires Shape(b) && FullUpTo(b.window, n) && Take(d, b, n, data).1.None?
    ensures m < n && Decoded(d, b.fed, b.window[..m]).Some? && Decoded(d, b.fed, b.window[..m + 1]).None?
    ensures TookFrom(b, Take(d, b, n, data).0, m + 1)
    decreases n
  {
    hide Shape, Feed, TookFrom;
    var f := Feed(b);
    FeedKeepsFull(b, n);
    FeedRecords(b);
    assert b.window[..1][1..] == [] && b.window[..0] == [];
    if d.unmarshal(f.fed).None? {
      m := 0;
      TakeOne(b, f);
    } else {
      var t := data + d.unmarshal(f.fed).value;
      var k := TakeStops(d, f, n - 1, t);
      m := k + 1;
      assert b.window[1].Full? && f.window == b.window[1..];
      TakeStep(b, f, Take(d, f, n - 1, t).0, m + 1);
      assert b.window[..m][1..] == f.window[..k] && b.window[..m + 1][1..] == f.window[..k + 1];
    }
  }
}
