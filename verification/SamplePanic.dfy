/** When the panic "this is impossible" of `Push` happens. */
module SamplePanic {
  import opened Octets
  import opened Serial
  import opened SampleBuffer
  import opened SampleRuns

  /** The slot holds a packet at which a drop of a frame with timestamp `ts` stops. */
  predicate Stops(s: Slot, ts: u32) { s.Full? && (s.start || s.packet.timestamp != ts) }

  lemma {:induction false} DropRestEmpties(b: Buffer, ts: u32)
    requires Shape(b)
    ensures DropRest(b, ts).window == [] <==> forall s | s in b.window :: !Stops(s, ts)
    decreases |b.window|
  {
    hide Shape, Release;
    if b.window != [] {
      ShapeBounds(b);
      if Stops(b.window[0], ts) {
        assert b.window[0] in b.window;
      } else {
        ReleaseSkips(b, ts);
        DropRestEmpties(Release(b), ts);
      }
    }
  }

  /** What `Release` takes out of the window, apart from the first packet, is empty. */
  lemma ReleaseSkips(b: Buffer, ts: u32)
    requires Shape(b) && b.window != []
    ensures (forall s | s in b.window[1..] :: !Stops(s, ts)) <==> (forall s | s in Release(b).window :: !Stops(s, ts))
    ensures forall s | s in b.window :: s == b.window[0] || s in b.window[1..]
    ensures forall s | s in b.window[1..] :: s in b.window
  {
    var k := NextFull(b.window, 1);
    assert b.window[1..] == b.window[1..k] + Release(b).window;
    assert forall s | s in b.window[1..k] :: s.Empty?;
    assert b.window == [b.window[0]] + b.window[1..];
  }

  /** A drop empties the buffer exactly when no later packet begins a frame or has another
      timestamp. */
  lemma DropEmpties(b: Buffer)
    requires Shape(b) && b.window != []
    ensures Drop(b).window == [] <==>
              forall s | s in b.window[1..] :: !Stops(s, b.window[0].packet.timestamp)
  {
    var ts := b.window[0].packet.timestamp;
    ReleaseSkips(b, ts);
    DropRestEmpties(Release(b), ts);
    hide Release, Shape;
  }

  /** The buffer is full, the packet is the next one and belongs to the oldest timestamp, yet
      something after the tail begins a frame or has another timestamp. */
  predicate Impossible(b: Buffer, p: Packet)
    requires Shape(b)
  {
    && |b.window| == b.Cap()
    && p.seqno == Add(Newest(b), 1) && p.timestamp == b.window[0].packet.timestamp
    && exists s :: s in b.window[1..] && Stops(s, p.timestamp)
  }

  lemma AppendPanics(d: Depacketizer, b: Buffer, p: Packet)
    requires Shape(b) && b.window != [] && p.seqno == Add(Newest(b), 1)
    ensures Append(d, b, p).Panic? <==> Impossible(b, p)
  {
    hide Drop, Attach, Stops, Shape;
    DropEmpties(b);
    ShapeBounds(b);
  }

  lemma EmptyNeverPanics(d: Depacketizer, b: Buffer, p: Packet)
    requires Shape(b) && b.window == []
    ensures Push(d, b, p).Done?
  {}

  lemma PlacePanics(d: Depacketizer, b: Buffer, p: Packet)
    requires Shape(b)
    ensures Place(d, b, p).Panic? <==> b.window != [] && Impossible(b, p)
  {
    hide Append, Leap, Behind, ReleaseAll, Push, Stops;
    if b.window != [] {
      if p.seqno == Add(Newest(b), 1) { AppendPanics(d, b, p); }
      EmptyNeverPanics(d, ReleaseAll(b), p);
    }
  }

  lemma ScreenSameWindow(b: Buffer, p: Packet)
    requires Shape(b) && Screen(b, p).Admitted?
    ensures var a := Screen(b, p).b;
            Shape(a) && a.window == b.window && (b.window != [] && Impossible(a, p) <==> Impossible(b, p))
  {
    hide Screen, Stops;
  }

  /** `Push` panics if and only if the packet is not late and finds the buffer in that state. */
  lemma PanicIff(d: Depacketizer, b: Buffer, p: Packet)
    requires Shape(b)
    ensures Push(d, b, p).Panic? <==> Screen(b, p).Admitted? && Impossible(b, p)
  {
    hide Shape, Screen, Place, Impossible;
    if Screen(b, p).Admitted? {
      ScreenSameWindow(b, p);
      PlacePanics(d, Screen(b, p).b, p);
    }
  }

  const BEGIN: Bytes := [1]
  const MORE: Bytes := [2]

  /** Five consecutive packets of one timestamp, the first and the third of which begin a
      frame, as with several slices that each carry a frame header. */
  function Slices(): seq<Packet> {
    [Packet(0, 0, false, BEGIN, 0), Packet(1, 0, false, MORE, 1), Packet(2, 0, false, BEGIN, 2),
     Packet(3, 0, false, MORE, 3), Packet(4, 0, false, MORE, 4)]
  }

  predicate Slicing(d: Depacketizer) {
    && d.isHead(BEGIN) && !d.isHead(MORE)
    && !d.isTail(false, BEGIN) && !d.isTail(false, MORE)
  }

  /** The window after the first `k` of them. */
  function Stage(k: nat): seq<Slot>
    requires 1 <= k <= 4
  {
    var s := Slices();
    var a, b := Full(true, false, s[0]), Full(false, false, s[1]);
    var c, e := Full(true, false, s[2]), Full(false, false, s[3]);
    if k == 1 then [a] else if k == 2 then [a, b]
    else [a, b.(end := true), c] + if k == 3 then [] else [e]
  }

  lemma AttachOnly(d: Depacketizer, b: Buffer, p: Packet)
    requires Shape(b) && b.window != [] && |b.window| < b.Cap() && b.lastSeqno.None?
    requires p.seqno == Add(Newest(b), 1)
    ensures Push(d, b, p) == Done(Attach(d, b, p))
  {}

  lemma StageStep(d: Depacketizer, b: Buffer, k: nat)
    requires Slicing(d) && 1 <= k < 4 && b == New(2).(window := Stage(k))
    ensures Push(d, b, Slices()[k]) == Done(New(2).(window := Stage(k + 1)))
  {
    var p := Slices()[k];
    assert Ends(b.window) && Sequential(b.window) && |b.window| == k;
    AttachOnly(d, b, p);
    assert Attach(d, b, p).window == Stage(k + 1);
  }

  lemma {:induction false} StageRun(d: Depacketizer, ops: seq<Op>)
    requires Slicing(d) && 1 <= |ops| <= 4 && forall i | 0 <= i < |ops| :: ops[i] == DoPush(Slices()[i])
    ensures Run(d, New(2), ops) == Done(New(2).(window := Stage(|ops|)))
    decreases |ops|
  {
    hide Push, Stage;
    var k := |ops| - 1;
    if k == 0 {
      assert Run(d, New(2), []) == Done(New(2));
      assert Push(d, New(2), Slices()[0]) == Done(New(2).(window := Stage(1))) by { StageFirst(d); }
    } else {
      StageRun(d, ops[..k]);
      StageStep(d, New(2).(window := Stage(k)), k);
    }
  }

  lemma StageFirst(d: Depacketizer)
    requires Slicing(d)
    ensures Push(d, New(2), Slices()[0]) == Done(New(2).(window := Stage(1)))
  {}

  /** The panic is reachable from a new builder of the smallest size. */
  lemma PanicReachable(d: Depacketizer, ops: seq<Op>)
    requires Slicing(d) && |ops| == 5 && forall i | 0 <= i < |ops| :: ops[i] == DoPush(Slices()[i])
    ensures Run(d, New(2), ops).Panic?
  {
    hide Push;
    StageRun(d, ops[..4]);
    var b := New(2).(window := Stage(4));
    assert b.window[1..][1] == b.window[2] && Stops(b.window[2], 0);
    PanicIff(d, b, Slices()[4]);
    assert Run(d, New(2), ops) == Push(d, b, Slices()[4]);
  }
}
