/** `check()` on the ring and the invariant on the window say the same. */
module SampleBuilderCheck {
  import opened Serial
  import B = SampleBuffer
  import opened SampleBufferInvariant
  import opened RingStore
  import opened SampleBuilder
  import R = SampleRuns

  lemma NthSlot(s: SampleBuilder, i: nat)
    requires s.Valid() && i < s.packets.Length
    ensures s.tail as int < s.packets.Length
    ensures s.Nth(i) == if i < |s.view.window| then s.view.window[i] else B.Empty
  {}

  /** On rings of up to 0x8001 slots the sum of line 105 does not wrap. */
  lemma ProbeSlot(s: SampleBuilder, i: nat)
    requires s.Valid() && s.maxLate <= 0x4000 && i < |s.view.window|
    ensures s.packets.Length <= 0x8001 && s.tail < s.packets.Length
    ensures s.Probe(i) == Around(s.tail, i, s.packets.Length) && s.packets[s.Probe(i)] == s.view.window[i]
  {
    NthSlot(s, i);
    ModAround(s.tail, i, s.packets.Length);
  }

  /** The loop of `check()` finds no fault in round `i` exactly when the slot is separated from
      both neighbours where the timestamp changes. */
  lemma SlotOkMeans(s: SampleBuilder, i: nat)
    requires s.Valid() && s.maxLate <= 0x4000 && i < |s.view.window|
    requires s.head < s.packets.Length && s.tail < s.packets.Length < 0x1_0000 && s.packets[s.tail].Full?
    ensures var w := s.view.window;
            s.SlotOk(s.Probe(i), i) <==>
              && (w[i].Full? && i > 0 && !w[i].start && w[i - 1].Full? ==>
                    w[i - 1].packet.timestamp == w[i].packet.timestamp)
              && (w[i].Full? && i < |w| - 1 && !w[i].end && w[i + 1].Full? ==>
                    w[i + 1].packet.timestamp == w[i].packet.timestamp)
  {
    ProbeSlot(s, 0);
    ProbeSlot(s, i);
    ProbeNeighbours(s, i);
    if i > 0 { ProbeSlot(s, i - 1); }
    if i + 1 < |s.view.window| { ProbeSlot(s, i + 1); }
    hide Holds, Mod, Around, SampleBuilder.Probe, SampleBuilder.Inc, SampleBuilder.Dec;
  }

  /** Where the neighbours of slot `i` lie, and when it has none. */
  lemma ProbeNeighbours(s: SampleBuilder, i: nat)
    requires s.Valid() && s.maxLate <= 0x4000 && i < |s.view.window|
    requires s.head < s.packets.Length && s.tail < s.packets.Length < 0x1_0000
    ensures s.Probe(i) == s.tail <==> i == 0
    ensures s.Probe(i) == s.Dec(s.head) <==> i == |s.view.window| - 1
    ensures i > 0 ==> s.Dec(s.Probe(i)) == s.Probe(i - 1)
    ensures i + 1 < |s.view.window| ==> s.Inc(s.Probe(i)) == s.Probe(i + 1)
  {
    s.NewestSlot();
    ProbeSlot(s, i);
    if i > 0 { ProbeSlot(s, i - 1); }
    if i + 1 < |s.view.window| { ProbeSlot(s, i + 1); }
    hide Holds, Mod, B.Sequential, SampleBuilder.Probe;
  }

  /** What `check()` looks at besides the loop of lines 104-125, on any ring. */
  lemma RingOkMeans(s: SampleBuilder)
    requires s.Valid() && s.view.window != []
    ensures var w := s.view.window;
            && s.tail < s.packets.Length < 0x1_0000 && s.head < s.packets.Length && |w| < s.packets.Length
            && s.packets[s.tail].Full? && s.Len() == |w|
            && (s.RingOk() <==> LastBeforeTail(s.view) && forall i | 0 <= i < |w| :: s.SlotOk(s.Probe(i), i))
  {
    s.Layout();
    var w, n := s.view.window, s.packets.Length;
    s.NewestSlot();
    forall i | 0 <= i < n ensures s.Nth(i) == if i < |w| then w[i] else B.Empty { NthSlot(s, i); }
    hide Holds, B.Sequential, SampleBuilder.SlotOk, SampleBuilder.Probe;
  }

  /** On a builder that represents a window, `check()` passes exactly when `Checked` holds. */
  lemma CheckMeansChecked(s: SampleBuilder)
    requires s.Valid() && s.maxLate <= 0x4000
    ensures 0 < s.packets.Length < 0x1_0000 && s.head < s.packets.Length && s.tail < s.packets.Length
    ensures s.RingOk() <==> Checked(s.view)
  {
    hide Holds, B.Sequential, SampleBuilder.RingOk, SampleBuilder.SlotOk, SampleBuilder.Probe;
    s.Layout();
    var w := s.view.window;
    if w == [] {
      assert s.RingOk() by { EmptyOk(s); }
    } else {
      RingOkMeans(s);
      if s.RingOk() {
        forall i, j | 0 <= i < |w| && j == i + 1 && j < |w| ensures Separated(w[i], w[j]) {
          assert s.SlotOk(s.Probe(i), i) && s.SlotOk(s.Probe(j), j);
          SlotOkMeans(s, i);
          SlotOkMeans(s, j);
        }
      }
      if Checked(s.view) {
        forall i | 0 <= i < |w| ensures s.SlotOk(s.Probe(i), i) {
          SlotOkMeans(s, i);
          if i > 0 { assert Separated(w[i - 1], w[i]); }
          if i + 1 < |w| { assert Separated(w[i], w[i + 1]); }
        }
      }
    }
  }

  lemma EmptyOk(s: SampleBuilder)
    requires s.Valid() && s.view.window == []
    ensures s.packets.Length < 0x1_0000 && s.tail < s.packets.Length && s.head < s.packets.Length && s.RingOk()
  {
    s.Layout();
  }

  /** On a ring of any size, `check()` fails if `lastSeqno` does not lie before the tail: that
      is looked at first. */
  lemma CheckNeedsOrder(s: SampleBuilder)
    requires s.Valid() && !LastBeforeTail(s.view)
    ensures 0 < s.packets.Length < 0x1_0000 && s.head < s.packets.Length && s.tail < s.packets.Length
    ensures !s.RingOk()
  {
    s.Layout();
    RingOkMeans(s);
  }

  /** Three calls on a real builder with `maxLate` above 0x4000, after which `check()` panics. */
  method ExecuteWide(maxLate: u16, d: B.Depacketizer) returns (s: SampleBuilder)
    requires maxLate > 0x4000 && R.Whole(d)
    ensures s.Valid() && s.d == d
    ensures s.view == R.Run(d, B.New(maxLate), [R.DoPush(R.MIDDLE), R.DoPush(R.ZERO), R.DoForcePop]).b
    ensures 0 < s.packets.Length < 0x1_0000 && s.head < s.packets.Length && s.tail < s.packets.Length
    ensures !s.RingOk()
  {
    hide B.Push, B.Pop, B.Shape, Holds, Fits, SampleBuilder.RingOk;
    R.WideBuilderRuns(d, maxLate);
    ghost var n := B.New(maxLate);
    ghost var one := B.Push(d, n, R.MIDDLE);
    assert Fits(n, R.MIDDLE) && Fits(one.b, R.ZERO) by { WideFits(d, maxLate); }
    s := new SampleBuilder(maxLate, d);
    var _ := s.Push(R.MIDDLE);
    var _ := s.Push(R.ZERO);
    var _ := s.Pop(true);
    CheckNeedsOrder(s);
  }

  /** Neither packet is ahead of the newest one, so no sum is formed. */
  lemma WideFits(d: B.Depacketizer, maxLate: u16)
    requires maxLate > 0x4000 && R.Whole(d)
    ensures Fits(B.New(maxLate), R.MIDDLE) && Fits(B.Push(d, B.New(maxLate), R.MIDDLE).b, R.ZERO)
  {
    R.WideFirst(d, B.New(maxLate));
  }

  const LAST := B.Packet(0xFFFF, 0, true, [], 2)

  /** With the two packets of `ExecuteWide` in the ring, a third one makes the sum of line 346
      wrap to 0. */
  lemma WideSumWraps(d: B.Depacketizer, maxLate: u16)
    requires maxLate > 0x4000 && R.Whole(d)
    ensures !Fits(R.Run(d, B.New(maxLate), [R.DoPush(R.MIDDLE), R.DoPush(R.ZERO)]).b, LAST)
  {
    hide B.Push, B.Shape, B.Sequential;
    var n := B.New(maxLate);
    var o1, o2 := [R.DoPush(R.MIDDLE)], [R.DoPush(R.MIDDLE), R.DoPush(R.ZERO)];
    assert o1[..0] == [] && o2[..1] == o1;
    R.WideFirst(d, n);
    assert R.Run(d, n, o1) == B.Push(d, n, R.MIDDLE);
    R.WideSecond(d, R.Run(d, n, o1).b);
    assert R.Run(d, n, o2) == B.Push(d, R.Run(d, n, o1).b, R.ZERO);
  }

  /** The index sums stay within 16 bits in every state of every run, and for every packet, if
      and only if `maxLate` is at most 0x4000. */
  lemma FitsIffBound(maxLate: u16)
    ensures (forall d, ops, p :: Fits(R.Run(d, B.New(maxLate), ops).b, p)) <==> maxLate <= 0x4000
  {
    hide Fits;
    if maxLate <= 0x4000 {
      forall d, ops, p ensures Fits(R.Run(d, B.New(maxLate), ops).b, p) {
        R.RunKeepsInvariant(d, maxLate, ops);
        FitsUpToBound(R.Run(d, B.New(maxLate), ops).b, p);
      }
    } else {
      var d := R.Constant();
      WideSumWraps(d, maxLate);
    }
  }

  /** Any sequence of calls on a real builder: the ring follows the run of the model, and
      `check()` passes after every one of them. */
  method Execute(maxLate: u16, d: B.Depacketizer, ops: seq<R.Op>) returns (s: SampleBuilder, panicked: bool)
    requires maxLate <= 0x4000
    ensures s.Valid() && s.d == d && s.maxLate <= 0x4000
    ensures s.view == R.Run(d, B.New(maxLate), ops).b && panicked == R.Run(d, B.New(maxLate), ops).Panic?
    ensures 0 < s.packets.Length < 0x1_0000 && s.head < s.packets.Length && s.tail < s.packets.Length
    ensures s.RingOk()
  {
    hide B.Push, B.Pop, B.ReleaseAll, B.Shape, Holds, Fits, SampleBuilder.RingOk, Inv, Checked;
    s := new SampleBuilder(maxLate, d);
    panicked := false;
    assert ops[..0] == [];
    assert s.maxLate <= 0x4000 && R.Run(d, B.New(maxLate), []) == B.Done(B.New(maxLate));
    var i := 0;
    while i < |ops| && !panicked
      invariant 0 <= i <= |ops| && s.Valid() && s.d == d && s.maxLate <= 0x4000
      invariant fresh(s) && fresh(s.packets)
      invariant s.view == R.Run(d, B.New(maxLate), ops[..i]).b
      invariant panicked == R.Run(d, B.New(maxLate), ops[..i]).Panic?
      decreases |ops| - i
    {
      assert ops[..i + 1][..i] == ops[..i] && ops[..i + 1][i] == ops[i];
      match ops[i] {
        case DoPush(p) =>
          FitsUpToBound(s.view, p);
          panicked := s.Push(p);
        case DoPop =>
          var _ := s.Pop(false);
        case DoForcePop =>
          var _ := s.Pop(true);
        case DoClose =>
          s.Close();
      }
      i := i + 1;
    }
    assert ops[..|ops|] == ops;
    R.PanicStays(d, B.New(maxLate), ops, i);
    R.RunKeepsInvariant(d, maxLate, ops);
    InvImpliesChecked(s.view);
    CheckMeansChecked(s);
  }
}
