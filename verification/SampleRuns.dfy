/** What holds after every run of `Push`, `Pop`, `ForcePop` and `Close` from `New`. */
module SampleRuns {
  import opened Outcomes
  import opened Octets
  import opened Serial
  import opened SampleBuffer
  import opened SampleBufferInvariant
  import opened SampleBufferAccount

  datatype Op = DoPush(p: Packet) | DoPop | DoForcePop | DoClose

  function Step(d: Depacketizer, b: Buffer, op: Op): (r: Outcome)
    requires Shape(b)
    ensures Shape(r.b)
  {
    match op
    case DoPush(p) => Push(d, b, p)
    case DoPop => Done(Pop(d, b, false).0)
    case DoForcePop => Done(Pop(d, b, true).0)
    case DoClose => Done(ReleaseAll(b))
  }

  /** A panic ends the run. */
  function Run(d: Depacketizer, b: Buffer, ops: seq<Op>): (r: Outcome)
    requires Shape(b)
    ensures Shape(r.b)
  {
    if ops == [] then Done(b)
    else
      var r := Run(d, b, ops[..|ops| - 1]);
      if r.Panic? then r else Step(d, r.b, ops[|ops| - 1])
  }

  lemma {:induction false} PanicStays(d: Depacketizer, b: Buffer, ops: seq<Op>, i: nat)
    requires Shape(b) && i <= |ops| && (i == |ops| || Run(d, b, ops[..i]).Panic?)
    ensures Run(d, b, ops) == Run(d, b, ops[..i])
  {
    if i == |ops| {
      assert ops[..i] == ops;
    } else {
      assert ops[..|ops| - 1][..i] == ops[..i];
      PanicStays(d, b, ops[..|ops| - 1], i);
    }
  }

  function PushesOf(ops: seq<Op>): seq<Packet> {
    if ops == [] then []
    else
      var last := ops[|ops| - 1];
      PushesOf(ops[..|ops| - 1]) + if last.DoPush? then [last.p] else []
  }

  /** Every state of every run satisfies the invariant, as long as `maxLate <= 0x4000`. */
  lemma {:induction false} RunKeepsInvariant(d: Depacketizer, maxLate: u16, ops: seq<Op>)
    requires maxLate <= 0x4000
    ensures Inv(Run(d, New(maxLate), ops).b)
  {
    if ops != [] {
      var r := Run(d, New(maxLate), ops[..|ops| - 1]);
      RunKeepsInvariant(d, maxLate, ops[..|ops| - 1]);
      if r.Done? { StepKeeps(d, r.b, ops[|ops| - 1]); }
    }
  }

  lemma StepKeeps(d: Depacketizer, b: Buffer, op: Op)
    requires Inv(b)
    ensures Inv(Step(d, b, op).b)
  {
    hide Push, Pop, ReleaseAll;
    match op
    case DoPush(p) => PushKeeps(d, b, p);
    case DoPop => PopKeeps(d, b, false);
    case DoForcePop => PopKeeps(d, b, true);
    case DoClose => ReleaseAllKeeps(b);
  }

  /** Packet conservation: after a run without panic, the packets pushed are exactly those
      still in the window, those given to the release handler, and those discarded as late. */
  lemma {:induction false} RunConserves(d: Depacketizer, maxLate: u16, ops: seq<Op>)
    requires Run(d, New(maxLate), ops).Done?
    ensures var b := Run(d, New(maxLate), ops).b;
            multiset(Packets(b.window)) + multiset(b.released) + multiset(b.discarded) == multiset(PushesOf(ops))
  {
    if ops != [] {
      var r := Run(d, New(maxLate), ops[..|ops| - 1]);
      RunConserves(d, maxLate, ops[..|ops| - 1]);
      StepAccount(d, r.b, ops[|ops| - 1]);
    }
  }

  lemma StepAccount(d: Depacketizer, b: Buffer, op: Op)
    requires Shape(b) && Step(d, b, op).Done?
    ensures Account(Step(d, b, op).b) == Account(b) + if op.DoPush? then multiset{op.p} else multiset{}
  {
    hide Push, Pop, ReleaseAll, Account;
    match op
    case DoPush(p) => PushAccount(d, b, p);
    case DoPop => PopAccount(d, b, false);
    case DoForcePop => PopAccount(d, b, true);
    case DoClose => ReleaseAllAccount(b);
  }

  /** `Close` hands over or has discarded everything that was ever pushed. */
  lemma CloseEmpties(d: Depacketizer, maxLate: u16, ops: seq<Op>)
    requires Run(d, New(maxLate), ops).Done?
    ensures var b := Run(d, New(maxLate), ops + [DoClose]).b;
            b.window == [] && multiset(b.released) + multiset(b.discarded) == multiset(PushesOf(ops))
  {
    hide ReleaseAll, Shape, New;
    var all := ops + [DoClose];
    assert all[..|all| - 1] == ops && all[|all| - 1] == DoClose;
    assert Run(d, New(maxLate), all) == Done(ReleaseAll(Run(d, New(maxLate), ops).b));
    var b := Run(d, New(maxLate), all).b;
    RunConserves(d, maxLate, all);
    assert b.window == [] && Packets(b.window) == [];
    assert PushesOf(all) == PushesOf(ops) + [] == PushesOf(ops);
    assert multiset(b.released) + multiset(b.discarded)
        == multiset(Packets(b.window)) + multiset(b.released) + multiset(b.discarded);
  }

  // ---------------------------------------------------------------- order of departure

  /** How far `lastSeqno` moves forward from mark `i` to mark `j`, not reduced modulo 2^16. */
  function Travel(trail: seq<Mark>, i: nat, j: nat): nat
    requires i <= j < |trail| && forall h | i <= h <= j :: !trail[h].Forgot?
    decreases j
  {
    if i == j then 0 else Travel(trail, i, j - 1) + Fwd(trail[j - 1].Seqno(), trail[j].Seqno())
  }

  /** While `lastSeqno` stays valid, packets leave the tail with strictly increasing
      unwrapped sequence numbers: no leave is at, or goes back behind, an earlier one,
      however many times the 16-bit number wraps. */
  lemma LeaveInOrder(d: Depacketizer, maxLate: u16, ops: seq<Op>, i: nat, j: nat)
    requires maxLate <= 0x4000
    requires var t := Run(d, New(maxLate), ops).b.trail;
             i < j < |t| && (forall h | i <= h <= j :: !t[h].Forgot?) && t[j].Left?
    ensures var t := Run(d, New(maxLate), ops).b.trail;
            && 0 < Travel(t, i, j)
            && (t[i].Seqno() + Travel(t, i, j)) % 0x1_0000 == t[j].packet.seqno
            && (forall h | i <= h < j :: AtOrAfter(t[h + 1].Seqno(), t[h].Seqno()))
  {
    hide Run, Shape;
    RunKeepsInvariant(d, maxLate, ops);
    OrderedTravel(Run(d, New(maxLate), ops).b.trail, i, j);
  }

  lemma OrderedTravel(t: seq<Mark>, i: nat, j: nat)
    requires Ordered(t) && i < j < |t| && (forall h | i <= h <= j :: !t[h].Forgot?) && t[j].Left?
    ensures 0 < Travel(t, i, j)
    ensures (t[i].Seqno() + Travel(t, i, j)) % 0x1_0000 == t[j].packet.seqno
    ensures forall h | i <= h < j :: AtOrAfter(t[h + 1].Seqno(), t[h].Seqno())
  {
    TravelWraps(t, i, j);
    assert Forward(t[j - 1], t[j]);
    forall h | i <= h < j ensures AtOrAfter(t[h + 1].Seqno(), t[h].Seqno()) {
      assert Forward(t[h], t[h + 1]);
    }
  }

  lemma {:induction false} TravelWraps(t: seq<Mark>, i: nat, j: nat)
    requires i <= j < |t| && forall h | i <= h <= j :: !t[h].Forgot?
    ensures (t[i].Seqno() + Travel(t, i, j)) % 0x1_0000 == t[j].Seqno()
    decreases j
  {
    if i < j {
      TravelWraps(t, i, j - 1);
      Truncation(t[j].Seqno(), t[j - 1].Seqno(), 0, 0);
    }
  }

  // ---------------------------------------------------------------- the exact bound

  const MIDDLE := Packet(0x8000, 0, true, [], 0)
  const ZERO := Packet(0, 0, true, [], 1)

  /** A codec for which an empty payload is a frame of its own. */
  predicate Whole(d: Depacketizer) {
    d.isHead([]) && d.isTail(true, []) && d.unmarshal([[]]).Some?
  }

  function Constant(): (d: Depacketizer)
    ensures Whole(d)
  {
    Depacketizer((_: Bytes) => true, (_: bool, _: Bytes) => true, (_: seq<Bytes>) => Some([]))
  }

  lemma WideFirst(d: Depacketizer, b: Buffer)
    requires Shape(b) && b.maxLate > 0x4000 && b.window == [] && b.lastSeqno.None? && Whole(d)
    ensures Push(d, b, MIDDLE) == Done(b.(window := [Full(true, true, MIDDLE)]))
  {}

  lemma WideSecond(d: Depacketizer, b: Buffer)
    requires Shape(b) && b.maxLate > 0x4000 && b.lastSeqno.None? && Whole(d)
    requires b.window == [Full(true, true, MIDDLE)] && b.fed == [] && b.tail == 0
    ensures var r := Push(d, b, ZERO);
            && r.Done? && r.b.fed == [] && |r.b.window| == 0x8001
            && r.b.window[0] == Full(true, true, ZERO)
            && (forall j | 0 < j < 0x8000 :: r.b.window[j].Empty?)
            && r.b.window[0x8000] == Full(true, true, MIDDLE)
  {
    var w := Empties(0x8000) + b.window;
    assert Push(d, b, ZERO) == Done(Extend(d, b, ZERO, 0x8000));
    assert Extend(d, b, ZERO, 0x8000).window == Insert(d, w, 0, ZERO);
  }

  lemma WideThird(d: Depacketizer, b: Buffer)
    requires Shape(b) && Whole(d) && b.fed == [] && |b.window| == 0x8001
    requires b.window[0] == Full(true, true, ZERO) && b.window[0x8000] == Full(true, true, MIDDLE)
    requires forall j | 0 < j < 0x8000 :: b.window[j].Empty?
    ensures !LastBeforeTail(Pop(d, b, true).0)
  {
    assert NextFull(b.window, 1) == 0x8000;
    var f := Feed(b);
    assert f.fed == [[]];
    assert f.window == b.window[0x8000..] && f.lastSeqno == Some(0);
    assert Take(d, f, 0, [] + d.unmarshal(f.fed).value).0 == f;
    assert Take(d, b, 1, []).0 == f;
    assert Pop(d, b, true) == Emit(d, b, 0);
  }

  /** The three calls and the states between them. */
  lemma WideBuilderRuns(d: Depacketizer, maxLate: u16)
    requires maxLate > 0x4000 && Whole(d)
    ensures var n := New(maxLate);
            var one := Push(d, n, MIDDLE);
            var two := Push(d, one.b, ZERO);
            && one.Done? && two.Done?
            && Run(d, n, [DoPush(MIDDLE), DoPush(ZERO), DoForcePop]) == Done(Pop(d, two.b, true).0)
            && !LastBeforeTail(Pop(d, two.b, true).0)
  {
    hide Push, Pop;
    var n := New(maxLate);
    var o1, o2, o3 := [DoPush(MIDDLE)], [DoPush(MIDDLE), DoPush(ZERO)], [DoPush(MIDDLE), DoPush(ZERO), DoForcePop];
    assert o1[..0] == [] && o2[..1] == o1 && o3[..2] == o2;
    WideFirst(d, n);
    assert Run(d, n, o1) == Push(d, n, MIDDLE);
    WideSecond(d, Run(d, n, o1).b);
    assert Run(d, n, o2) == Push(d, Run(d, n, o1).b, ZERO);
    WideThird(d, Run(d, n, o2).b);
    assert Run(d, n, o3) == Done(Pop(d, Run(d, n, o2).b, true).0);
  }

  /** Two packets exactly half the number range apart fit into a ring this large; once the
      older one leaves, the newer one no longer counts as being after it. */
  lemma WideBuilderBreaks(d: Depacketizer, maxLate: u16)
    requires maxLate > 0x4000 && Whole(d)
    ensures var r := Run(d, New(maxLate), [DoPush(MIDDLE), DoPush(ZERO), DoForcePop]);
            r.Done? && !Checked(r.b)
  {
    hide Push, Pop;
    WideBuilderRuns(d, maxLate);
  }

  /** `check()` holds in every state of every run if and only if `maxLate` is at most 0x4000. */
  lemma InvariantIffBound(maxLate: u16)
    ensures (forall d, ops :: Checked(Run(d, New(maxLate), ops).b)) <==> maxLate <= 0x4000
  {
    if maxLate <= 0x4000 {
      forall d, ops ensures Checked(Run(d, New(maxLate), ops).b) {
        RunKeepsInvariant(d, maxLate, ops);
        InvImpliesChecked(Run(d, New(maxLate), ops).b);
      }
    } else {
      var d := Constant();
      WideBuilderBreaks(d, maxLate);
    }
  }
}
