/** Conservation: every packet is in the window, was given to the release handler, or was
    discarded by the late return, and no packet is in two of these places. */
module SampleBufferAccount {
  import opened Octets
  import opened Serial
  import opened SampleBuffer

  function Packets(w: seq<Slot>): (r: seq<Packet>)
  {
    if w == [] then [] else (if w[0].Full? then [w[0].packet] else []) + Packets(w[1..])
  }

  /** Every packet the builder was given and where it is now. */
  function Account(b: Buffer): multiset<Packet> {
    multiset(Packets(b.window)) + multiset(b.released) + multiset(b.discarded)
  }

  lemma {:induction false} PacketsConcat(a: seq<Slot>, b: seq<Slot>)
    ensures Packets(a + b) == Packets(a) + Packets(b)
  {
    if a == [] {
      assert a + b == b;
    } else {
      assert (a + b)[1..] == a[1..] + b;
      PacketsConcat(a[1..], b);
    }
  }

  lemma {:induction false} PacketsIgnoreFlags(w: seq<Slot>, v: seq<Slot>)
    requires |w| == |v| && forall i | 0 <= i < |w| :: SameContent(w[i], v[i])
    ensures Packets(w) == Packets(v)
  {
    if w != [] {
      assert SameContent(w[0], v[0]);
      forall i | 0 <= i < |w| - 1 ensures SameContent(w[1..][i], v[1..][i]) {
        assert SameContent(w[i + 1], v[i + 1]);
      }
      PacketsIgnoreFlags(w[1..], v[1..]);
    }
  }

  lemma {:induction false} PacketsOfEmpties(w: seq<Slot>)
    requires forall i | 0 <= i < |w| :: w[i].Empty?
    ensures Packets(w) == []
  {
    if w != [] { PacketsOfEmpties(w[1..]); }
  }

  lemma PacketsSkip(w: seq<Slot>, k: nat)
    requires 0 < k <= |w| && w[0].Full? && forall i | 1 <= i < k :: w[i].Empty?
    ensures Packets(w) == [w[0].packet] + Packets(w[k..])
  {
    assert w[1..] == w[1..k] + w[k..];
    PacketsConcat(w[1..k], w[k..]);
    PacketsOfEmpties(w[1..k]);
  }

  lemma PacketsAround(w: seq<Slot>, i: nat)
    requires i < |w|
    ensures Packets(w) == Packets(w[..i]) + (if w[i].Full? then [w[i].packet] else []) + Packets(w[i + 1..])
  {
    assert w == w[..i] + w[i..] && w[i..][1..] == w[i + 1..];
    PacketsConcat(w[..i], w[i..]);
  }

  lemma PacketsFill(w: seq<Slot>, v: seq<Slot>, i: nat, p: Packet)
    requires |w| == |v| && i < |w| && w[i].Empty? && v[i].Full? && v[i].packet == p
    requires forall j | 0 <= j < |w| && j != i :: SameContent(w[j], v[j])
    ensures multiset(Packets(v)) == multiset(Packets(w)) + multiset{p}
  {
    PacketsAround(w, i);
    PacketsAround(v, i);
    PacketsIgnoreFlags(w[..i], v[..i]);
    var x, y := w[i + 1..], v[i + 1..];
    forall j | 0 <= j < |x| ensures SameContent(x[j], y[j]) {
      assert SameContent(w[i + 1 + j], v[i + 1 + j]);
    }
    PacketsIgnoreFlags(x, y);
  }

  lemma ReleaseAccount(b: Buffer)
    requires Shape(b) && b.window != []
    ensures Account(Release(b)) == Account(b)
  {
    var k := NextFull(b.window, 1);
    PacketsSkip(b.window, k);
    assert Packets(b.window) == [b.window[0].packet] + Packets(Release(b).window);
  }

  lemma {:induction false} ReleaseAllAccount(b: Buffer)
    requires Shape(b)
    ensures Account(ReleaseAll(b)) == Account(b)
    decreases |b.window|
  {
    if b.window != [] {
      ReleaseAccount(b);
      ReleaseAllAccount(Release(b));
    }
  }

  lemma {:induction false} DropRestAccount(b: Buffer, ts: u32)
    requires Shape(b)
    ensures Account(DropRest(b, ts)) == Account(b)
    decreases |b.window|
  {
    if b.window != [] && !b.window[0].start && b.window[0].packet.timestamp == ts {
      ReleaseAccount(b);
      DropRestAccount(Release(b), ts);
    }
  }

  lemma DropAccount(b: Buffer)
    requires Shape(b) && b.window != []
    ensures Account(Drop(b)) == Account(b)
  {
    ReleaseAccount(b);
    DropRestAccount(Release(b), b.window[0].packet.timestamp);
  }

  lemma {:induction false} MakeRoomAccount(b: Buffer, count: nat)
    requires Shape(b) && count <= b.Cap()
    ensures Account(MakeRoom(b, count)) == Account(b)
    decreases |b.window|
  {
    if |b.window| + count > b.Cap() {
      DropAccount(b);
      MakeRoomAccount(Drop(b), count);
    }
  }

  /** `p` is stored in the window or handed over, once. */
  predicate Gains(b: Buffer, p: Packet, r: Buffer) { Account(r) == Account(b) + multiset{p} }

  /** A new window that holds one packet more. */
  lemma Rewindow(b: Buffer, p: Packet, r: Buffer)
    requires r == b.(tail := r.tail, window := r.window)
    requires multiset(Packets(r.window)) == multiset(Packets(b.window)) + multiset{p}
    ensures Gains(b, p, r)
  {
    assert r.released == b.released && r.discarded == b.discarded;
  }

  lemma RejectAccount(b: Buffer, p: Packet)
    ensures Gains(b, p, Reject(b, p)) && Gains(b, p, Discard(b, p))
  {
    var x, y, z := multiset(Packets(b.window)), multiset(b.released), multiset(b.discarded);
    assert multiset(b.released + [p]) == y + multiset{p};
    assert multiset(b.discarded + [p]) == z + multiset{p};
  }

  lemma FirstAccount(d: Depacketizer, b: Buffer, p: Packet)
    requires b.window == []
    ensures Gains(b, p, b.(window := [Fresh(d, p)]))
  {
    assert Packets([Fresh(d, p)]) == [p];
    Rewindow(b, p, b.(window := [Fresh(d, p)]));
  }

  lemma AttachAccount(d: Depacketizer, b: Buffer, p: Packet)
    requires Shape(b) && |b.window| < b.Cap()
    requires b.window != [] ==> p.seqno == Add(Newest(b), 1)
    ensures Gains(b, p, Attach(d, b, p))
  {
    if b.window == [] {
      FirstAccount(d, b, p);
    } else {
      var v, n := Attach(d, b, p).window, |b.window|;
      assert v == v[..n] + [v[n]];
      PacketsConcat(v[..n], [v[n]]);
      PacketsIgnoreFlags(b.window, v[..n]);
      assert Packets([v[n]]) == [p];
      Rewindow(b, p, Attach(d, b, p));
    }
  }

  lemma AppendAccount(d: Depacketizer, b: Buffer, p: Packet)
    requires Shape(b) && b.window != [] && p.seqno == Add(Newest(b), 1)
    ensures var r := Append(d, b, p);
            if r.Panic? then Account(r.b) == Account(b) else Gains(b, p, r.b)
  {
    hide Account, Attach, Drop;
    if |b.window| < b.Cap() {
      AttachAccount(d, b, p);
    } else {
      DropAccount(b);
      if b.window[0].packet.timestamp != p.timestamp {
        AttachAccount(d, Drop(b), p);
      } else {
        RejectAccount(Drop(b), p);
      }
    }
  }

  lemma SkipAccount(d: Depacketizer, b: Buffer, p: Packet, count: nat)
    requires Shape(b) && b.window != [] && 2 <= count && |b.window| + count <= b.Cap()
    requires p.seqno == Add(Newest(b), count)
    ensures Gains(b, p, Skip(d, b, p, count))
  {
    var w, e, f := b.window, Empties(count - 1), [Fresh(d, p)];
    PacketsConcat(w + e, f);
    PacketsConcat(w, e);
    PacketsOfEmpties(e);
    assert Packets(f) == [p];
    Rewindow(b, p, Skip(d, b, p, count));
  }

  lemma LeapAccount(d: Depacketizer, b: Buffer, p: Packet, count: nat)
    requires Shape(b) && b.window != [] && 2 <= count <= b.Cap() && p.seqno == Add(Newest(b), count)
    ensures Gains(b, p, Leap(d, b, p, count))
  {
    var m := MakeRoom(b, count);
    MakeRoomAccount(b, count);
    if m.window == [] {
      FirstAccount(d, m, p);
    } else {
      SkipAccount(d, m, p, count);
    }
  }

  lemma ExtendAccount(d: Depacketizer, b: Buffer, p: Packet, k: nat)
    requires Shape(b) && b.window != [] && 0 < k && |b.window| + k <= b.Cap()
    requires b.window[0].packet.seqno == Add(p.seqno, k)
    ensures Gains(b, p, Extend(d, b, p, k))
  {
    hide Account, Packets, Gains;
    var r := Extend(d, b, p, k);
    var e := Empties(k);
    PacketsFill(e + b.window, r.window, 0, p);
    PacketsConcat(e, b.window);
    PacketsOfEmpties(e);
    Rewindow(b, p, r);
  }

  lemma FillAccount(d: Depacketizer, b: Buffer, p: Packet, i: nat)
    requires Shape(b) && i < |b.window| && b.window[i].Empty? && p.seqno == Add(b.window[0].packet.seqno, i)
    ensures Gains(b, p, Fill(d, b, p, i))
  {
    PacketsFill(b.window, Fill(d, b, p, i).window, i, p);
    Rewindow(b, p, Fill(d, b, p, i));
  }

  lemma BehindAccount(d: Depacketizer, b: Buffer, p: Packet, offset: nat)
    requires Shape(b) && b.window != [] && 2 <= offset < 0x1_0000 && Add(p.seqno, offset - 1) == Newest(b)
    ensures Gains(b, p, Behind(d, b, p, offset))
  {
    hide Extend, Fill, Account;
    var n := |b.window|;
    assert b.window[n - 1].packet.seqno == Add(b.window[0].packet.seqno, n - 1);
    if offset >= b.Cap() {
      RejectAccount(b, p);
    } else if offset > n {
      ExtendAccount(d, b, p, offset - n);
    } else if b.window[n - offset].Full? {
      RejectAccount(b, p);
    } else {
      FillAccount(d, b, p, n - offset);
    }
  }

  lemma {:induction false} PlaceAccount(d: Depacketizer, b: Buffer, p: Packet)
    requires Shape(b)
    ensures var r := Place(d, b, p);
            if r.Panic? then Account(r.b) == Account(b) else Gains(b, p, r.b)
    decreases b.window != [], 0
  {
    hide Account, Append, Behind, Leap, ReleaseAll;
    if b.window == [] {
      FirstAccount(d, b, p);
    } else {
      var ahead := Fwd(Newest(b), p.seqno);
      if ahead == 0 {
        RejectAccount(b, p);
      } else if ahead == 1 {
        AppendAccount(d, b, p);
      } else if ahead >= 0x8000 {
        BehindAccount(d, b, p, Fwd(p.seqno, Newest(b)) + 1);
      } else if ahead > b.Cap() {
        ReleaseAllAccount(b);
        PushAccount(d, ReleaseAll(b), p);
      } else {
        LeapAccount(d, b, p, ahead);
      }
    }
  }

  lemma {:induction false} PushAccount(d: Depacketizer, b: Buffer, p: Packet)
    requires Shape(b)
    ensures var r := Push(d, b, p);
            if r.Panic? then Account(r.b) == Account(b) else Gains(b, p, r.b)
    decreases b.window != [], 1
  {
    if Screen(b, p).TooLate? {
      RejectAccount(b, p);
    } else {
      var a := Screen(b, p).b;
      assert Account(a) == Account(b);
      PlaceAccount(d, a, p);
    }
  }

  lemma FeedAccount(b: Buffer)
    requires Shape(b) && b.window != []
    ensures Account(Feed(b)) == Account(b)
  {
    ReleaseAccount(b.(fed := b.fed + [b.window[0].packet.payload]));
  }

  lemma {:induction false} TakeAccount(d: Depacketizer, b: Buffer, count: nat, data: Bytes)
    requires Shape(b) && FullUpTo(b.window, count)
    ensures Account(Take(d, b, count, data).0) == Account(b)
    decreases count
  {
    hide Account, Feed, Shape;
    if count > 0 {
      var f := Feed(b);
      FeedAccount(b);
      FeedKeepsFull(b, count);
      if d.unmarshal(f.fed).Some? {
        TakeAccount(d, f, count - 1, data + d.unmarshal(f.fed).value);
      }
    }
  }

  lemma EmitAccount(d: Depacketizer, b: Buffer, k: nat)
    requires Shape(b) && FullUpTo(b.window, k + 1)
    ensures Account(Emit(d, b, k).0) == Account(b)
  {
    TakeAccount(d, b, Count(b, k), []);
  }

  lemma {:induction false} PopAccount(d: Depacketizer, b: Buffer, force: bool)
    requires Shape(b)
    ensures Account(Pop(d, b, force).0) == Account(b)
    decreases |b.window|
  {
    if b.window != [] {
      if Drops(b, force) {
        DropAccount(b);
        PopAccount(d, Drop(b), force);
      } else if Emits(b, force) {
        EmitAccount(d, b, FrameEnd(b.window, 0));
      }
    }
  }
}
