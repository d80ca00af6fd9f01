/** Who is in a room, as a client sees it: join and leave messages carry join ids and may
    arrive in any order, or more than once; tombstones remember the leaves. */
module Membership {
  import opened Outcomes
  import opened Serial

  datatype Key = Key(uid: string, sid: string)

  datatype Participant = Participant(key: Key, name: string, joinId: u32)

  /** A tombstone: the join id that left, and when (in nanoseconds). */
  datatype Leave = Leave(jid: u32, at: int)

  const MINUTE := 60_000_000_000

  datatype Members = Members(present: map<Key, Participant>, leaves: map<Key, Leave>)

  const NOBODY := Members(map[], map[])

  function Joined(m: Members, p: Participant): (Members, bool) {
    if p.key in m.leaves && p.joinId <= m.leaves[p.key].jid then (m, false)
    else
      var n := m.(leaves := m.leaves - {p.key});
      if p.key in n.present && p.joinId <= n.present[p.key].joinId then (n, false)
      else (n.(present := n.present[p.key := p]), true)
  }

  function Departed(m: Members, key: Key, jid: u32, now: int): (Members, Option<Participant>) {
    if key in m.leaves && jid <= m.leaves[key].jid then (m, None)
    else
      var n := m.(leaves := m.leaves[key := Leave(jid, now)]);
      if key in n.present && jid >= n.present[key].joinId then
        (n.(present := n.present - {key}), Some(n.present[key]))
      else (n, None)
  }

  predicate Expired(l: Leave, now: int) { now - l.at > MINUTE }

  function Cleaned(m: Members, now: int): Members {
    m.(leaves := map k | k in m.leaves && !Expired(m.leaves[k], now) :: m.leaves[k])
  }

  // ---------------------------------------------------------------- answers

  /** A join answers true exactly if who is present has changed, and then only by that
      participant. */
  lemma JoinAnswers(m: Members, p: Participant)
    ensures var (n, success) := Joined(m, p);
            && (success <==> n.present != m.present)
            && (success ==> n.present == m.present[p.key := p])
            && (p.key in m.present ==> (success ==> m.present[p.key].joinId < p.joinId))
  {}

  /** A leave returns exactly the participant that has disappeared, and no other disappears. */
  lemma LeaveAnswers(m: Members, key: Key, jid: u32, now: int)
    ensures var (n, gone) := Departed(m, key, jid, now);
            && gone == (if key in m.present && key !in n.present then Some(m.present[key]) else None)
            && n.present == (if gone.Some? then m.present - {key} else m.present)
            && (gone.Some? ==> gone.value.joinId <= jid)
  {
    assert key !in m.present ==> m.present - {key} == m.present;
  }

  /** A clean-up takes away exactly the tombstones that are older than 60 seconds, and nobody. */
  lemma CleanTakes(m: Members, now: int, key: Key)
    ensures var n := Cleaned(m, now);
            && (key in n.leaves <==> key in m.leaves && now - m.leaves[key].at <= 60_000_000_000)
            && (key in n.leaves ==> n.leaves[key] == m.leaves[key]) && n.present == m.present
  {}

  // ---------------------------------------------------------------- runs

  datatype Op = Joining(p: Participant) | Leaving(key: Key, jid: u32, now: int) | Cleaning(now: int)

  function Step(m: Members, op: Op): Members {
    match op
    case Joining(p) => Joined(m, p).0
    case Leaving(key, jid, now) => Departed(m, key, jid, now).0
    case Cleaning(now) => Cleaned(m, now)
  }

  function After(ops: seq<Op>): Members {
    if ops == [] then NOBODY else Step(After(ops[..|ops| - 1]), ops[|ops| - 1])
  }

  function Max(a: int, b: int): int { if a >= b then a else b }

  /** The largest join id seen in a join message for the key; -1 if there was none. */
  function MaxJoin(ops: seq<Op>, key: Key): int {
    if ops == [] then -1
    else
      var op := ops[|ops| - 1];
      Max(MaxJoin(ops[..|ops| - 1], key), if op.Joining? && op.p.key == key then op.p.joinId else -1)
  }

  /** The largest join id seen in a leave message for the key; -1 if there was none. */
  function MaxLeave(ops: seq<Op>, key: Key): int {
    if ops == [] then -1
    else
      var op := ops[|ops| - 1];
      Max(MaxLeave(ops[..|ops| - 1], key), if op.Leaving? && op.key == key then op.jid else -1)
  }

  /** The largest join id of a tombstone that a clean-up has purged; -1 if there was none. */
  function Purged(ops: seq<Op>, key: Key): int {
    if ops == [] then -1
    else
      var before, op := After(ops[..|ops| - 1]), ops[|ops| - 1];
      Max(Purged(ops[..|ops| - 1], key),
          if op.Cleaning? && key in before.leaves && Expired(before.leaves[key], op.now)
          then before.leaves[key].jid else -1)
  }

  function Tombstone(m: Members, key: Key): int { if key in m.leaves then m.leaves[key].jid else -1 }

  /** The key is present exactly when its largest join id exceeds its largest leave id, and
      then it carries that join id. */
  predicate Right(m: Members, key: Key, join: int, leave: int) {
    && (key in m.present <==> join > leave)
    && (key in m.present ==> m.present[key].joinId == join && m.present[key].key == key)
  }

  /** What makes `Right` inductive: the tombstone, or a purged one, remembers the leaves. */
  predicate Remembers(m: Members, key: Key, join: int, leave: int, purged: int) {
    && Right(m, key, join, leave)
    && purged <= leave && Tombstone(m, key) <= leave
    && (key !in m.present ==> Max(Tombstone(m, key), purged) == leave)
  }

  /** A join that would be believed although a leave of the same or a later id was seen: its
      tombstone has been purged, nothing newer stops it, and the key is not present. */
  predicate Misled(ops: seq<Op>, key: Key, joinId: int) {
    && key !in After(ops).present
    && Tombstone(After(ops), key) < joinId <= Purged(ops, key)
  }

  /** No join of the key was of that kind. */
  predicate Harmless(ops: seq<Op>, key: Key) {
    ops == [] ||
    var before, op := ops[..|ops| - 1], ops[|ops| - 1];
    Harmless(before, key) && (op.Joining? && op.p.key == key ==> !Misled(before, key, op.p.joinId))
  }

  lemma {:induction false} RunRemembers(ops: seq<Op>, key: Key)
    requires Harmless(ops, key)
    ensures Remembers(After(ops), key, MaxJoin(ops, key), MaxLeave(ops, key), Purged(ops, key))
  {
    if ops != [] { RunRemembers(ops[..|ops| - 1], key); }
  }

  /** Membership of the key is decided by the largest ids alone. */
  predicate RightAfter(ops: seq<Op>, key: Key) {
    Right(After(ops), key, MaxJoin(ops, key), MaxLeave(ops, key))
  }

  lemma Converges(ops: seq<Op>, key: Key)
    requires Harmless(ops, key)
    ensures RightAfter(ops, key)
  {
    RunRemembers(ops, key);
  }

  /** Exactly when a further join leaves membership right. */
  lemma JoinRightIff(ops: seq<Op>, p: Participant)
    requires Harmless(ops, p.key)
    ensures RightAfter(ops + [Joining(p)], p.key) <==> !Misled(ops, p.key, p.joinId)
  {
    RunRemembers(ops, p.key);
    var next := ops + [Joining(p)];
    assert next[..|next| - 1] == ops;
  }

  lemma {:induction false} HarmlessPrefix(ops: seq<Op>, key: Key, n: nat)
    requires Harmless(ops, key) && n <= |ops|
    ensures Harmless(ops[..n], key)
  {
    if n == |ops| {
      assert ops[..n] == ops;
    } else {
      HarmlessPrefix(ops[..|ops| - 1], key, n);
      assert ops[..|ops| - 1][..n] == ops[..n];
    }
  }

  lemma {:induction false} RightThroughoutHarmless(ops: seq<Op>, key: Key)
    requires forall n | 0 <= n <= |ops| :: RightAfter(ops[..n], key)
    ensures Harmless(ops, key)
  {
    if ops != [] {
      var k := |ops| - 1;
      var before := ops[..k];
      forall n | 0 <= n <= k ensures RightAfter(before[..n], key) {
        assert before[..n] == ops[..n] && RightAfter(ops[..n], key);
      }
      RightThroughoutHarmless(before, key);
      if ops[k].Joining? && ops[k].p.key == key {
        assert ops[..k + 1] == ops == before + [Joining(ops[k].p)];
        JoinRightIff(before, ops[k].p);
      }
    }
  }

  /** Membership of a key is right at every point of a run if and only if no join of the run
      was misled. */
  lemma RightThroughoutIff(ops: seq<Op>, key: Key)
    ensures Harmless(ops, key) <==> forall n | 0 <= n <= |ops| :: RightAfter(ops[..n], key)
  {
    if Harmless(ops, key) {
      forall n | 0 <= n <= |ops| ensures RightAfter(ops[..n], key) {
        HarmlessPrefix(ops, key, n);
        Converges(ops[..n], key);
      }
    } else if forall n | 0 <= n <= |ops| :: RightAfter(ops[..n], key) {
      RightThroughoutHarmless(ops, key);
    }
  }

  /** In particular when no join comes at or below a purged tombstone of its key. */
  lemma {:induction false} TimelyIsHarmless(ops: seq<Op>, key: Key)
    requires forall n | 0 <= n < |ops| ::
               ops[n].Joining? && ops[n].p.key == key ==> ops[n].p.joinId > Purged(ops[..n], key)
    ensures Harmless(ops, key)
  {
    if ops != [] {
      var k := |ops| - 1;
      forall n | 0 <= n < k && ops[..k][n].Joining? && ops[..k][n].p.key == key
        ensures ops[..k][n].p.joinId > Purged(ops[..k][..n], key)
      {
        assert ops[..k][..n] == ops[..n] && ops[..k][n] == ops[n];
      }
      TimelyIsHarmless(ops[..k], key);
    }
  }

  /** Without clean-ups no join is misled. */
  lemma {:induction false} NeverCleaned(ops: seq<Op>, key: Key)
    requires forall i | 0 <= i < |ops| :: !ops[i].Cleaning?
    ensures Harmless(ops, key) && Purged(ops, key) == -1
  {
    if ops != [] { NeverCleaned(ops[..|ops| - 1], key); }
  }

  /** The join messages seen for a key, and the ids of its leave messages. */
  function Joins(ops: seq<Op>, key: Key): set<Participant> {
    set i | 0 <= i < |ops| && ops[i].Joining? && ops[i].p.key == key :: ops[i].p
  }

  function Leaves(ops: seq<Op>, key: Key): set<int> {
    set i | 0 <= i < |ops| && ops[i].Leaving? && ops[i].key == key :: ops[i].jid
  }

  lemma {:induction false} MaxOfSets(ops: seq<Op>, key: Key)
    ensures MaxJoin(ops, key) == -1 || exists p :: p in Joins(ops, key) && p.joinId == MaxJoin(ops, key)
    ensures MaxLeave(ops, key) == -1 || MaxLeave(ops, key) in Leaves(ops, key)
    ensures forall p | p in Joins(ops, key) :: p.joinId <= MaxJoin(ops, key)
    ensures forall j | j in Leaves(ops, key) :: j <= MaxLeave(ops, key)
    ensures MaxJoin(ops, key) >= -1 && MaxLeave(ops, key) >= -1
  {
    if ops != [] {
      var n := |ops| - 1;
      MaxOfSets(ops[..n], key);
      JoinsSnoc(ops, key);
    }
  }

  lemma JoinsSnoc(ops: seq<Op>, key: Key)
    requires ops != []
    ensures var n := |ops| - 1;
            && Joins(ops, key) == Joins(ops[..n], key) +
                 (if ops[n].Joining? && ops[n].p.key == key then {ops[n].p} else {})
            && Leaves(ops, key) == Leaves(ops[..n], key) +
                 (if ops[n].Leaving? && ops[n].key == key then {ops[n].jid as int} else {})
  {
    var n := |ops| - 1;
    assert forall i | 0 <= i < n :: ops[..n][i] == ops[i];
  }

  /** Who is present joined with exactly the message that is stored. */
  lemma {:induction false} PresentJoined(ops: seq<Op>, key: Key)
    ensures key in After(ops).present ==> After(ops).present[key] in Joins(ops, key)
  {
    if ops != [] {
      PresentJoined(ops[..|ops| - 1], key);
      JoinsSnoc(ops, key);
    }
  }

  /** Two runs that saw the same messages, in whatever order and however often, agree on who
      is present and with which join id, and on the name if one id was never used with two. */
  lemma SameMessagesSameMembers(a: seq<Op>, b: seq<Op>, key: Key)
    requires Harmless(a, key) && Harmless(b, key)
    requires Joins(a, key) == Joins(b, key) && Leaves(a, key) == Leaves(b, key)
    ensures key in After(a).present <==> key in After(b).present
    ensures key in After(a).present ==> After(a).present[key].joinId == After(b).present[key].joinId
    ensures key in After(a).present &&
            (forall p, q | p in Joins(a, key) && q in Joins(a, key) && p.joinId == q.joinId :: p == q) ==>
              After(a).present[key] == After(b).present[key]
  {
    MaxOfSets(a, key);
    MaxOfSets(b, key);
    Converges(a, key);
    Converges(b, key);
    PresentJoined(a, key);
    PresentJoined(b, key);
  }

  /** Membership does go wrong: a repeated join after its tombstone was purged is believed. */
  lemma LateJoinAfterCleaning()
    ensures var p := Participant(Key("u", "s"), "n", 1);
            var ops := [Joining(p), Leaving(p.key, 1, 0), Cleaning(MINUTE + 1), Joining(p)];
            p.key in After(ops).present && MaxJoin(ops, p.key) <= MaxLeave(ops, p.key)
  {
    var p := Participant(Key("u", "s"), "n", 1);
    var o1, o2, o3 := [Joining(p)], [Joining(p), Leaving(p.key, 1, 0)],
                      [Joining(p), Leaving(p.key, 1, 0), Cleaning(MINUTE + 1)];
    var o4 := [Joining(p), Leaving(p.key, 1, 0), Cleaning(MINUTE + 1), Joining(p)];
    assert o1[..0] == [] && o2[..1] == o1 && o3[..2] == o2 && o4[..3] == o3;
    assert After(o1) == Members(map[p.key := p], map[]);
    assert After(o2) == Members(map[], map[p.key := Leave(1, 0)]);
    assert After(o3) == NOBODY;
    assert MaxLeave(o1, p.key) == -1;
    assert MaxJoin(o2, p.key) == MaxJoin(o1, p.key) == 1 && MaxLeave(o3, p.key) == MaxLeave(o2, p.key) == 1;
  }

  /** A late join need not do harm: here a newer join keeps the key present. */
  lemma LateJoinWithoutHarm()
    ensures var key := Key("u", "s");
            var p, q := Participant(key, "n", 1), Participant(key, "n", 5);
            var ops := [Joining(p), Leaving(key, 1, 0), Cleaning(MINUTE + 1), Joining(q), Joining(p)];
            Purged(ops, key) == 1 && Harmless(ops, key)
  {
    var key := Key("u", "s");
    var p, q := Participant(key, "n", 1), Participant(key, "n", 5);
    var o1, o2, o3 := [Joining(p)], [Joining(p), Leaving(key, 1, 0)],
                      [Joining(p), Leaving(key, 1, 0), Cleaning(MINUTE + 1)];
    var o4 := [Joining(p), Leaving(key, 1, 0), Cleaning(MINUTE + 1), Joining(q)];
    var o5 := [Joining(p), Leaving(key, 1, 0), Cleaning(MINUTE + 1), Joining(q), Joining(p)];
    assert o1[..0] == [] && o2[..1] == o1 && o3[..2] == o2 && o4[..3] == o3 && o5[..4] == o4;
    assert After(o1) == Members(map[key := p], map[]);
    assert After(o2) == Members(map[], map[key := Leave(1, 0)]);
    assert After(o3) == NOBODY;
    assert After(o4).present == map[key := q];
    NeverCleaned(o2, key);
    assert Purged(o3, key) == 1;
    assert Purged(o4, key) == 1;
    assert Harmless(o3, key);
    assert Harmless(o4, key);
  }

  // ---------------------------------------------------------------- the objects

  class Participants {
    var participants: map<Key, Participant>
    var leaves: map<Key, Leave>

    ghost function State(): Members
      reads this
    {
      Members(participants, leaves)
    }

    constructor ()
      ensures State() == NOBODY
    {
      participants, leaves := map[], map[];
    }

    method Add(p: Participant) returns (success: bool)
      modifies this
      ensures (State(), success) == Joined(old(State()), p)
    {
      if p.key in leaves {
        if p.joinId > leaves[p.key].jid {
          leaves := leaves - {p.key};
        } else {
          return false;
        }
      }
      assert leaves == old(leaves) - {p.key};
      success := false;
      if p.key in participants {
        if p.joinId > participants[p.key].joinId {
          participants := participants[p.key := p];
          success := true;
        }
      } else {
        participants := participants[p.key := p];
        success := true;
      }
    }

    method Remove(key: Key, jid: u32, now: int) returns (gone: Option<Participant>)
      modifies this
      ensures (State(), gone) == Departed(old(State()), key, jid, now)
    {
      if key in leaves {
        if jid > leaves[key].jid {
          leaves := leaves[key := Leave(jid, now)];
        } else {
          return None;
        }
      } else {
        leaves := leaves[key := Leave(jid, now)];
      }
      if key in participants {
        var p := participants[key];
        if jid >= p.joinId {
          participants := participants - {key};
          return Some(p);
        }
      }
      return None;
    }

    method Clean(now: int) returns (empty: bool)
      modifies this
      ensures State() == Cleaned(old(State()), now)
      ensures empty == (State() == NOBODY)
    {
      var keys := leaves.Keys;
      while keys != {}
        invariant participants == old(participants)
        invariant keys <= leaves.Keys <= old(leaves).Keys
        invariant forall k | k in leaves :: leaves[k] == old(leaves)[k]
        invariant forall k | k in old(leaves) && k !in keys :: k in leaves <==> !Expired(old(leaves)[k], now)
        decreases keys
      {
        var k :| k in keys;
        if now - leaves[k].at > MINUTE {
          leaves := leaves - {k};
        }
        keys := keys - {k};
      }
      return |participants| == 0 && |leaves| == 0;
    }
  }

  /** One `Participants` object per room.  A room without an object counts as a room in which
      nobody is and nobody was. */
  class ParticipantsBox {
    var rooms: map<string, Participants>
    var iter: nat

    ghost predicate Valid()
      reads this
    {
      forall r, s | r in rooms && s in rooms && r != s :: rooms[r] != rooms[s]
    }

    ghost function RoomState(room: string): Members
      reads this, rooms.Values
    {
      if room in rooms then rooms[room].State() else NOBODY
    }

    constructor ()
      ensures Valid() && forall r :: RoomState(r) == NOBODY
    {
      rooms, iter := map[], 0;
    }

    method ProcessJoin(room: string, p: Participant) returns (added: bool)
      requires Valid()
      modifies this, rooms.Values
      ensures Valid() && added == Joined(old(RoomState(room)), p).1 && iter == old(iter)
      ensures fresh(rooms.Values - old(rooms.Values))
      ensures forall r :: RoomState(r) == if r == room then Joined(old(RoomState(r)), p).0 else old(RoomState(r))
    {
      if room in rooms {
        added := rooms[room].Add(p);
      } else {
        var ps := new Participants();
        added := ps.Add(p);
        rooms := rooms[room := ps];
      }
    }

    /** The loop body of lines 148-152: a room in which nothing is left is dropped. */
    method CleanRoom(room: string, now: int)
      requires Valid() && room in rooms
      modifies this`rooms, rooms[room]
      ensures RoomState(room) == Cleaned(old(RoomState(room)), now)
      ensures rooms == old(rooms) || rooms == old(rooms) - {room}
    {
      var empty := rooms[room].Clean(now);
      if empty {
        rooms := rooms - {room};
      }
    }

    /** The loop of lines 148-152. */
    method CleanAll(now: int)
      requires Valid()
      modifies this`rooms, rooms.Values
      ensures Valid() && rooms.Values <= old(rooms.Values)
      ensures forall r :: RoomState(r) == Cleaned(old(RoomState(r)), now)
    {
      assert Cleaned(NOBODY, now) == NOBODY;
      hide Cleaned;
      var names := rooms.Keys;
      while names != {}
        invariant Valid() && names <= rooms.Keys <= old(rooms.Keys)
        invariant forall r | r in rooms :: rooms[r] == old(rooms[r])
        invariant forall r | r in names :: rooms[r].State() == old(rooms[r].State())
        invariant forall r | r in old(rooms) && r !in names :: RoomState(r) == Cleaned(old(RoomState(r)), now)
        decreases names
      {
        var room :| room in names;
        CleanRoom(room, now);
        names := names - {room};
      }
    }

    /** Every tenth call purges tombstones in all rooms and drops rooms left without any
        content.  Dropping a room does not change what is known about it. */
    method Clean(now: int)
      requires Valid()
      modifies this, rooms.Values
      ensures Valid() && iter == old(iter) + 1 && rooms.Values <= old(rooms.Values)
      ensures forall r :: RoomState(r) == if iter % 10 == 0 then Cleaned(old(RoomState(r)), now) else old(RoomState(r))
    {
      hide Cleaned;
      iter := iter + 1;
      if iter % 10 == 0 { CleanAll(now); }
    }

    /** The part of `ProcessLeaveCbs` that concerns the room. */
    method Leave(room: string, key: Key, jid: u32, now: int) returns (gone: Option<Participant>)
      requires Valid()
      modifies this`rooms, rooms.Values
      ensures Valid() && gone == Departed(old(RoomState(room)), key, jid, now).1
      ensures fresh(rooms.Values - old(rooms.Values))
      ensures forall r ::
                RoomState(r) == if r == room then Departed(old(RoomState(r)), key, jid, now).0 else old(RoomState(r))
    {
      hide Departed;
      if room in rooms {
        gone := rooms[room].Remove(key, jid, now);
      } else {
        var ps := new Participants();
        gone := ps.Remove(key, jid, now);
        rooms := rooms[room := ps];
      }
    }

    method ProcessLeave(room: string, key: Key, jid: u32, now: int) returns (gone: Option<Participant>)
      requires Valid()
      modifies this, rooms.Values
      ensures Valid() && gone == Departed(old(RoomState(room)), key, jid, now).1 && iter == old(iter) + 1
      ensures fresh(rooms.Values - old(rooms.Values))
      ensures forall r ::
                var m := if r == room then Departed(old(RoomState(r)), key, jid, now).0 else old(RoomState(r));
                RoomState(r) == if iter % 10 == 0 then Cleaned(m, now) else m
    {
      hide Departed, Cleaned;
      gone := Leave(room, key, jid, now);
      Clean(now);
    }

    /** Any sequence of messages on a new box: what is known about each room is what its
        messages and the clean-ups leave, and membership is right for every key of which no
        join was misled. */
    method Process(msgs: seq<Message>)
      requires Valid() && iter == 0 && forall r :: RoomState(r) == NOBODY
      modifies this, rooms.Values
      ensures Valid() && iter == LeavesIn(msgs)
      ensures forall r :: RoomState(r) == After(OpsOf(msgs, r))
      ensures forall r, key | Harmless(OpsOf(msgs, r), key) ::
                Right(RoomState(r), key, MaxJoin(OpsOf(msgs, r), key), MaxLeave(OpsOf(msgs, r), key))
    {
      hide After, OpsOf, LeavesIn, Right, Harmless, MaxJoin, MaxLeave, Step;
      var i := 0;
      NoOps();
      assert msgs[..0] == [];
      while i < |msgs|
        invariant 0 <= i <= |msgs| && Valid() && iter == LeavesIn(msgs[..i])
        invariant fresh(rooms.Values - old(rooms.Values))
        invariant forall r :: RoomState(r) == After(OpsOf(msgs[..i], r))
      {
        var m := msgs[i];
        ghost var before := msgs[..i];
        assert msgs[..i + 1] == before + [m];
        ProcessOne(m, before);
        i := i + 1;
      }
      assert msgs[..i] == msgs;
      forall r, key | Harmless(OpsOf(msgs, r), key)
        ensures Right(RoomState(r), key, MaxJoin(OpsOf(msgs, r), key), MaxLeave(OpsOf(msgs, r), key))
      {
        Converges(OpsOf(msgs, r), key);
      }
    }

    method ProcessOne(m: Message, ghost before: seq<Message>)
      requires Valid() && iter == LeavesIn(before) && forall r :: RoomState(r) == After(OpsOf(before, r))
      modifies this, rooms.Values
      ensures Valid() && iter == LeavesIn(before + [m]) && fresh(rooms.Values - old(rooms.Values))
      ensures forall r :: RoomState(r) == After(OpsOf(before + [m], r))
    {
      hide After, OpsOf, LeavesIn, Joined, Departed, Cleaned;
      OneMessage(before, m, "");
      forall r
        ensures After(OpsOf(before + [m], r)) == Received(After(OpsOf(before, r)), m, LeavesIn(before + [m]), r)
      {
        OneMessage(before, m, r);
      }
      match m {
        case Arrive(room, p) => var _ := ProcessJoin(room, p);
        case Depart(room, key, jid, now) => var _ := ProcessLeave(room, key, jid, now);
      }
    }
  }

  /** The messages a box receives. */
  datatype Message = Arrive(room: string, p: Participant) | Depart(room: string, key: Key, jid: u32, now: int)

  function LeavesIn(msgs: seq<Message>): nat {
    if msgs == [] then 0 else LeavesIn(msgs[..|msgs| - 1]) + if msgs[|msgs| - 1].Depart? then 1 else 0
  }

  /** What a message does in room `r`, as the `n`th leave if it is one. */
  function Effect(m: Message, n: nat, r: string): seq<Op> {
    match m
    case Arrive(room, p) => if r == room then [Joining(p)] else []
    case Depart(room, key, jid, now) =>
      (if r == room then [Leaving(key, jid, now)] else []) + (if n % 10 == 0 then [Cleaning(now)] else [])
  }

  /** The operations on one room: its joins and leaves, and a clean-up at every tenth leave. */
  function OpsOf(msgs: seq<Message>, r: string): seq<Op> {
    if msgs == [] then []
    else OpsOf(msgs[..|msgs| - 1], r) + Effect(msgs[|msgs| - 1], LeavesIn(msgs), r)
  }

  lemma NoOps()
    ensures LeavesIn([]) == 0 && forall r :: After(OpsOf([], r)) == NOBODY
  {}

  lemma AfterSnoc(ops: seq<Op>, op: Op)
    ensures After(ops + [op]) == Step(After(ops), op)
  {
    assert (ops + [op])[..|ops|] == ops;
  }

  /** The state of room `r` after the message, the `n`th leave if it is one. */
  function Received(a: Members, m: Message, n: nat, r: string): Members {
    match m
    case Arrive(room, p) => if r == room then Joined(a, p).0 else a
    case Depart(room, key, jid, now) =>
      var b := if r == room then Departed(a, key, jid, now).0 else a;
      if n % 10 == 0 then Cleaned(b, now) else b
  }

  /** One more message, room by room. */
  lemma OneMessage(before: seq<Message>, m: Message, r: string)
    ensures LeavesIn(before + [m]) == LeavesIn(before) + if m.Depart? then 1 else 0
    ensures After(OpsOf(before + [m], r)) == Received(After(OpsOf(before, r)), m, LeavesIn(before + [m]), r)
  {
    hide Joined, Departed, Cleaned, After;
    var all, ops := before + [m], OpsOf(before, r);
    assert all[..|before|] == before && all[|before|] == m;
    match m
    case Arrive(room, p) =>
      assert OpsOf(all, r) == if r == room then ops + [Joining(p)] else ops;
      AfterSnoc(ops, Joining(p));
    case Depart(room, key, jid, now) =>
      var mid := if r == room then ops + [Leaving(key, jid, now)] else ops;
      assert OpsOf(all, r) == if LeavesIn(all) % 10 == 0 then mid + [Cleaning(now)] else mid;
      AfterSnoc(ops, Leaving(key, jid, now));
      AfterSnoc(mid, Cleaning(now));
  }
}
