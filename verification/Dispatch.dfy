/** Subscriptions of one node and the dispatch of a message to its callbacks.  The ten kinds
    of cluster message differ in their payload only; one of them is modelled. */
module Dispatch {
  import opened Outcomes
  import opened RoomPattern
  import opened PatternIndex

  type Fun = nat

  /** The callbacks registered under one pattern, by id. */
  type Boxes = map<string, Fun>

  datatype Router = Router(room: string, nodeFrom: string, nodeTo: string)

  datatype Message = Message(router: Option<Router>, body: nat)

  // ---------------------------------------------------------------- subscriptions

  function Register(id: string, fun: Fun, was: Option<Boxes>): Option<Boxes> {
    Some((if was.Some? then was.value else map[])[id := fun])
  }

  /** An absent pattern is "removed"; a present one stays, possibly without callbacks. */
  function Unregister(id: string, was: Option<Boxes>): Option<Boxes> {
    if was.Some? then Some(was.value - {id}) else None
  }

  /** The callback registered for `id` under `pattern`. */
  ghost function Registered(entries: map<string, Boxes>, pattern: string, id: string): Option<Fun> {
    if pattern in entries && id in entries[pattern] then Some(entries[pattern][id]) else None
  }

  /** From `before` to `after`, `id` was set to `fun` under each of the patterns. */
  ghost predicate Rewired(before: map<string, Boxes>, after: map<string, Boxes>, patterns: seq<string>,
                          id: string, fun: Option<Fun>)
  {
    forall p, x :: Registered(after, p, x) ==
      (if x == id && p in patterns then fun else Registered(before, p, x))
  }

  /** The place of the first pattern on which registration panics; `|patterns|` if none. */
  function FirstInvalid(patterns: seq<string>): (k: nat)
    ensures k <= |patterns|
    ensures forall i | 0 <= i < k :: ValidPattern(patterns[i])
    ensures k < |patterns| ==> !ValidPattern(patterns[k])
  {
    if patterns == [] || !ValidPattern(patterns[0]) then 0 else FirstInvalid(patterns[1..]) + 1
  }

  lemma Unwired(entries: map<string, Boxes>, id: string, fun: Option<Fun>)
    ensures Rewired(entries, entries, [], id, fun)
  {}

  lemma RewireOne(before: map<string, Boxes>, mid: map<string, Boxes>, done: seq<string>, p: string,
                  id: string, fun: Option<Fun>)
    requires Rewired(before, mid, done, id, fun)
    ensures var was := Entry(mid, p);
            Rewired(before, Updated(mid, p, if fun.Some? then Register(id, fun.value, was) else Unregister(id, was)),
                    done + [p], id, fun)
  {
    var was := Entry(mid, p);
    var after := Updated(mid, p, if fun.Some? then Register(id, fun.value, was) else Unregister(id, was));
    forall q, x ensures Registered(after, q, x) ==
        (if x == id && q in done + [p] then fun else Registered(before, q, x)) {
      assert Registered(mid, q, x) == (if x == id && q in done then fun else Registered(before, q, x));
    }
  }

  ghost predicate Matches(entries: map<string, Boxes>, room: string, id: string, pattern: string) {
    Registered(entries, pattern, id).Some? && Matching(pattern, room) == Says(true)
  }

  /** The ids registered under some pattern that matches the room. */
  ghost function Targets(entries: map<string, Boxes>, room: string): set<string> {
    set p, id | p in entries && id in entries[p] && Matches(entries, room, id, p) :: id
  }

  datatype Consumption = Ignored | Crashed | Called(callbacks: map<string, Fun>)

  /** `msg` makes the node `name` with these subscriptions start exactly one callback for each
      target id, if it is for this node at all. */
  ghost predicate Consumes(name: string, entries: map<string, Boxes>, msg: Message, c: Consumption) {
    if msg.router.None? || msg.router.value.room == "" then c == Ignored
    else
      var r := msg.router.value;
      if r.nodeTo != "" && r.nodeTo != name then c == Ignored
      else if !ValidRoom(r.room) then c == Crashed
      else
        && c.Called? && c.callbacks.Keys == Targets(entries, r.room)
        && forall id | id in c.callbacks ::
             exists p :: Matches(entries, r.room, id, p) && Registered(entries, p, id) == Some(c.callbacks[id])
  }

  /** The one way in which a message that its sender sent can make a reader panic: it names
      that reader, and not the sender, and the room is not a valid one.  The sender looks at
      `NodeTo` before it looks at the room. */
  predicate Poisons(r: Router, name: string) {
    r.nodeTo == name && r.nodeTo != "" && r.nodeTo != r.nodeFrom && !ValidRoom(r.room)
  }

  /** A message as `Emit` lets it go: the sender has put in its name and did not panic. */
  predicate Sendable(msg: Message) {
    && msg.router.Some? && msg.router.value.room != ""
    && (var r := msg.router.value; r.nodeTo == "" || r.nodeTo == r.nodeFrom ==> ValidRoom(r.room))
  }

  /** The message is not for this node. */
  predicate Elsewhere(r: Router, name: string) { r.nodeTo != "" && r.nodeTo != name }

  /** What came of a message at a node: a panic exactly if it poisons, nothing exactly if it is
      for another node, and otherwise one callback for each target id. */
  ghost predicate Delivers(name: string, entries: map<string, Boxes>, r: Router, c: Consumption) {
    && (c.Crashed? <==> Poisons(r, name))
    && (c.Ignored? <==> Elsewhere(r, name))
    && (c.Called? ==> CallsTargets(entries, r.room, c.callbacks))
  }

  ghost predicate CallsTargets(entries: map<string, Boxes>, room: string, callbacks: map<string, Fun>) {
    && callbacks.Keys == Targets(entries, room)
    && forall id | id in callbacks ::
         exists p :: Matches(entries, room, id, p) && Registered(entries, p, id) == Some(callbacks[id])
  }

  /** A message that the sender could consume is sendable, and only such a one. */
  lemma SentIff(name: string, entries: map<string, Boxes>, msg: Message, local: Consumption)
    requires msg.router.Some? && msg.router.value.room != ""
    requires Consumes(name, entries, Stamped(name, msg), local)
    ensures !local.Crashed? <==> Sendable(Stamped(name, msg))
  {}

  /** Wherever a sent message is consumed, what comes of it is known from its router. */
  lemma OutcomeOf(name: string, entries: map<string, Boxes>, msg: Message, c: Consumption)
    requires Sendable(msg) && Consumes(name, entries, msg, c)
    ensures Delivers(name, entries, msg.router.value, c)
  {
    hide Targets, Matches;
  }

  /** The conditions under which `Emit` returns an error at once. */
  predicate Refuses(name: string, msg: Message) {
    msg.router.None? || msg.router.value.room == "" || msg.router.value.nodeFrom !in {"", name}
  }

  datatype Emission = Refused | Failed | Sent(msg: Message, local: Consumption)

  /** The message as it goes into the log: `NodeFrom` is filled in. */
  function Stamped(name: string, msg: Message): Message
    requires msg.router.Some?
  {
    msg.(router := Some(msg.router.value.(nodeFrom := name)))
  }

  class Messager {
    const nodeName: string
    const callbacks: PatternMap<Boxes>

    ghost predicate Valid()
      reads this, callbacks
    {
      callbacks.Valid()
    }

    constructor (nodeName: string)
      ensures Valid() && this.nodeName == nodeName && callbacks.entries == map[] && fresh(callbacks)
    {
      this.nodeName := nodeName;
      callbacks := new PatternMap<Boxes>();
    }

    /** Registers one callback under several patterns.  It stops with a panic at the first
        invalid one, the earlier ones being registered already. */
    method OnMessage(id: string, fun: Fun, patterns: seq<string>) returns (ok: bool)
      requires Valid()
      modifies callbacks
      ensures Valid() && ok == (FirstInvalid(patterns) == |patterns|)
      ensures Rewired(old(callbacks.entries), callbacks.entries, patterns[..FirstInvalid(patterns)], id, Some(fun))
    {
      hide ValidPattern, Rewired;
      Unwired(callbacks.entries, id, Some(fun));
      var i := 0;
      while i < |patterns|
        invariant 0 <= i <= |patterns| && Valid()
        invariant forall j | 0 <= j < i :: ValidPattern(patterns[j])
        invariant Rewired(old(callbacks.entries), callbacks.entries, patterns[..i], id, Some(fun))
      {
        RewireOne(old(callbacks.entries), callbacks.entries, patterns[..i], patterns[i], id, Some(fun));
        var good := callbacks.UpdatePatternData(patterns[i], was => Register(id, fun, was));
        if !good {
          assert FirstInvalid(patterns) == i;
          return false;
        }
        assert patterns[..i] + [patterns[i]] == patterns[..i + 1];
        i := i + 1;
      }
      assert patterns[..i] == patterns;
      return true;
    }

    /** Removes the callback from several patterns, with the same panic. */
    method OffMessage(id: string, patterns: seq<string>) returns (ok: bool)
      requires Valid()
      modifies callbacks
      ensures Valid() && ok == (FirstInvalid(patterns) == |patterns|)
      ensures Rewired(old(callbacks.entries), callbacks.entries, patterns[..FirstInvalid(patterns)], id, None)
    {
      hide ValidPattern, Rewired;
      Unwired(callbacks.entries, id, None);
      var i := 0;
      while i < |patterns|
        invariant 0 <= i <= |patterns| && Valid()
        invariant forall j | 0 <= j < i :: ValidPattern(patterns[j])
        invariant Rewired(old(callbacks.entries), callbacks.entries, patterns[..i], id, None)
      {
        RewireOne(old(callbacks.entries), callbacks.entries, patterns[..i], patterns[i], id, None);
        var good := callbacks.UpdatePatternData(patterns[i], was => Unregister(id, was));
        if !good {
          assert FirstInvalid(patterns) == i;
          return false;
        }
        assert patterns[..i] + [patterns[i]] == patterns[..i + 1];
        i := i + 1;
      }
      assert patterns[..i] == patterns;
      return true;
    }

    method ConsumeMessage(msg: Message) returns (c: Consumption)
      requires Valid()
      ensures Consumes(nodeName, callbacks.entries, msg, c)
    {
      if msg.router.None? || msg.router.value.room == "" { return Ignored; }
      var target := msg.router.value;
      if target.nodeTo != "" && target.nodeTo != nodeName { return Ignored; }
      var found := callbacks.Collect(target.room);
      if found.None? { return Crashed; }
      var bm: map<string, Fun> := map[];
      ghost var entries := callbacks.entries;
      assert Reports(entries, target.room, found.value);
      hide Reports, Matching, Targets;
      var i := 0;
      while i < |found.value|
        invariant 0 <= i <= |found.value| && Merged(found.value[..i], bm)
      {
        MergeOne(found.value[..i], bm, found.value[i]);
        bm := bm + found.value[i];
        assert found.value[..i] + [found.value[i]] == found.value[..i + 1];
        i := i + 1;
      }
      assert found.value[..i] == found.value;
      OneCallbackPerTarget(entries, target.room, found.value, bm);
      return Called(bm);
    }

    /** `Emit`: the message is consumed here at once; `Sent` carries the record to append. */
    method Emit(msg: Message) returns (e: Emission)
      requires Valid()
      ensures e.Refused? <==> Refuses(nodeName, msg)
      ensures e.Sent? ==>
                && e.msg == Stamped(nodeName, msg) && !e.local.Crashed?
                && Consumes(nodeName, callbacks.entries, e.msg, e.local)
      ensures e.Failed? ==> Consumes(nodeName, callbacks.entries, Stamped(nodeName, msg), Crashed)
    {
      if msg.router.None? || msg.router.value.room == "" { return Refused; }
      var target := msg.router.value;
      if target.nodeFrom != "" && target.nodeFrom != nodeName { return Refused; }
      var stamped := msg;
      if target.nodeFrom == "" {
        stamped := msg.(router := Some(target.(nodeFrom := nodeName)));
      }
      var c := ConsumeMessage(stamped);
      if c.Crashed? { return Failed; }
      return Sent(stamped, c);
    }

    /** A record read from the log: a message this node emitted itself was consumed already.
        One without a router is reported, and then dereferenced all the same. */
    method OnTopic(msg: Message) returns (c: Consumption)
      requires Valid()
      ensures if msg.router.None? then c == Crashed
              else if msg.router.value.nodeFrom == nodeName then c == Ignored
              else Consumes(nodeName, callbacks.entries, msg, c)
    {
      if msg.router.None? { return Crashed; }
      if msg.router.value.nodeFrom != nodeName {
        c := ConsumeMessage(msg);
      } else {
        c := Ignored;
      }
    }
  }

  /** `Collect` reported the boxes of exactly the matching patterns. */
  ghost predicate Reports(entries: map<string, Boxes>, room: string, found: seq<Boxes>) {
    forall v :: v in found <==> exists p :: p in entries && entries[p] == v && Matching(p, room) == Says(true)
  }

  ghost predicate GivenBy(found: seq<Boxes>, id: string, fun: Fun, j: nat) {
    j < |found| && id in found[j] && found[j][id] == fun
  }

  /** `bm` results from writing the boxes into it one after the other. */
  ghost predicate Merged(found: seq<Boxes>, bm: map<string, Fun>) {
    && (forall j, id | 0 <= j < |found| && id in found[j] :: id in bm)
    && (forall id | id in bm :: exists j: nat :: GivenBy(found, id, bm[id], j))
  }

  lemma MergeOne(found: seq<Boxes>, bm: map<string, Fun>, boxes: Boxes)
    requires Merged(found, bm)
    ensures Merged(found + [boxes], bm + boxes)
  {
    var all, m := found + [boxes], bm + boxes;
    assert all[|found|] == boxes;
    forall id | id in m ensures exists j: nat :: GivenBy(all, id, m[id], j) {
      if id in boxes {
        assert GivenBy(all, id, m[id], |found|);
      } else {
        var j: nat :| GivenBy(found, id, bm[id], j);
        assert GivenBy(all, id, m[id], j);
      }
    }
  }

  lemma KeyHasSource(entries: map<string, Boxes>, room: string, found: seq<Boxes>, bm: map<string, Fun>, id: string)
    requires Reports(entries, room, found) && Merged(found, bm) && id in bm
    ensures exists p :: Matches(entries, room, id, p) && Registered(entries, p, id) == Some(bm[id])
  {
    hide Matching;
    var j: nat :| GivenBy(found, id, bm[id], j);
    assert found[j] in found;
    var p :| p in entries && entries[p] == found[j] && Matching(p, room) == Says(true);
    assert Matches(entries, room, id, p) && Registered(entries, p, id) == Some(bm[id]);
  }

  lemma SourceHasKey(entries: map<string, Boxes>, room: string, found: seq<Boxes>, bm: map<string, Fun>,
                     id: string, p: string)
    requires Reports(entries, room, found) && Merged(found, bm) && Matches(entries, room, id, p)
    ensures id in bm
  {
    hide Matching;
    assert entries[p] in found;
  }

  /** Merging the boxes of all reported patterns leaves one callback per target id, however
      often a pattern was reported. */
  lemma OneCallbackPerTarget(entries: map<string, Boxes>, room: string, found: seq<Boxes>, bm: map<string, Fun>)
    requires Reports(entries, room, found) && Merged(found, bm)
    ensures bm.Keys == Targets(entries, room)
    ensures forall id | id in bm ::
              exists p :: Matches(entries, room, id, p) && Registered(entries, p, id) == Some(bm[id])
  {
    hide Matching, Matches, Merged, Reports;
    forall id | id in bm
      ensures exists p :: Matches(entries, room, id, p) && Registered(entries, p, id) == Some(bm[id])
    {
      KeyHasSource(entries, room, found, bm, id);
    }
    forall id ensures id in bm <==> id in Targets(entries, room) {
      TargetMeans(entries, room, id);
      if p :| Matches(entries, room, id, p) { SourceHasKey(entries, room, found, bm, id, p); }
    }
  }

  lemma TargetMeans(entries: map<string, Boxes>, room: string, id: string)
    ensures id in Targets(entries, room) <==> exists p :: Matches(entries, room, id, p)
  {}
}
