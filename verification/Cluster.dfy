/** Several nodes and the log between them.  Every node reads every record once, in any
    order; subscriptions may change at any time.  A node that panicked may take no further
    action; runs in which it is started again are included. */
module Cluster {
  import opened Outcomes
  import opened Octets
  import opened RoomPattern
  import opened Dispatch

  /** `read` are the records this node has taken from the log. */
  datatype Node = Node(entries: map<string, Boxes>, read: set<nat>)

  /** A node consumed a message; `record` is its place in the log, unless it never got there. */
  datatype Event = Event(node: string, record: Option<nat>, entries: map<string, Boxes>, outcome: Consumption)

  datatype State = State(nodes: map<string, Node>, log: seq<Message>, events: seq<Event>)

  datatype Action =
    | Resubscribe(node: string, entries: map<string, Boxes>)
    | Emit(node: string, msg: Message, local: Consumption, produced: bool)
    | Read(node: string, k: nat, outcome: Consumption)

  predicate Start(s: State) {
    s.log == [] && s.events == [] && forall x | x in s.nodes :: s.nodes[x].read == {}
  }

  /** The action can happen: what it consumes is what the dispatch of that node computes.  A
      sender that panics on its own message puts nothing into the log. */
  ghost predicate Enabled(s: State, a: Action) {
    && a.node in s.nodes
    && match a
       case Resubscribe(_, _) => true
       case Emit(x, msg, local, produced) =>
         && msg.router.Some? && msg.router.value.room != "" && msg.router.value.nodeFrom in {"", x}
         && Consumes(x, s.nodes[x].entries, Stamped(x, msg), local)
         && (local.Crashed? ==> !produced)
       case Read(x, k, outcome) =>
         && k < |s.log| && k !in s.nodes[x].read && s.log[k].router.Some?
         && (s.log[k].router.value.nodeFrom != x ==> Consumes(x, s.nodes[x].entries, s.log[k], outcome))
  }

  ghost function Apply(s: State, a: Action): State
    requires Enabled(s, a)
  {
    var n := s.nodes[a.node];
    match a
    case Resubscribe(x, entries) => s.(nodes := s.nodes[x := n.(entries := entries)])
    case Emit(x, msg, local, produced) =>
      s.(log := if produced then s.log + [Stamped(x, msg)] else s.log,
         events := s.events + [Event(x, if produced then Some(|s.log|) else None, n.entries, local)])
    case Read(x, k, outcome) =>
      s.(nodes := s.nodes[x := n.(read := n.read + {k})],
         events := if s.log[k].router.value.nodeFrom == x then s.events
                   else s.events + [Event(x, Some(k), n.entries, outcome)])
  }

  /** The actions can happen one after the other and lead from `s` to `t`. */
  ghost predicate Leads(s: State, actions: seq<Action>, t: State)
    decreases |actions|
  {
    if actions == [] then t == s
    else Enabled(s, actions[0]) && Leads(Apply(s, actions[0]), actions[1..], t)
  }

  lemma {:induction false} LeadsOn(s: State, actions: seq<Action>, t: State, a: Action)
    requires Leads(s, actions, t) && Enabled(t, a)
    ensures Leads(s, actions + [a], Apply(t, a))
    decreases |actions|
  {
    hide Enabled, Apply;
    var all := actions + [a];
    if actions == [] {
      assert all[0] == a && all[1..] == [];
    } else {
      assert all[0] == actions[0] && all[1..] == actions[1..] + [a];
      LeadsOn(Apply(s, actions[0]), actions[1..], t, a);
    }
  }

  /** How often node `x` consumed record `k`. */
  function Times(events: seq<Event>, x: string, k: nat): nat {
    if events == [] then 0
    else
      var e := events[|events| - 1];
      Times(events[..|events| - 1], x, k) + if e.node == x && e.record == Some(k) then 1 else 0
  }

  lemma TimesSnoc(events: seq<Event>, e: Event, x: string, k: nat)
    ensures Times(events + [e], x, k) ==
              Times(events, x, k) + if e.node == x && e.record == Some(k) then 1 else 0
  {
    assert (events + [e])[..|events|] == events;
  }

  /** The sender has consumed a record when it emitted it, any other node when it read it. */
  predicate Due(s: State, x: string, k: nat)
    requires x in s.nodes && k < |s.log|
  {
    (s.log[k].router.Some? && s.log[k].router.value.nodeFrom == x) || k in s.nodes[x].read
  }

  ghost predicate CountsRight(s: State) {
    forall x, k: nat | x in s.nodes :: CountRight(s, x, k)
  }

  /** The event was a consumption of its record, with the outcome that the router decides. */
  ghost predicate EventRight(s: State, e: Event) {
    && e.node in s.nodes
    && (e.record.Some? ==>
          && e.record.value < |s.log| && s.log[e.record.value].router.Some?
          && Delivers(e.node, e.entries, s.log[e.record.value].router.value, e.outcome))
  }

  ghost predicate EventsRight(s: State) {
    forall i | 0 <= i < |s.events| :: EventRight(s, s.events[i])
  }

  ghost predicate LogRight(s: State) {
    && (forall x, k | x in s.nodes && k in s.nodes[x].read :: k < |s.log|)
    && (forall k | 0 <= k < |s.log| :: Sendable(s.log[k]))
  }

  ghost predicate Consistent(s: State) {
    CountsRight(s) && EventsRight(s) && LogRight(s)
  }

  /** The count for one node and one record. */
  ghost predicate CountRight(s: State, x: string, k: nat)
    requires x in s.nodes
  {
    Times(s.events, x, k) == if k < |s.log| && Due(s, x, k) then 1 else 0
  }

  lemma EmitCounts(s: State, a: Action, x: string, k: nat)
    requires LogRight(s) && a.Emit? && Enabled(s, a) && x in s.nodes && CountRight(s, x, k)
    ensures CountRight(Apply(s, a), x, k)
  {
    hide Consumes, Sendable, Times;
    var t := Apply(s, a);
    TimesSnoc(s.events, t.events[|s.events|], x, k);
  }

  lemma ReadCounts(s: State, a: Action, x: string, k: nat)
    requires LogRight(s) && a.Read? && Enabled(s, a) && x in s.nodes && CountRight(s, x, k)
    ensures CountRight(Apply(s, a), x, k)
  {
    hide Consumes, Sendable, Times;
    var t := Apply(s, a);
    if t.events != s.events { TimesSnoc(s.events, t.events[|s.events|], x, k); }
  }

  lemma ApplyCounts(s: State, a: Action)
    requires Consistent(s) && Enabled(s, a)
    ensures CountsRight(Apply(s, a))
  {
    var t := Apply(s, a);
    assert t.nodes.Keys == s.nodes.Keys;
    hide Consumes, EventsRight, LogRight, Times;
    forall x, k: nat | x in t.nodes ensures CountRight(t, x, k) {
      assert CountRight(s, x, k);
      match a
      case Resubscribe(_, _) =>
      case Emit(_, _, _, _) => EmitCounts(s, a, x, k);
      case Read(_, _, _) => ReadCounts(s, a, x, k);
    }
  }

  lemma ApplyLog(s: State, a: Action)
    requires Consistent(s) && Enabled(s, a)
    ensures LogRight(Apply(s, a))
  {
    hide Consumes, EventsRight, CountsRight, Sendable;
    if a.Emit? { SentIff(a.node, s.nodes[a.node].entries, a.msg, a.local); }
  }

  /** The last event, if the action added one. */
  lemma NewEvent(s: State, a: Action)
    requires Consistent(s) && Enabled(s, a)
    ensures var t := Apply(s, a);
            |t.events| > |s.events| ==> EventRight(t, t.events[|s.events|])
  {
    hide Consumes, EventsRight, CountsRight, Sendable, Delivers;
    match a
    case Resubscribe(_, _) =>
    case Emit(x, msg, local, produced) =>
      SentIff(x, s.nodes[x].entries, msg, local);
      if produced { OutcomeOf(x, s.nodes[x].entries, Stamped(x, msg), local); }
    case Read(x, k, outcome) =>
      if s.log[k].router.value.nodeFrom != x { OutcomeOf(x, s.nodes[x].entries, s.log[k], outcome); }
  }

  lemma ApplyConsistent(s: State, a: Action)
    requires Consistent(s) && Enabled(s, a)
    ensures Consistent(Apply(s, a))
  {
    var t := Apply(s, a);
    ApplyCounts(s, a);
    ApplyLog(s, a);
    NewEvent(s, a);
    hide CountsRight, LogRight, Delivers, Consumes;
    forall i | 0 <= i < |t.events| ensures EventRight(t, t.events[i]) {
      if i < |s.events| {
        assert t.events[i] == s.events[i] && EventRight(s, s.events[i]);
      }
    }
  }

  /** Over every run, each node consumes each record exactly once: the sender when it emits
      it, every other node when it reads it, and never again. */
  lemma {:induction false} ExactlyOnce(s: State, actions: seq<Action>, t: State)
    requires Consistent(s) && Leads(s, actions, t)
    ensures Consistent(t)
    decreases |actions|
  {
    hide Consistent, Enabled, Apply;
    if actions != [] {
      ApplyConsistent(s, actions[0]);
      ExactlyOnce(Apply(s, actions[0]), actions[1..], t);
    }
  }

  lemma StartConsistent(s: State)
    requires Start(s)
    ensures Consistent(s)
  {}

  /** Once a node has emitted or read a record, there is one event of it consuming that
      record, and no other.  The node panicked exactly if the record names it as the target,
      it is not the sender, and the room is invalid; it started nothing exactly if the record
      is for another node; otherwise it started one callback for each id subscribed at that
      moment under a matching pattern. */
  lemma AllDelivered(s: State, actions: seq<Action>, t: State, x: string, k: nat) returns (i: nat)
    requires Start(s) && Leads(s, actions, t)
    requires x in t.nodes && k < |t.log| && Due(t, x, k)
    ensures Times(t.events, x, k) == 1
    ensures i < |t.events| && t.events[i].node == x && t.events[i].record == Some(k)
    ensures forall j | 0 <= j < |t.events| && t.events[j].node == x && t.events[j].record == Some(k) :: j == i
    ensures t.log[k].router.Some? && Delivers(x, t.events[i].entries, t.log[k].router.value, t.events[i].outcome)
  {
    StartConsistent(s);
    ExactlyOnce(s, actions, t);
    assert CountRight(t, x, k);
    i := OnlyOccurrence(t.events, x, k);
    assert EventRight(t, t.events[i]);
  }

  /** A record for a valid room is never the cause of a panic. */
  lemma ValidRoomDelivered(s: State, actions: seq<Action>, t: State, i: nat)
    requires Start(s) && Leads(s, actions, t)
    requires i < |t.events| && t.events[i].record.Some?
    ensures var e := t.events[i];
            && e.record.value < |t.log| && t.log[e.record.value].router.Some?
            && var r := t.log[e.record.value].router.value;
            && (ValidRoom(r.room) && !Elsewhere(r, e.node) ==>
                  e.outcome.Called? && CallsTargets(e.entries, r.room, e.outcome.callbacks))
  {
    StartConsistent(s);
    ExactlyOnce(s, actions, t);
    assert EventRight(t, t.events[i]);
  }

  /** The panic does happen: node "A" sends a message for an invalid room to node "B", and is
      not troubled itself. */
  lemma PoisonedRead(s: State) returns (actions: seq<Action>, t: State)
    requires Start(s) && "A" in s.nodes && "B" in s.nodes
    ensures Leads(s, actions, t) && |actions| == 2 && actions[0].Emit? && actions[0].local == Ignored
    ensures |t.log| == 1 && |t.events| == 2 && t.events[1].node == "B"
    ensures t.events[1].record == Some(0) && t.events[1].outcome == Crashed
  {
    var msg := Message(Some(Router("a..b", "", "B")), 0);
    var send := Emit("A", msg, Ignored, true);
    var read := Read("B", 0, Crashed);
    assert !ValidRoom("a..b") by { assert OccursAt("a..b", "..", 1); }
    hide ValidRoom;
    assert Enabled(s, send);
    var mid := Apply(s, send);
    assert Enabled(mid, read);
    t := Apply(mid, read);
    actions := [send, read];
    hide Enabled, Apply;
    assert Leads(s, [], s) && Leads(s, [] + [send], mid) by { LeadsOn(s, [], s, send); }
    LeadsOn(s, [] + [send], mid, read);
    assert [] + [send] + [read] == actions;
  }

  lemma {:induction false} OnlyOccurrence(events: seq<Event>, x: string, k: nat) returns (i: nat)
    requires Times(events, x, k) == 1
    ensures i < |events| && events[i].node == x && events[i].record == Some(k)
    ensures forall j | 0 <= j < |events| && events[j].node == x && events[j].record == Some(k) :: j == i
  {
    var n := |events| - 1;
    if events[n].node == x && events[n].record == Some(k) {
      i := n;
      NoOccurrence(events[..n], x, k);
      assert forall j | 0 <= j < n :: events[j] == events[..n][j];
    } else {
      i := OnlyOccurrence(events[..n], x, k);
      assert forall j | 0 <= j < n :: events[j] == events[..n][j];
    }
  }

  lemma {:induction false} NoOccurrence(events: seq<Event>, x: string, k: nat)
    requires Times(events, x, k) == 0
    ensures forall j | 0 <= j < |events| :: !(events[j].node == x && events[j].record == Some(k))
  {
    if events != [] {
      var n := |events| - 1;
      NoOccurrence(events[..n], x, k);
      assert forall j | 0 <= j < n :: events[j] == events[..n][j];
    }
  }
}
