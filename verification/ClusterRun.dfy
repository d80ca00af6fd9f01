/** Real `Messager` objects connected by a log: whatever is done to them is a run of `Cluster`. */
module ClusterRun {
  import opened Outcomes
  import opened RoomPattern
  import opened PatternIndex
  import opened Dispatch
  import C = Cluster

  datatype Command =
    | Subscribe(node: string, id: string, fun: Fun, patterns: seq<string>)
    | Unsubscribe(node: string, id: string, patterns: seq<string>)
    | Send(node: string, msg: Message, reachable: bool)
    | Receive(node: string, k: nat)

  /** The command has an effect: `Emit` does not refuse, the record is there and new. */
  predicate Possible(s: C.State, c: Command) {
    && c.node in s.nodes
    && match c
       case Send(x, msg, _) => !Refuses(x, msg)
       case Receive(x, k) => k < |s.log| && k !in s.nodes[x].read
       case _ => true
  }

  /** The subscriptions changed as the command says, up to the first invalid pattern. */
  ghost predicate RewiredBy(c: Command, before: map<string, Boxes>, after: map<string, Boxes>) {
    match c
    case Subscribe(_, id, fun, patterns) =>
      Rewired(before, after, patterns[..FirstInvalid(patterns)], id, Some(fun))
    case Unsubscribe(_, id, patterns) =>
      Rewired(before, after, patterns[..FirstInvalid(patterns)], id, None)
    case _ => false
  }

  /** The action of the model that a command stands for. */
  ghost predicate Stands(s: C.State, c: Command, a: C.Action)
    requires Possible(s, c)
  {
    && C.Enabled(s, a)
    && match c
       case Subscribe(x, _, _, _) =>
         a.Resubscribe? && a.node == x && RewiredBy(c, s.nodes[x].entries, a.entries)
       case Unsubscribe(x, _, _) =>
         a.Resubscribe? && a.node == x && RewiredBy(c, s.nodes[x].entries, a.entries)
       case Send(x, msg, reachable) =>
         a.Emit? && a.node == x && a.msg == msg && a.produced == (reachable && !a.local.Crashed?)
       case Receive(x, k) =>
         a.Read? && a.node == x && a.k == k
  }

  /** The command leads from `s` to `t`; one without effect is passed over. */
  ghost predicate Leads(s: C.State, c: Command, t: C.State) {
    if Possible(s, c) then exists a :: Stands(s, c, a) && t == C.Apply(s, a) else t == s
  }

  ghost predicate AllLead(s: C.State, commands: seq<Command>, t: C.State) {
    if commands == [] then t == s
    else
      var n := |commands| - 1;
      exists m :: AllLead(s, commands[..n], m) && Leads(m, commands[n], t)
  }

  /** A node consumed a message, which has a place in the log unless it never got there. */
  datatype Happening = Happening(node: string, record: Option<nat>, outcome: Consumption)

  /** What happened, and the subscriptions the node had then, are an event of the model. */
  predicate Same(h: Happening, entries: map<string, Boxes>, e: C.Event) {
    e == C.Event(h.node, h.record, entries, h.outcome)
  }

  predicate SameHappenings(hs: seq<Happening>, held: seq<map<string, Boxes>>, es: seq<C.Event>) {
    |hs| == |held| == |es| && forall i | 0 <= i < |hs| :: Same(hs[i], held[i], es[i])
  }

  lemma OneMore(hs: seq<Happening>, held: seq<map<string, Boxes>>, es: seq<C.Event>,
                h: Happening, entries: map<string, Boxes>, e: C.Event)
    requires SameHappenings(hs, held, es) && Same(h, entries, e)
    ensures SameHappenings(hs + [h], held + [entries], es + [e])
  {}

  /** At most one more happening, at node `x` and with these subscriptions. */
  predicate Noted(x: string, entries: map<string, Boxes>, hs: seq<Happening>, held: seq<map<string, Boxes>>,
                  hs': seq<Happening>, held': seq<map<string, Boxes>>)
  {
    (hs' == hs && held' == held) ||
    (|hs'| == |hs| + 1 && hs'[..|hs|] == hs && hs'[|hs|].node == x && held' == held + [entries])
  }

  lemma NotedBoth(x: string, entries: map<string, Boxes>, hs: seq<Happening>, held: seq<map<string, Boxes>>,
                  h: Happening)
    requires h.node == x
    ensures Noted(x, entries, hs, held, hs, held) && Noted(x, entries, hs, held, hs + [h], held + [entries])
  {}

  class Network {
    const members: map<string, Messager>
    var log: seq<Message>
    var taken: map<string, set<nat>>
    var happened: seq<Happening>
    ghost var held: seq<map<string, Boxes>>  // the subscriptions of the node at each happening
    ghost const first: C.State
    ghost var model: C.State
    ghost var actions: seq<C.Action>

    ghost predicate Apart() {
      && (forall x | x in members :: members[x].nodeName == x)
      && (forall x, y | x in members && y in members && x != y :: members[x].callbacks != members[y].callbacks)
    }

    ghost function Stores(): set<object> {
      set x | x in members :: members[x].callbacks
    }

    /** The subscriptions of every node and the records it has read. */
    ghost predicate Agrees(nodes: map<string, C.Node>)
      reads this`taken, Stores()
    {
      && nodes.Keys == members.Keys == taken.Keys
      && forall x | x in members ::
           members[x].callbacks.Valid() && nodes[x] == C.Node(members[x].callbacks.entries, taken[x])
    }

    /** The objects are in this state. */
    ghost predicate Shows(s: C.State)
      reads this`taken, this`log, this`happened, this`held, Stores()
    {
      Agrees(s.nodes) && log == s.log && SameHappenings(happened, held, s.events)
    }

    /** The objects are in the state of the model, and a run of the model leads there. */
    ghost predicate Valid()
      reads this, Stores()
    {
      Apart() && Shows(model) && C.Start(first) && C.Leads(first, actions, model)
    }

    constructor (members: map<string, Messager>)
      requires forall x | x in members :: members[x].nodeName == x && members[x].Valid()
      requires forall x, y | x in members && y in members && x != y :: members[x].callbacks != members[y].callbacks
      ensures Valid() && this.members == members && log == [] && happened == [] && model == first
    {
      this.members := members;
      log, happened, held := [], [], [];
      taken := map x | x in members :: {};
      ghost var s := C.State(map x | x in members :: C.Node(members[x].callbacks.entries, {}), [], []);
      first, model, actions := s, s, [];
    }

    /** The objects have moved on as the action says. */
    ghost method Follow(c: Command, a: C.Action)
      requires Apart() && C.Start(first) && C.Leads(first, actions, model)
      requires Possible(model, c) && Stands(model, c, a) && Shows(C.Apply(model, a))
      modifies this`model, this`actions
      ensures Valid() && Leads(old(model), c, model)
    {
      hide C.Leads, C.Start, C.Enabled, C.Apply, SameHappenings, Represents;
      assert C.Enabled(model, a) by { StandsEnabled(model, c, a); }
      C.LeadsOn(first, actions, model, a);
      model, actions := C.Apply(model, a), actions + [a];
    }

    /** The change of subscriptions itself. */
    method Rewire(c: Command, ghost nodes: map<string, C.Node>)
      requires Apart() && Agrees(nodes) && c.node in members && (c.Subscribe? || c.Unsubscribe?)
      modifies members[c.node].callbacks
      ensures var x := c.node;
              && x in nodes && RewiredBy(c, nodes[x].entries, members[x].callbacks.entries)
              && Agrees(nodes[x := C.Node(members[x].callbacks.entries, nodes[x].read)])
    {
      hide ValidPattern, Represents, Rewired;
      var m := members[c.node];
      match c {
        case Subscribe(_, id, fun, patterns) => var _ := m.OnMessage(id, fun, patterns);
        case Unsubscribe(_, id, patterns) => var _ := m.OffMessage(id, patterns);
      }
      OneRewired(nodes, c.node);
    }

    /** The subscriptions of one node changed, nothing else. */
    lemma OneRewired(nodes: map<string, C.Node>, x: string)
      requires x in members && nodes.Keys == members.Keys == taken.Keys
      requires members[x].callbacks.Valid() && nodes[x].read == taken[x]
      requires forall y | y in members && y != x ::
                 members[y].callbacks.Valid() && nodes[y] == C.Node(members[y].callbacks.entries, taken[y])
      ensures Agrees(nodes[x := C.Node(members[x].callbacks.entries, nodes[x].read)])
    {
      hide Represents;
    }

    method Register(c: Command)
      requires Valid() && c.node in members && (c.Subscribe? || c.Unsubscribe?)
      modifies this`model, this`actions, members[c.node].callbacks
      ensures Valid() && Leads(old(model), c, model)
    {
      hide C.Leads, C.Start, C.Apply, C.Enabled, RewiredBy, Represents, SameHappenings, Stands, Leads;
      ghost var x := c.node;
      Rewire(c, model.nodes);
      ghost var a := C.Resubscribe(x, members[x].callbacks.entries);
      ResubscribeParts(model, c, members[x].callbacks.entries);
      Follow(c, a);
    }

    /** `Emit` at a node; without a reachable log nothing is appended. */
    method Transmit(x: string, msg: Message, reachable: bool)
      requires Valid() && x in members
      modifies this`log, this`happened, this`held, this`model, this`actions
      ensures Valid() && Leads(old(model), Send(x, msg, reachable), model)
      ensures Noted(x, members[x].callbacks.entries, old(happened), old(held), happened, held)
    {
      hide C.Leads, C.Start, C.Apply, C.Enabled, SameHappenings, Represents, Stands, Consumes;
      var outcome := Offer(x, msg, reachable);
      if outcome.None? { return; }
      hide Leads;
      var produced := !outcome.value.Crashed? && reachable;
      ghost var a := C.Emit(x, msg, outcome.value, produced);
      var h := Happening(x, if produced then Some(|log|) else None, outcome.value);
      Publish(x, h, Stamped(x, msg), produced, model, C.Apply(model, a));
      Follow(Send(x, msg, reachable), a);
    }

    /** What the sender makes of its own message; `None` if it refuses it. */
    method Offer(x: string, msg: Message, ghost reachable: bool) returns (outcome: Option<Consumption>)
      requires Valid() && x in members
      ensures x in model.nodes && model.nodes[x].entries == members[x].callbacks.entries
      ensures outcome.None? <==> !Possible(model, Send(x, msg, reachable))
      ensures outcome.Some? ==>
                var produced := !outcome.value.Crashed? && reachable;
                var a, c := C.Emit(x, msg, outcome.value, produced), Send(x, msg, reachable);
                && C.Enabled(model, a) && Stands(model, c, a)
                && var t := C.Apply(model, a);
                && t.nodes == model.nodes
                && t.log == (if produced then model.log + [Stamped(x, msg)] else model.log)
                && t.events == model.events +
                     [C.Event(x, if produced then Some(|model.log|) else None, model.nodes[x].entries, outcome.value)]
    {
      NodeAt(x);
      hide C.Leads, C.Start, C.Apply, C.Enabled, Consumes, SameHappenings, Represents, Stands;
      var e := members[x].Emit(msg);
      if e.Refused? { return None; }
      outcome := Some(if e.Sent? then e.local else Crashed);
      EmitParts(model, x, msg, outcome.value, reachable);
    }

    /** The record, if there is one, and the happening. */
    method Publish(x: string, h: Happening, record: Message, produced: bool, ghost s: C.State, ghost t: C.State)
      requires x in members && Shows(s) && h.node == x && t.nodes == s.nodes
      requires t.log == if produced then s.log + [record] else s.log
      requires t.events == s.events + [C.Event(x, h.record, members[x].callbacks.entries, h.outcome)]
      modifies this`log, this`happened, this`held
      ensures Shows(t) && Noted(x, members[x].callbacks.entries, old(happened), old(held), happened, held)
    {
      hide SameHappenings, Represents;
      ghost var entries := members[x].callbacks.entries;
      OneMore(happened, held, s.events, h, entries, t.events[|s.events|]);
      if produced { log := log + [record]; }
      happened, held := happened + [h], held + [entries];
    }

    lemma NodesAre()
      requires Agrees(model.nodes)
      ensures model.nodes.Keys == members.Keys == taken.Keys
    {}

    lemma NodeAt(x: string)
      requires Apart() && Agrees(model.nodes) && x in members
      ensures x in model.nodes && x in taken && members[x].Valid() && members[x].nodeName == x
      ensures model.nodes[x] == C.Node(members[x].callbacks.entries, taken[x])
    {}

    /** The node read one more record, nothing else. */
    lemma TakenAgrees(was: map<string, C.Node>, before: map<string, set<nat>>, x: string, k: nat)
      requires x in members && was.Keys == members.Keys == before.Keys
      requires taken == before[x := before[x] + {k}]
      requires forall y | y in members ::
                 members[y].callbacks.Valid() && was[y] == C.Node(members[y].callbacks.entries, before[y])
      ensures Agrees(was[x := C.Node(was[x].entries, was[x].read + {k})])
    {
      hide Represents;
    }

    /** The two lists in which a read is noted. */
    method Note(x: string, k: nat, h: Happening, own: bool, ghost s: C.State, ghost t: C.State, ghost e: C.Event)
      requires x in members && x in s.nodes && Shows(s) && h.node == x && Same(h, members[x].callbacks.entries, e)
      requires t.nodes == s.nodes[x := C.Node(s.nodes[x].entries, s.nodes[x].read + {k})]
      requires t.log == s.log && t.events == if own then s.events else s.events + [e]
      modifies this`taken, this`happened, this`held
      ensures Shows(t) && Noted(x, members[x].callbacks.entries, old(happened), old(held), happened, held)
    {
      hide SameHappenings, Represents, Noted;
      ghost var entries := members[x].callbacks.entries;
      NoteHappening(h, own, entries, s.events, e);
      MarkTaken(x, k, s.nodes);
    }

    method NoteHappening(h: Happening, own: bool, ghost entries: map<string, Boxes>, ghost es: seq<C.Event>,
                         ghost e: C.Event)
      requires SameHappenings(happened, held, es) && Same(h, entries, e)
      modifies this`happened, this`held
      ensures SameHappenings(happened, held, if own then es else es + [e])
      ensures Noted(h.node, entries, old(happened), old(held), happened, held)
    {
      hide SameHappenings, Noted;
      NotedBoth(h.node, entries, happened, held, h);
      if !own {
        OneMore(happened, held, es, h, entries, e);
        happened, held := happened + [h], held + [entries];
      }
    }

    method MarkTaken(x: string, k: nat, ghost nodes: map<string, C.Node>)
      requires x in members && Agrees(nodes)
      modifies this`taken
      ensures Agrees(nodes[x := C.Node(nodes[x].entries, nodes[x].read + {k})])
    {
      hide Represents;
      ghost var before := taken;
      taken := taken[x := taken[x] + {k}];
      TakenAgrees(nodes, before, x, k);
    }

    /** A node takes a record that it has not taken before. */
    method Take(x: string, k: nat)
      requires Valid() && x in members && k < |log| && x in taken && k !in taken[x]
      modifies this`taken, this`happened, this`held, this`model, this`actions
      ensures Valid() && Leads(old(model), Receive(x, k), model)
      ensures Noted(x, members[x].callbacks.entries, old(happened), old(held), happened, held)
    {
      hide C.Leads, C.Start, C.Apply, C.Enabled, SameHappenings, Represents, Stands, Leads, Noted;
      var outcome, own := Consult(x, k);
      ghost var a, e := C.Read(x, k, outcome), C.Event(x, Some(k), model.nodes[x].entries, outcome);
      Note(x, k, Happening(x, Some(k), outcome), own, model, C.Apply(model, a), e);
      Follow(Receive(x, k), a);
    }

    /** What the node makes of the record. */
    method Consult(x: string, k: nat) returns (outcome: Consumption, own: bool)
      requires Valid() && x in members && k < |log| && x in taken && k !in taken[x]
      ensures x in model.nodes && model.nodes[x].entries == members[x].callbacks.entries
      ensures var a := C.Read(x, k, outcome);
              var e := C.Event(x, Some(k), model.nodes[x].entries, outcome);
              && C.Enabled(model, a) && Possible(model, Receive(x, k)) && Stands(model, Receive(x, k), a)
              && var t := C.Apply(model, a);
              && t.nodes == model.nodes[x := C.Node(model.nodes[x].entries, model.nodes[x].read + {k})]
              && t.log == model.log && t.events == if own then model.events else model.events + [e]
    {
      RecordsSendable();
      NodeAt(x);
      hide C.Leads, C.Start, C.Apply, C.Enabled, Consumes, SameHappenings, Sendable, Represents, Stands;
      outcome := members[x].OnTopic(log[k]);
      own := log[k].router.value.nodeFrom == x;
      ReadParts(model, x, k, outcome);
    }

    lemma RecordsSendable()
      requires Valid()
      ensures forall k | 0 <= k < |log| :: Sendable(log[k]) && log[k].router.Some?
    {
      C.StartConsistent(first);
      C.ExactlyOnce(first, actions, model);
    }

    method Do(c: Command)
      requires Valid()
      modifies this, Stores()
      ensures Valid() && Leads(old(model), c, model)
    {
      NodesAre();
      if c.node !in members { return; }
      match c {
        case Subscribe(_, _, _, _) => Register(c);
        case Unsubscribe(_, _, _) => Register(c);
        case Send(x, msg, reachable) => Transmit(x, msg, reachable);
        case Receive(x, k) =>
          NodeAt(x);
          if k < |log| && k !in taken[x] { Take(x, k); }
      }
    }

    /** Any sequence of commands. */
    method Execute(commands: seq<Command>)
      requires Valid()
      modifies this, Stores()
      ensures Valid() && AllLead(old(model), commands, model)
    {
      hide Leads;
      var i := 0;
      while i < |commands|
        invariant 0 <= i <= |commands| && Valid() && AllLead(old(model), commands[..i], model)
      {
        ghost var m := model;
        Do(commands[i]);
        assert commands[..i + 1][..i] == commands[..i] && commands[..i + 1][i] == commands[i];
        i := i + 1;
      }
      assert commands[..i] == commands;
    }

    /** What the objects did with a record that a node has sent or taken: one consumption, and
        its outcome is the one that the router decides, with one callback for each id that the
        node had subscribed then under a matching pattern. */
    lemma ConsumedOnce(x: string, k: nat) returns (i: nat)
      requires Valid() && x in members && k < |log|
      requires x in taken && log[k].router.Some? && (log[k].router.value.nodeFrom == x || k in taken[x])
      ensures i < |happened| && happened[i].node == x && happened[i].record == Some(k)
      ensures forall j | 0 <= j < |happened| && happened[j].node == x && happened[j].record == Some(k) :: j == i
      ensures i < |held| && Delivers(x, held[i], log[k].router.value, happened[i].outcome)
    {
      hide C.Leads, C.Start, Delivers;
      NodeAt(x);
      i := C.AllDelivered(first, actions, model, x, k);
      assert Same(happened[i], held[i], model.events[i]);
      forall j | 0 <= j < |happened| && happened[j].node == x && happened[j].record == Some(k) ensures j == i {
        assert Same(happened[j], held[j], model.events[j]);
      }
    }
  }

  /** What a change of subscriptions changes. */
  lemma ResubscribeParts(s: C.State, c: Command, entries: map<string, Boxes>)
    requires (c.Subscribe? || c.Unsubscribe?) && c.node in s.nodes && RewiredBy(c, s.nodes[c.node].entries, entries)
    ensures var a := C.Resubscribe(c.node, entries);
            && C.Enabled(s, a) && Possible(s, c) && Stands(s, c, a)
            && var t := C.Apply(s, a);
            && t.log == s.log && t.events == s.events
            && t.nodes == s.nodes[c.node := C.Node(entries, s.nodes[c.node].read)]
  {
    hide RewiredBy;
  }

  /** What an emission changes. */
  lemma EmitParts(s: C.State, x: string, msg: Message, outcome: Consumption, reachable: bool)
    requires x in s.nodes && !Refuses(x, msg) && Consumes(x, s.nodes[x].entries, Stamped(x, msg), outcome)
    ensures var produced := !outcome.Crashed? && reachable;
            var a, c := C.Emit(x, msg, outcome, produced), Send(x, msg, reachable);
            && C.Enabled(s, a) && Possible(s, c) && Stands(s, c, a)
            && var t := C.Apply(s, a);
            && t.nodes == s.nodes && t.log == (if produced then s.log + [Stamped(x, msg)] else s.log)
            && t.events == s.events +
                 [C.Event(x, if produced then Some(|s.log|) else None, s.nodes[x].entries, outcome)]
  {
    hide Consumes;
  }

  /** What a read changes. */
  lemma ReadParts(s: C.State, x: string, k: nat, outcome: Consumption)
    requires x in s.nodes && k < |s.log| && k !in s.nodes[x].read && s.log[k].router.Some?
    requires s.log[k].router.value.nodeFrom != x ==> Consumes(x, s.nodes[x].entries, s.log[k], outcome)
    ensures var a := C.Read(x, k, outcome);
            var e := C.Event(x, Some(k), s.nodes[x].entries, outcome);
            && C.Enabled(s, a) && Stands(s, Receive(x, k), a)
            && var t := C.Apply(s, a);
            && t.log == s.log && t.nodes == s.nodes[x := C.Node(s.nodes[x].entries, s.nodes[x].read + {k})]
            && t.events == if s.log[k].router.value.nodeFrom == x then s.events else s.events + [e]
  {
    hide Consumes;
  }

  lemma StandsEnabled(s: C.State, c: Command, a: C.Action)
    requires Possible(s, c) && Stands(s, c, a)
    ensures C.Enabled(s, a)
  {}
}
