/**
 Master election among any set of nodes: heartbeats are put in a set of all messages ever sent
 and may be delivered late, repeatedly, out of order or never.
 */
module Election {
  import opened ElectionNode

  // ---------------------------------------------------------------- one node

  ghost predicate NodeOk(name: string, n: Node) {
    && n.pendingTicks < MASTER_PENDING_MAX && n.syncTicks < MASTER_SYNC_MAX
    && (n.phase == MasterPending ==> n.master == "" && !n.ready && n.syncTicks == 0)
    && (n.phase == Ready ==> n.pendingTicks == 0 && n.ready)
    && (n.phase == Destroyed ==> n.master == "")
  }

  predicate Leads(name: string, n: Node) {
    n.phase == Ready && n.master == name
  }

  function TickedTimes(name: string, n: Node, k: nat): (r: Node) {
    if k == 0 then n else Ticked(name, TickedTimes(name, n, k - 1))
  }

  /** How many ticks without any delivery a node is away from leading itself. */
  function TicksToLead(name: string, n: Node): (k: nat)
    requires n.pendingTicks < MASTER_PENDING_MAX && n.syncTicks < MASTER_SYNC_MAX
  {
    if n.phase == MasterPending then MASTER_PENDING_MAX - n.pendingTicks
    else if n.master == name then 0
    else MASTER_SYNC_MAX - n.syncTicks + MASTER_PENDING_MAX
  }

  lemma {:induction false} SilentTicks(name: string, n: Node, k: nat)
    requires NodeOk(name, n) && n.phase != Destroyed
    ensures var t := TickedTimes(name, n, k);
      && NodeOk(name, t) && t.phase != Destroyed
      && TicksToLead(name, t) == if k < TicksToLead(name, n) then TicksToLead(name, n) - k else 0
  {
    if k > 0 {
      SilentTicks(name, n, k - 1);
    }
  }

  /** A node left alone leads itself after exactly `TicksToLead` ticks, which is never more than eight. */
  lemma LeftAloneLeads(name: string, n: Node, k: nat)
    requires NodeOk(name, n) && n.phase != Destroyed
    ensures Leads(name, TickedTimes(name, n, k)) <==> k >= TicksToLead(name, n)
    ensures TicksToLead(name, n) <= 8
  {
    SilentTicks(name, n, k);
  }

  /** Eight is needed: a follower that has just heard its master. */
  lemma SevenTicksAreNotEnough(name: string, master: string)
    requires name != master
    ensures var n := FRESH_NODE.(phase := Ready, master := master, ready := true);
      NodeOk(name, n) && !Leads(name, TickedTimes(name, n, 7))
  {
    LeftAloneLeads(name, FRESH_NODE.(phase := Ready, master := master, ready := true), 7);
  }

  lemma FlushKeepsElection(n: Node)
    ensures Flushed(n) == n.(written := Flushed(n).written, deferred := Flushed(n).deferred)
  {
  }

  /** All messages of a topic handed to the node: those written, then those still held back. */
  ghost function Stream(n: Node, t: Topic): (r: seq<Message>) {
    At(n.written, t) + At(n.deferred, t)
  }

  lemma FlushKeepsStream(n: Node, t: Topic)
    ensures Stream(Flushed(n), t) == Stream(n, t) && At(Flushed(n).deferred, t) == []
  {
  }

  lemma PublishAppends(n: Node, x: Topic, m: Message, t: Topic)
    ensures Stream(Published(n, x, m), t) == Stream(n, t) + (if t == x then [m] else [])
    ensures n.ready ==> At(Published(n, x, m).deferred, t) == []
  {
    FlushKeepsStream(n, t);
  }

  lemma ReconcileKeepsStream(name: string, init: Stamp, n: Node, other: Beat, t: Topic)
    requires Reconciled(name, init, n, other).Done?
    ensures Stream(Reconciled(name, init, n, other).node, t) == Stream(n, t)
  {
    hide Flushed, ListUpdated;
    FlushKeepsStream(n, t);
    FlushKeepsStream(n.(phase := Ready, master := other.master, pendingTicks := 0, syncTicks := 0, ready := true), t);
  }

  // ---------------------------------------------------------------- the node list

  predicate Distinct(list: seq<Beat>) {
    forall i, j :: 0 <= i < j < |list| ==> list[i].id != list[j].id
  }

  lemma {:induction false} FindFinds(list: seq<Beat>, id: string)
    ensures var index := Find(list, id);
      && (index < |list| ==> list[index].id == id)
      && (forall i :: 0 <= i < index ==> list[i].id != id)
  {
    if list != [] && list[0].id != id {
      FindFinds(list[1..], id);
    }
  }

  /** The list keeps one entry a sender: its latest heartbeat, or none after it was destroyed. */
  lemma NodelistIsLatest(list: seq<Beat>, other: Beat, b: Beat)
    requires Distinct(list)
    ensures Distinct(ListUpdated(list, other))
    ensures b in ListUpdated(list, other) <==>
      (if b.id == other.id then b == other && other.phase != Destroyed else b in list)
  {
    var index, r := Find(list, other.id), ListUpdated(list, other);
    FindFinds(list, other.id);
    if b in list && b.id != other.id {
      var i :| 0 <= i < |list| && list[i] == b;
      assert i < index ==> i < |r| && r[i] == b;
      assert i > index && other.phase == Destroyed ==> r[i - 1] == b;
      assert i > index && other.phase != Destroyed ==> r[i] == b;
    }
    if other.phase != Destroyed {
      assert r[index] == other;
    }
  }

  // ---------------------------------------------------------------- the cluster

  datatype Cluster = Cluster(nodes: map<string, Node>, sent: set<Beat>, failed: bool)

  datatype Action =
    | Tick(name: string)
    | Deliver(name: string, beat: Beat)
    | Publish(name: string, topic: Topic, message: Message)
    | FlushPending(name: string)
    | Destroy(name: string)

  /** Every node has announced itself once, waiting for a master. */
  function Initial(inits: map<string, Stamp>): (c: Cluster) {
    Cluster(map x | x in inits :: FRESH_NODE, set x | x in inits :: BeatOf(x, inits[x], FRESH_NODE), false)
  }

  function Receive(inits: map<string, Stamp>, c: Cluster, x: string, beat: Beat): (d: Cluster)
    requires x in inits && x in c.nodes
  {
    match Reconciled(x, inits[x], c.nodes[x], beat)
    case AssertionFailed => c.(failed := true)
    case Done(n, beats) => c.(nodes := c.nodes[x := n], sent := c.sent + (set b | b in beats))
  }

  /** A node skips its own heartbeats; a destroyed node takes no further step. */
  function Next(inits: map<string, Stamp>, c: Cluster, a: Action): (d: Cluster) {
    var x := a.name;
    if c.failed || x !in inits || x !in c.nodes || c.nodes[x].phase == Destroyed then c
    else
      var n := c.nodes[x];
      match a
      case Tick(_) =>
        var t := Ticked(x, n);
        c.(nodes := c.nodes[x := t], sent := c.sent + {BeatOf(x, inits[x], t)})
      case Deliver(_, beat) => if beat in c.sent && beat.id != x then Receive(inits, c, x, beat) else c
      case Publish(_, topic, message) => c.(nodes := c.nodes[x := Published(n, topic, message)])
      case FlushPending(_) => if n.ready then c.(nodes := c.nodes[x := Flushed(n)]) else c
      case Destroy(_) =>
        var t := Closed(n);
        c.(nodes := c.nodes[x := t], sent := c.sent + {BeatOf(x, inits[x], t)})
  }

  function Run(inits: map<string, Stamp>, c: Cluster, actions: seq<Action>): (d: Cluster)
    decreases |actions|
  {
    if actions == [] then c else Run(inits, Next(inits, c, actions[0]), actions[1..])
  }

  /** A heartbeat tells its sender's start time, and names a master exactly when it may. */
  ghost predicate BeatOk(inits: map<string, Stamp>, b: Beat) {
    && b.id in inits && b.init == inits[b.id]
    && (b.phase != Ready ==> b.master == "")
    && (b.phase == Ready && "" !in inits ==> b.master != "")
  }

  ghost predicate NodesOk(inits: map<string, Stamp>, c: Cluster) {
    && c.nodes.Keys == inits.Keys
    && (forall x :: x in c.nodes ==> NodeOk(x, c.nodes[x]))
    && (forall x :: x in c.nodes && c.nodes[x].phase == Ready && "" !in inits ==> c.nodes[x].master != "")
  }

  ghost predicate BeatsOk(inits: map<string, Stamp>, c: Cluster) {
    forall b :: b in c.sent ==> BeatOk(inits, b)
  }

  ghost predicate Inv(inits: map<string, Stamp>, c: Cluster) {
    && NodesOk(inits, c) && BeatsOk(inits, c)
    && ("" !in inits ==> !c.failed)
  }

  lemma ReconcileKeeps(inits: map<string, Stamp>, x: string, n: Node, beat: Beat)
    requires x in inits && NodeOk(x, n) && BeatOk(inits, beat)
    requires n.phase == Ready && "" !in inits ==> n.master != ""
    ensures var r := Reconciled(x, inits[x], n, beat);
      && (r == AssertionFailed ==> "" in inits)
      && (r.Done? ==>
            && NodeOk(x, r.node) && (r.node.phase == Ready && "" !in inits ==> r.node.master != "")
            && forall b :: b in r.beats ==> BeatOk(inits, b))
  {
    hide Flushed, ListUpdated, Earlier;
    FlushKeepsElection(n.(phase := Ready, master := beat.master, pendingTicks := 0, syncTicks := 0, ready := true));
  }

  ghost predicate NodeFine(inits: map<string, Stamp>, x: string, n: Node) {
    NodeOk(x, n) && (n.phase == Ready && "" !in inits ==> n.master != "")
  }

  /** One node changed and some heartbeats were sent. */
  lemma UpdateKeeps(inits: map<string, Stamp>, c: Cluster, x: string, n: Node, beats: set<Beat>)
    requires Inv(inits, c) && x in c.nodes && NodeFine(inits, x, n)
    requires forall b :: b in beats ==> BeatOk(inits, b)
    ensures Inv(inits, c.(nodes := c.nodes[x := n], sent := c.sent + beats))
  {
    hide NodeOk, BeatOk;
  }

  lemma StepKeeps(inits: map<string, Stamp>, c: Cluster, a: Action)
    requires Inv(inits, c)
    ensures Inv(inits, Next(inits, c, a))
  {
    if a.name in c.nodes && a.name in inits {
      hide Reconciled, Flushed, Published, Inv;
      var n, x := c.nodes[a.name], a.name;
      match a
      case Deliver(_, beat) =>
        if beat in c.sent {
          ReconcileKeeps(inits, x, n, beat);
          var r := Reconciled(x, inits[x], n, beat);
          if r.Done? { UpdateKeeps(inits, c, x, r.node, set b | b in r.beats); }
        }
      case Publish(_, t, m) =>
        UpdateKeeps(inits, c, x, Published(n, t, m), {});
        assert c.sent + {} == c.sent;
      case FlushPending(_) =>
        FlushKeepsElection(n);
        UpdateKeeps(inits, c, x, Flushed(n), {});
        assert c.sent + {} == c.sent;
      case Tick(_) =>
        UpdateKeeps(inits, c, x, Ticked(x, n), {BeatOf(x, inits[x], Ticked(x, n))});
      case Destroy(_) =>
        UpdateKeeps(inits, c, x, Closed(n), {BeatOf(x, inits[x], Closed(n))});
    }
  }

  lemma {:induction false} RunKeeps(inits: map<string, Stamp>, c: Cluster, actions: seq<Action>)
    requires Inv(inits, c)
    ensures Inv(inits, Run(inits, c, actions))
    decreases |actions|
  {
    if actions != [] {
      hide Inv, Next;
      StepKeeps(inits, c, actions[0]);
      RunKeeps(inits, Next(inits, c, actions[0]), actions[1..]);
    }
  }

  /**
   In every run of nodes with non-empty names no assertion fails; in every run at all the
   counters stay below their limits and the ready flag is up exactly in the Ready state.
   */
  lemma {:induction false} EveryRun(inits: map<string, Stamp>, actions: seq<Action>, x: string)
    requires x in inits
    ensures var c := Run(inits, Initial(inits), actions);
      && ("" !in inits ==> !c.failed)
      && x in c.nodes && NodeOk(x, c.nodes[x])
      && (c.nodes[x].phase != Destroyed ==> (c.nodes[x].ready <==> c.nodes[x].phase == Ready))
  {
    hide Run;
    RunKeeps(inits, Initial(inits), actions);
  }

  // ---------------------------------------------------------------- an empty name

  lemma RunOn(inits: map<string, Stamp>, c: Cluster, before: seq<Action>, a: Action)
    ensures Run(inits, c, before + [a]) == Next(inits, Run(inits, c, before), a)
    decreases |before|
  {
    if before != [] {
      assert (before + [a])[1..] == before[1..] + [a];
      RunOn(inits, Next(inits, c, before[0]), before[1..], a);
    }
  }

  /** A node named by the empty string elects itself, and fails on the next heartbeat it hears. */
  lemma EmptyNameFails(inits: map<string, Stamp>, other: string) returns (actions: seq<Action>)
    requires "" in inits && other in inits && other != ""
    ensures Run(inits, Initial(inits), actions).failed
  {
    var c0, t := Initial(inits), Tick("");
    var beat := BeatOf(other, inits[other], FRESH_NODE);
    var c1 := Next(inits, c0, t);
    var c2 := Next(inits, c1, t);
    var c3 := Next(inits, c2, t);
    assert Leads("", c3.nodes[""]) && beat in c3.sent && !c3.failed by {
      assert c1.nodes[""] == Ticked("", FRESH_NODE) && beat in c0.sent;
      assert c2.nodes[""] == Ticked("", c1.nodes[""]);
      assert c3.nodes[""] == Ticked("", c2.nodes[""]);
    }
    assert Next(inits, c3, Deliver("", beat)).failed;
    hide Next;
    actions := [t, t, t, Deliver("", beat)];
    assert [] + [t] == [t] && [t] + [t] == [t, t] && [t, t] + [t] == [t, t, t];
    assert [t, t, t] + [Deliver("", beat)] == actions;
    RunOn(inits, c0, [], t);
    RunOn(inits, c0, [t], t);
    RunOn(inits, c0, [t, t], t);
    RunOn(inits, c0, [t, t, t], Deliver("", beat));
  }

  /** Among two nodes or more, no run fails an assertion exactly when no node has the empty name. */
  lemma AssertionsHoldIff(inits: map<string, Stamp>, a: string, b: string)
    requires a in inits && b in inits && a != b
    ensures (forall actions :: !Run(inits, Initial(inits), actions).failed) <==> "" !in inits
  {
    hide Run;
    if "" in inits {
      var actions := EmptyNameFails(inits, if a == "" then b else a);
    } else {
      forall actions ensures !Run(inits, Initial(inits), actions).failed {
        RunKeeps(inits, Initial(inits), actions);
      }
    }
  }

  // ---------------------------------------------------------------- stability

  ghost predicate NoneEarlier(inits: map<string, Stamp>, s: string) {
    s in inits && forall x :: x in inits ==> !Earlier(inits[x], inits[s])
  }

  predicate LeadsItself(c: Cluster, s: string) {
    s in c.nodes && Leads(s, c.nodes[s])
  }

  lemma SeniorStaysOneStep(inits: map<string, Stamp>, c: Cluster, a: Action, s: string)
    requires Inv(inits, c) && NoneEarlier(inits, s) && LeadsItself(c, s) && a != Destroy(s)
    ensures LeadsItself(Next(inits, c, a), s)
  {
    if a.name == s {
      var n := c.nodes[s];
      match a
      case Deliver(_, beat) => assert beat in c.sent ==> BeatOk(inits, beat);
      case Publish(_, t, m) =>
      case FlushPending(_) => FlushKeepsElection(n);
      case Tick(_) =>
    }
  }

  /**
   Once the most senior node leads itself it does so in every continuation of the run, until it
   is destroyed, whatever is delivered, lost, repeated or reordered.
   */
  lemma {:induction false} SeniorStaysMaster(inits: map<string, Stamp>, c: Cluster, actions: seq<Action>, s: string)
    requires Inv(inits, c) && NoneEarlier(inits, s) && LeadsItself(c, s)
    requires Destroy(s) !in actions
    ensures LeadsItself(Run(inits, c, actions), s)
    decreases |actions|
  {
    if actions != [] {
      hide Inv, Next, NoneEarlier, LeadsItself;
      assert actions[0] in actions;
      SeniorStaysOneStep(inits, c, actions[0], s);
      StepKeeps(inits, c, actions[0]);
      SeniorStaysMaster(inits, Next(inits, c, actions[0]), actions[1..], s);
    }
  }

  /** `s` leads itself, nobody follows anyone else, and no heartbeat under way names anyone else. */
  ghost predicate Settled(c: Cluster, s: string) {
    && LeadsItself(c, s)
    && (forall x :: x in c.nodes && c.nodes[x].phase == Ready ==> c.nodes[x].master == s)
    && (forall b :: b in c.sent && b.phase == Ready ==> b.master == s)
  }

  /** The tick at which a waiting node gives up and elects itself. */
  predicate SelfElection(c: Cluster, a: Action) {
    a.Tick? && a.name in c.nodes && c.nodes[a.name].phase == MasterPending
    && c.nodes[a.name].pendingTicks + 1 >= MASTER_PENDING_MAX
  }

  lemma SettledUpdate(inits: map<string, Stamp>, c: Cluster, s: string, x: string, n: Node, beats: set<Beat>)
    requires Settled(c, s) && x in c.nodes
    requires n.phase == Ready ==> n.master == s
    requires x == s ==> n.phase == Ready
    requires forall b :: b in beats && b.phase == Ready ==> b.master == s
    ensures Settled(c.(nodes := c.nodes[x := n], sent := c.sent + beats), s)
  {
  }

  /** Settled clusters stay settled under every delivery and every tick that is not a self-election. */
  lemma SettledStaysOneStep(inits: map<string, Stamp>, c: Cluster, a: Action, s: string)
    requires Inv(inits, c) && Settled(c, s) && a != Destroy(s) && !SelfElection(c, a)
    ensures Settled(Next(inits, c, a), s)
  {
    if a.name in c.nodes && a.name in inits {
      hide Reconciled, Flushed, Published;
      var x, n := a.name, c.nodes[a.name];
      match a
      case Deliver(_, beat) =>
        if beat in c.sent && beat.id != x {
          FollowersHear(inits[x], x, n, beat, s);
          var r := Reconciled(x, inits[x], n, beat);
          if r.Done? { SettledUpdate(inits, c, s, x, r.node, set b | b in r.beats); }
        }
      case Publish(_, t, m) =>
        SettledUpdate(inits, c, s, x, Published(n, t, m), {});
      case FlushPending(_) =>
        FlushKeepsElection(n);
        SettledUpdate(inits, c, s, x, Flushed(n), {});
      case Tick(_) =>
        SettledUpdate(inits, c, s, x, Ticked(x, n), {BeatOf(x, inits[x], Ticked(x, n))});
      case Destroy(_) =>
        SettledUpdate(inits, c, s, x, Closed(n), {BeatOf(x, inits[x], Closed(n))});
    }
  }

  /** What a node does with a heartbeat that can name no master but `s`. */
  lemma FollowersHear(init: Stamp, x: string, n: Node, beat: Beat, s: string)
    requires beat.id != x && (beat.phase == Ready ==> beat.master == s)
    requires n.phase == Ready ==> n.master == s
    requires x == s ==> n.phase == Ready
    ensures var r := Reconciled(x, init, n, beat);
      r.Done? ==>
        && (r.node.phase == Ready ==> r.node.master == s) && (x == s ==> r.node.phase == Ready)
        && (forall b :: b in r.beats && b.phase == Ready ==> b.master == s)
        && (beat.phase == Ready && n.phase == MasterPending ==> r.node.phase == Ready)
  {
    hide Flushed, ListUpdated, Earlier;
    FlushKeepsElection(n.(phase := Ready, master := beat.master, pendingTicks := 0, syncTicks := 0, ready := true));
  }

  ghost predicate NoElections(inits: map<string, Stamp>, c: Cluster, actions: seq<Action>)
    decreases |actions|
  {
    actions == [] || (!SelfElection(c, actions[0]) && NoElections(inits, Next(inits, c, actions[0]), actions[1..]))
  }

  lemma {:induction false} SettledStays(inits: map<string, Stamp>, c: Cluster, actions: seq<Action>, s: string)
    requires Inv(inits, c) && Settled(c, s)
    requires Destroy(s) !in actions && NoElections(inits, c, actions)
    ensures Settled(Run(inits, c, actions), s)
    decreases |actions|
  {
    if actions != [] {
      hide Inv, Next, Settled, SelfElection;
      assert actions[0] in actions;
      SettledStaysOneStep(inits, c, actions[0], s);
      StepKeeps(inits, c, actions[0]);
      SettledStays(inits, Next(inits, c, actions[0]), actions[1..], s);
    }
  }

  /** In a settled cluster a waiting node follows the master as soon as it hears any Ready heartbeat. */
  lemma WaitingNodeJoins(inits: map<string, Stamp>, c: Cluster, s: string, x: string, beat: Beat)
    requires "" !in inits && Inv(inits, c) && Settled(c, s) && x in c.nodes && c.nodes[x].phase == MasterPending
    requires beat in c.sent && beat.phase == Ready && beat.id != x
    ensures var d := Next(inits, c, Deliver(x, beat)); d.nodes[x].phase == Ready && d.nodes[x].master == s
  {
    hide Reconciled;
    ReconcileKeeps(inits, x, c.nodes[x], beat);
    FollowersHear(inits[x], x, c.nodes[x], beat, s);
  }

  // ---------------------------------------------------------------- deferred messages

  /** The messages of topic `t` that node `x` takes over from its publishers in a run. */
  ghost function Taken(inits: map<string, Stamp>, c: Cluster, actions: seq<Action>, x: string, t: Topic)
    : (r: seq<Message>)
    decreases |actions|
  {
    if actions == [] then []
    else TakenNow(inits, c, actions[0], x, t) + Taken(inits, Next(inits, c, actions[0]), actions[1..], x, t)
  }

  function TakenNow(inits: map<string, Stamp>, c: Cluster, a: Action, x: string, t: Topic): (r: seq<Message>) {
    if && a.Publish? && a.name == x && a.topic == t
       && !c.failed && x in inits && x in c.nodes && c.nodes[x].phase != Destroyed
    then [a.message]
    else []
  }

  lemma StreamOneStep(inits: map<string, Stamp>, c: Cluster, a: Action, x: string, t: Topic)
    requires x in c.nodes
    ensures x in Next(inits, c, a).nodes
    ensures Stream(Next(inits, c, a).nodes[x], t) == Stream(c.nodes[x], t) + TakenNow(inits, c, a, x, t)
  {
    hide Reconciled, Flushed, Published;
    if a.name == x && x in inits {
      var n := c.nodes[x];
      match a
      case Deliver(_, beat) =>
        if Reconciled(x, inits[x], n, beat).Done? { ReconcileKeepsStream(x, inits[x], n, beat, t); }
      case Publish(_, u, m) => PublishAppends(n, u, m, t);
      case FlushPending(_) => FlushKeepsStream(n, t);
      case _ =>
    }
  }

  /** No deferred message is lost or overtaken: written, then held back, are those taken over, in order. */
  lemma {:induction false} DeferredKeepTheirPlace(
    inits: map<string, Stamp>, c: Cluster, actions: seq<Action>, x: string, t: Topic)
    requires x in c.nodes
    ensures x in Run(inits, c, actions).nodes
    ensures Stream(Run(inits, c, actions).nodes[x], t) == Stream(c.nodes[x], t) + Taken(inits, c, actions, x, t)
    decreases |actions|
  {
    if actions == [] {
      assert Stream(c.nodes[x], t) + [] == Stream(c.nodes[x], t);
    } else {
      hide Next, Stream, TakenNow;
      var d := Next(inits, c, actions[0]);
      StreamOneStep(inits, c, actions[0], x, t);
      DeferredKeepTheirPlace(inits, d, actions[1..], x, t);
      Regroup(Stream(c.nodes[x], t), TakenNow(inits, c, actions[0], x, t), Taken(inits, d, actions[1..], x, t));
    }
  }

  lemma Regroup(a: seq<Message>, b: seq<Message>, c: seq<Message>)
    ensures a + b + c == a + (b + c)
  {
  }
}
