/**
 What a node makes of each heartbeat it hears and of the messages handed to it, in any cluster
 that a run has reached.
 */
module ElectionHearing {
  import opened ElectionNode
  import opened Election
  import opened ElectionRuns

  // ---------------------------------------------------------------- messages

  predicate NotReady(c: Cluster, x: string) {
    x in c.nodes ==> !c.nodes[x].ready
  }

  /** A step after which a node is not ready has not written anything for it. */
  lemma NotReadyWritesNothing(inits: map<string, Stamp>, c: Cluster, a: Action, x: string)
    requires x in c.nodes && NotReady(Next(inits, c, a), x)
    ensures x in Next(inits, c, a).nodes && Next(inits, c, a).nodes[x].written == c.nodes[x].written
  {
    hide ListUpdated, Earlier, Drained, Cleared;
  }

  /** A node that has never been ready has written nothing: all it was handed is held back. */
  lemma {:induction false} NeverReadyHasWrittenNothing(
    inits: map<string, Stamp>, c: Cluster, actions: seq<Action>, x: string)
    requires x in c.nodes && forall k :: 0 <= k <= |actions| ==> NotReady(Run(inits, c, actions[..k]), x)
    ensures x in Run(inits, c, actions).nodes && Run(inits, c, actions).nodes[x].written == c.nodes[x].written
    decreases |actions|
  {
    if actions != [] {
      hide Next, NotReady;
      var d := Next(inits, c, actions[0]);
      forall k | 0 <= k <= |actions| - 1 ensures NotReady(Run(inits, d, actions[1..][..k]), x) {
        assert actions[..k + 1][0] == actions[0] && actions[..k + 1][1..] == actions[1..][..k];
        assert NotReady(Run(inits, c, actions[..k + 1]), x);
      }
      assert actions[1..][..0] == [];
      NotReadyWritesNothing(inits, c, actions[0], x);
      NeverReadyHasWrittenNothing(inits, d, actions[1..], x);
    }
  }

  /** From the start: deferred are then exactly the messages handed over, in order, and none is written. */
  lemma {:induction false} WaitingNodeDefers(inits: map<string, Stamp>, actions: seq<Action>, x: string, t: Topic)
    requires x in inits && forall k :: 0 <= k <= |actions| ==> NotReady(Run(inits, Initial(inits), actions[..k]), x)
    ensures var c := Run(inits, Initial(inits), actions);
      && x in c.nodes && c.nodes[x].written == map[]
      && At(c.nodes[x].deferred, t) == Taken(inits, Initial(inits), actions, x, t)
  {
    hide Run, Taken;
    NeverReadyHasWrittenNothing(inits, Initial(inits), actions, x);
    DeferredKeepTheirPlace(inits, Initial(inits), actions, x, t);
    var taken := Taken(inits, Initial(inits), actions, x, t);
    assert Stream(FRESH_NODE, t) == [] && [] + taken == taken;
    assert Stream(Run(inits, Initial(inits), actions).nodes[x], t) ==
      [] + At(Run(inits, Initial(inits), actions).nodes[x].deferred, t);
  }

  predicate NothingDeferred(n: Node) {
    forall t :: t in n.deferred ==> n.deferred[t] == []
  }

  /** A ready node holds nothing back once it has joined a master, published or flushed. */
  lemma ReadyNodeHoldsNothing(inits: map<string, Stamp>, c: Cluster, a: Action)
    requires Alive(inits, c, a.name)
    ensures var x := a.name;
      var n, d := c.nodes[x], Next(inits, c, a);
      && x in d.nodes
      && (n.ready && (a.Publish? || a.FlushPending?) ==> NothingDeferred(d.nodes[x]))
      && (a.Deliver? && n.phase == MasterPending && d.nodes[x].phase == Ready ==> NothingDeferred(d.nodes[x]))
  {
    hide ListUpdated, Earlier, Drained;
  }

  // ---------------------------------------------------------------- heartbeats

  ghost predicate ListsDistinct(c: Cluster) {
    forall x :: x in c.nodes ==> Distinct(c.nodes[x].nodelist)
  }

  lemma ListsStep(inits: map<string, Stamp>, c: Cluster, a: Action)
    requires ListsDistinct(c)
    ensures ListsDistinct(Next(inits, c, a))
  {
    hide ListUpdated, Earlier, Distinct, Drained, Cleared;
    if a.Deliver? && a.name in c.nodes {
      NodelistIsLatest(c.nodes[a.name].nodelist, a.beat, a.beat);
    }
  }

  lemma {:induction false} ListsRun(inits: map<string, Stamp>, c: Cluster, actions: seq<Action>)
    requires ListsDistinct(c)
    ensures ListsDistinct(Run(inits, c, actions))
    decreases |actions|
  {
    if actions != [] {
      hide Next, ListsDistinct;
      ListsStep(inits, c, actions[0]);
      ListsRun(inits, Next(inits, c, actions[0]), actions[1..]);
    }
  }

  predicate Waits(n: Node) {
    n.phase == MasterPending && n.master == "" && !n.ready
  }

  predicate SameElection(n: Node, m: Node) {
    n.phase == m.phase && n.master == m.master && n.pendingTicks == m.pendingTicks && n.syncTicks == m.syncTicks
  }

  /** The sender started before the hearer. */
  predicate StartedBefore(a: Stamp, b: Stamp) {
    if a.seconds == b.seconds then a.nanos < b.nanos else a.seconds < b.seconds
  }

  /** The heartbeat is of a master that the hearer does not follow, and was started before it. */
  predicate Outranks(beat: Beat, n: Node, init: Stamp) {
    beat.phase == Ready && beat.id != n.master && beat.master != n.master && StartedBefore(beat.init, init)
  }

  /** What hearing `beat` makes of node `n`. */
  ghost predicate Heard(x: string, init: Stamp, n: Node, beat: Beat, m: Node)
    requires NodeOk(x, m)
  {
    && (n.phase == MasterPending ==>
          if beat.phase == Ready then m.phase == Ready && m.master == beat.master else SameElection(n, m))
    && (n.phase == Ready && beat.id == n.master ==>
          if beat.phase == Ready then m.phase == Ready && m.master == n.master && TicksToLead(x, m) == 8
          else Waits(m) && TicksToLead(x, m) == 3)
    && (n.phase == Ready && beat.id != n.master ==>
          if Outranks(beat, n, init) then m.phase == Ready && m.master == beat.master else SameElection(n, m))
    && (m.phase == Ready && m.master != n.master && m.master != x ==> TicksToLead(x, m) == 8)
    && (forall b :: b in m.nodelist <==>
          if b.id == beat.id then b == beat && beat.phase != Destroyed else b in n.nodelist)
  }

  lemma HearsNow(inits: map<string, Stamp>, c: Cluster, x: string, beat: Beat)
    requires "" !in inits && Inv(inits, c) && Alive(inits, c, x) && beat in c.sent && beat.id != x
    requires Distinct(c.nodes[x].nodelist)
    ensures var d := Next(inits, c, Deliver(x, beat));
      && Alive(inits, d, x) && NodeOk(x, d.nodes[x])
      && Heard(x, inits[x], c.nodes[x], beat, d.nodes[x])
  {
    hide ListUpdated, Distinct, Drained, Cleared;
    assert BeatOk(inits, beat) && NodeOk(x, c.nodes[x]);
    forall b {
      NodelistIsLatest(c.nodes[x].nodelist, beat, b);
    }
  }

  /**
   Every heartbeat a node can hear, by what it says: a waiting node joins; a follower is renewed by
   its master's Ready and waits again after any other; another master is followed exactly if its
   teller started earlier. Whoever has just been made to follow is eight silent ticks from leading,
   whoever has lost its master three. The node list is brought up to date in every case.
   */
  lemma {:induction false} Hears(inits: map<string, Stamp>, actions: seq<Action>, x: string, beat: Beat)
    requires "" !in inits && Alive(inits, Run(inits, Initial(inits), actions), x)
    requires beat in Run(inits, Initial(inits), actions).sent && beat.id != x
    ensures var c := Run(inits, Initial(inits), actions);
      var d := Next(inits, c, Deliver(x, beat));
      Alive(inits, d, x) && NodeOk(x, d.nodes[x]) && Heard(x, inits[x], c.nodes[x], beat, d.nodes[x])
  {
    hide Run, Heard, Inv, Next, NodeOk;
    AliveIsOk(inits, actions, x);
    ListsRun(inits, Initial(inits), actions);
    HearsNow(inits, Run(inits, Initial(inits), actions), x, beat);
  }
}
