/**
 What heartbeats and silence do to a node in any cluster that a run has reached.
 */
module ElectionRuns {
  import opened ElectionNode
  import opened Election

  /** `k` ticks of one node with nothing in between. */
  function Ticks(x: string, k: nat): (actions: seq<Action>) {
    if k == 0 then [] else Ticks(x, k - 1) + [Tick(x)]
  }

  predicate Alive(inits: map<string, Stamp>, c: Cluster, x: string) {
    !c.failed && x in inits && x in c.nodes && c.nodes[x].phase != Destroyed
  }

  predicate Follows(c: Cluster, x: string, master: string) {
    x in c.nodes && c.nodes[x].phase == Ready && c.nodes[x].master == master
  }

  lemma {:induction false} TicksInCluster(inits: map<string, Stamp>, c: Cluster, x: string, k: nat)
    requires Alive(inits, c, x) && NodeOk(x, c.nodes[x])
    ensures var d := Run(inits, c, Ticks(x, k)); Alive(inits, d, x) && d.nodes[x] == TickedTimes(x, c.nodes[x], k)
  {
    if k > 0 {
      TicksInCluster(inits, c, x, k - 1);
      SilentTicks(x, c.nodes[x], k);
      RunOn(inits, c, Ticks(x, k - 1), Tick(x));
    }
  }

  /** While it waits less than the limit, a follower keeps its master. */
  lemma {:induction false} PatientFollower(name: string, n: Node, k: nat)
    requires n.phase == Ready && n.master != name && n.syncTicks + k < MASTER_SYNC_MAX
    ensures var t := TickedTimes(name, n, k); t.phase == Ready && t.master == n.master && t.syncTicks == n.syncTicks + k
  {
    if k > 0 {
      PatientFollower(name, n, k - 1);
    }
  }

  lemma {:induction false} AliveIsOk(inits: map<string, Stamp>, actions: seq<Action>, x: string)
    ensures var c := Run(inits, Initial(inits), actions);
      && Inv(inits, c)
      && (x in c.nodes ==> NodeOk(x, c.nodes[x]))
      && (Follows(c, x, "") ==> "" in inits)
  {
    hide Run;
    RunKeeps(inits, Initial(inits), actions);
  }

  // ---------------------------------------------------------------- silence

  /**
   In any reachable cluster a node left alone leads itself after exactly the computed number
   of its ticks; eight are always enough.
   */
  lemma {:induction false} LeftAloneInCluster(inits: map<string, Stamp>, actions: seq<Action>, x: string, k: nat)
    requires Alive(inits, Run(inits, Initial(inits), actions), x)
    ensures var c := Run(inits, Initial(inits), actions);
      var d := Run(inits, c, Ticks(x, k));
      && NodeOk(x, c.nodes[x]) && TicksToLead(x, c.nodes[x]) <= 8
      && (LeadsItself(d, x) <==> k >= TicksToLead(x, c.nodes[x]))
      && (k >= 8 ==> LeadsItself(d, x))
  {
    hide Run, Ticks;
    AliveIsOk(inits, actions, x);
    var c := Run(inits, Initial(inits), actions);
    TicksInCluster(inits, c, x, k);
    LeftAloneLeads(x, c.nodes[x], k);
  }

  // ---------------------------------------------------------------- a follower and its master

  lemma HearsMaster(inits: map<string, Stamp>, c: Cluster, x: string, beat: Beat)
    requires Alive(inits, c, x) && NodeOk(x, c.nodes[x]) && beat in c.sent && beat.id != "" && beat.id != x
    requires Follows(c, x, beat.id) && beat.phase == Ready
    ensures var d := Next(inits, c, Deliver(x, beat));
      Alive(inits, d, x) && NodeOk(x, d.nodes[x]) && Follows(d, x, beat.id) && d.nodes[x].syncTicks == 0
  {
  }

  /**
   After hearing its master a follower keeps it through four silent ticks, and leads itself
   after exactly eight.
   */
  lemma {:induction false} HearingRenews(inits: map<string, Stamp>, actions: seq<Action>, x: string, beat: Beat, k: nat)
    requires var c := Run(inits, Initial(inits), actions);
      && Alive(inits, c, x) && beat in c.sent && beat.id != "" && beat.id != x
      && Follows(c, x, beat.id) && beat.phase == Ready
    ensures var c := Run(inits, Initial(inits), actions);
      var d := Run(inits, Next(inits, c, Deliver(x, beat)), Ticks(x, k));
      && (k < MASTER_SYNC_MAX ==> Follows(d, x, beat.id))
      && (LeadsItself(d, x) <==> k >= 8)
  {
    hide Run, Ticks, Next;
    AliveIsOk(inits, actions, x);
    var c := Run(inits, Initial(inits), actions);
    HearsMaster(inits, c, x, beat);
    var d := Next(inits, c, Deliver(x, beat));
    TicksInCluster(inits, d, x, k);
    LeftAloneLeads(x, d.nodes[x], k);
    if k < MASTER_SYNC_MAX {
      PatientFollower(x, d.nodes[x], k);
    }
  }

  lemma HearsDestroyed(inits: map<string, Stamp>, c: Cluster, x: string, y: string)
    requires Alive(inits, c, x) && Alive(inits, c, y) && x != y && y != "" && NodeOk(x, c.nodes[x]) && Follows(c, x, y)
    ensures var d := Next(inits, Next(inits, c, Destroy(y)), Deliver(x, Beat(y, inits[y], Destroyed, "")));
      && Alive(inits, d, x) && NodeOk(x, d.nodes[x])
      && d.nodes[x].phase == MasterPending && d.nodes[x].pendingTicks == 0
  {
  }

  /** A follower that hears of its master's destruction leads itself after exactly three silent ticks. */
  lemma {:induction false} DestroyedMasterIsReplaced(
    inits: map<string, Stamp>, actions: seq<Action>, x: string, y: string, k: nat)
    requires var c := Run(inits, Initial(inits), actions);
      Alive(inits, c, x) && Alive(inits, c, y) && x != y && y != "" && Follows(c, x, y)
    ensures var c := Run(inits, Initial(inits), actions);
      var d := Next(inits, Next(inits, c, Destroy(y)), Deliver(x, Beat(y, inits[y], Destroyed, "")));
      LeadsItself(Run(inits, d, Ticks(x, k)), x) <==> k >= 3
  {
    hide Run, Ticks, Next;
    AliveIsOk(inits, actions, x);
    var c := Run(inits, Initial(inits), actions);
    HearsDestroyed(inits, c, x, y);
    var d := Next(inits, Next(inits, c, Destroy(y)), Deliver(x, Beat(y, inits[y], Destroyed, "")));
    TicksInCluster(inits, d, x, k);
    LeftAloneLeads(x, d.nodes[x], k);
  }

  // ---------------------------------------------------------------- two masters

  lemma MasterHears(inits: map<string, Stamp>, c: Cluster, x: string, beat: Beat)
    requires Alive(inits, c, x) && NodeOk(x, c.nodes[x]) && x != "" && LeadsItself(c, x)
    requires beat in c.sent && beat.id != x && beat.phase == Ready && beat.master != "" && beat.master != x
    ensures var d := Next(inits, c, Deliver(x, beat));
      && Alive(inits, d, x) && c.sent <= d.sent
      && (forall y :: y != x && y in c.nodes ==> y in d.nodes && d.nodes[y] == c.nodes[y])
      && Follows(d, x, if Earlier(beat.init, inits[x]) then beat.master else x)
  {
  }

  /** What a node that leads itself says of itself. */
  function Claim(inits: map<string, Stamp>, x: string): (beat: Beat)
    requires x in inits
  {
    Beat(x, inits[x], Ready, x)
  }

  /** Every node has told of the state and the master it has now. */
  ghost predicate Announced(inits: map<string, Stamp>, c: Cluster) {
    forall x :: x in inits && x in c.nodes ==> Beat(x, inits[x], c.nodes[x].phase, c.nodes[x].master) in c.sent
  }

  lemma StepAnnounces(inits: map<string, Stamp>, c: Cluster, a: Action)
    requires Announced(inits, c)
    ensures Announced(inits, Next(inits, c, a))
  {
    if a.name in c.nodes && a.name in inits {
      hide ListUpdated, Flushed, Earlier;
      var n := c.nodes[a.name];
      match a
      case Deliver(_, beat) =>
        FlushKeepsElection(n.(phase := Ready, master := beat.master, pendingTicks := 0, syncTicks := 0, ready := true));
      case Publish(_, t, m) => FlushKeepsElection(n);
      case FlushPending(_) => FlushKeepsElection(n);
      case Tick(_) =>
      case Destroy(_) =>
    }
  }

  lemma {:induction false} RunAnnounces(inits: map<string, Stamp>, c: Cluster, actions: seq<Action>)
    requires Announced(inits, c)
    ensures Announced(inits, Run(inits, c, actions))
    decreases |actions|
  {
    if actions != [] {
      hide Announced, Next;
      StepAnnounces(inits, c, actions[0]);
      RunAnnounces(inits, Next(inits, c, actions[0]), actions[1..]);
    }
  }

  /** In every run every node, dead or alive, has told of the state and the master it has now. */
  lemma {:induction false} StatesAreAnnounced(inits: map<string, Stamp>, actions: seq<Action>, x: string)
    requires x in inits
    ensures var c := Run(inits, Initial(inits), actions);
      x in c.nodes && Beat(x, inits[x], c.nodes[x].phase, c.nodes[x].master) in c.sent
  {
    hide Run;
    EveryRun(inits, actions, x);
    RunAnnounces(inits, Initial(inits), actions);
  }

  /** In every run, whoever leads itself is alive and has told so. */
  lemma {:induction false} LeaderHasClaimed(inits: map<string, Stamp>, actions: seq<Action>, x: string)
    requires "" !in inits && x in inits && LeadsItself(Run(inits, Initial(inits), actions), x)
    ensures var c := Run(inits, Initial(inits), actions);
      Alive(inits, c, x) && NodeOk(x, c.nodes[x]) && Claim(inits, x) in c.sent
  {
    hide Run;
    AliveIsOk(inits, actions, x);
    RunAnnounces(inits, Initial(inits), actions);
  }

  lemma {:induction false} RunThen(inits: map<string, Stamp>, c: Cluster, before: seq<Action>, after: seq<Action>)
    ensures Run(inits, c, before + after) == Run(inits, Run(inits, c, before), after)
    decreases |before|
  {
    if before == [] {
      assert before + after == after;
    } else {
      hide Next;
      assert (before + after)[1..] == before[1..] + after;
      RunThen(inits, Next(inits, c, before[0]), before[1..], after);
    }
  }

  /** The ticks of one node leave every other as it is. */
  lemma {:induction false} TicksLeaveOthers(inits: map<string, Stamp>, c: Cluster, x: string, k: nat, y: string)
    requires y in c.nodes && y != x
    ensures y in Run(inits, c, Ticks(x, k)).nodes && Run(inits, c, Ticks(x, k)).nodes[y] == c.nodes[y]
    ensures Destroy(y) !in Ticks(x, k) && Destroy(x) !in Ticks(x, k)
  {
    if k > 0 {
      TicksLeaveOthers(inits, c, x, k - 1, y);
      RunOn(inits, c, Ticks(x, k - 1), Tick(x));
    }
  }

  /** For any two nodes there is a run after which both lead themselves. */
  lemma BothCanLead(inits: map<string, Stamp>, x: string, y: string) returns (actions: seq<Action>)
    requires x in inits && y in inits && x != y
    ensures var c := Run(inits, Initial(inits), actions); !c.failed && LeadsItself(c, x) && LeadsItself(c, y)
  {
    hide Run, Ticks;
    actions := Ticks(x, 3) + Ticks(y, 3);
    var c := Initial(inits);
    var d := Run(inits, c, Ticks(x, 3));
    TicksInCluster(inits, c, x, 3);
    LeftAloneLeads(x, FRESH_NODE, 3);
    TicksLeaveOthers(inits, c, x, 3, y);
    TicksInCluster(inits, d, y, 3);
    LeftAloneLeads(y, FRESH_NODE, 3);
    TicksLeaveOthers(inits, d, y, 3, x);
    RunThen(inits, c, Ticks(x, 3), Ticks(y, 3));
  }

  /** `x` and `y` have heard each other's claim to lead, `x` first. */
  function Exchanged(inits: map<string, Stamp>, c: Cluster, x: string, y: string): (d: Cluster)
    requires x in inits && y in inits
  {
    Next(inits, Next(inits, c, Deliver(x, Claim(inits, y))), Deliver(y, Claim(inits, x)))
  }

  lemma {:induction false} AfterExchange(inits: map<string, Stamp>, actions: seq<Action>, x: string, y: string)
    requires "" !in inits && x != y && x in inits && y in inits
    requires var c := Run(inits, Initial(inits), actions); LeadsItself(c, x) && LeadsItself(c, y)
    ensures var d := Exchanged(inits, Run(inits, Initial(inits), actions), x, y);
      && Follows(d, x, if Earlier(inits[y], inits[x]) then y else x)
      && Follows(d, y, if Earlier(inits[x], inits[y]) then x else y)
  {
    hide Run, Next, Earlier;
    var c := Run(inits, Initial(inits), actions);
    LeaderHasClaimed(inits, actions, x);
    LeaderHasClaimed(inits, actions, y);
    MasterHears(inits, c, x, Claim(inits, y));
    MasterHears(inits, Next(inits, c, Deliver(x, Claim(inits, y))), y, Claim(inits, x));
  }

  /**
   When two nodes both lead themselves and each hears the other, in either order, the one that
   started earlier goes on leading and the other follows it.
   */
  lemma {:induction false} DuelEnds(inits: map<string, Stamp>, actions: seq<Action>, x: string, y: string)
    requires "" !in inits && x != y && x in inits && y in inits && Earlier(inits[y], inits[x])
    requires var c := Run(inits, Initial(inits), actions); LeadsItself(c, x) && LeadsItself(c, y)
    ensures var c := Run(inits, Initial(inits), actions);
      var d, e := Exchanged(inits, c, x, y), Exchanged(inits, c, y, x);
      LeadsItself(d, y) && Follows(d, x, y) && LeadsItself(e, y) && Follows(e, x, y)
  {
    hide Run, Exchanged;
    AfterExchange(inits, actions, x, y);
    AfterExchange(inits, actions, y, x);
  }

  /** Two leaders that have heard each other both go on leading exactly when they started at the same instant. */
  lemma {:induction false} BothStillLeadIff(inits: map<string, Stamp>, actions: seq<Action>, x: string, y: string)
    requires "" !in inits && x != y && x in inits && y in inits
    requires var c := Run(inits, Initial(inits), actions); LeadsItself(c, x) && LeadsItself(c, y)
    ensures var d := Exchanged(inits, Run(inits, Initial(inits), actions), x, y);
      LeadsItself(d, x) && LeadsItself(d, y) <==> inits[x] == inits[y]
  {
    hide Run, Exchanged;
    AfterExchange(inits, actions, x, y);
  }

  /** Two masters that started at the same instant, with nobody earlier, both lead for ever. */
  lemma {:induction false} TiedMastersStay(
    inits: map<string, Stamp>, actions: seq<Action>, more: seq<Action>, x: string, y: string)
    requires NoneEarlier(inits, x) && y in inits && inits[y] == inits[x]
    requires var c := Run(inits, Initial(inits), actions); LeadsItself(c, x) && LeadsItself(c, y)
    requires Destroy(x) !in more && Destroy(y) !in more
    ensures var d := Run(inits, Run(inits, Initial(inits), actions), more);
      LeadsItself(d, x) && LeadsItself(d, y)
  {
    hide Run;
    AliveIsOk(inits, actions, x);
    SeniorStaysMaster(inits, Run(inits, Initial(inits), actions), more, x);
    SeniorStaysMaster(inits, Run(inits, Initial(inits), actions), more, y);
  }

  // ---------------------------------------------------------------- who may have to give way

  /** `z` started before `x`, and may still lead itself or has told of following somebody else than `x`. */
  ghost predicate Challenges(inits: map<string, Stamp>, c: Cluster, z: string, x: string)
    requires x in inits
  {
    && z in inits && z in c.nodes && Earlier(inits[z], inits[x])
    && (c.nodes[z].phase != Destroyed || exists b :: b in c.sent && b.id == z && b.phase == Ready && b.master != x)
  }

  ghost predicate Unchallenged(inits: map<string, Stamp>, c: Cluster, x: string)
    requires x in inits
  {
    forall z :: !Challenges(inits, c, z, x)
  }

  lemma UnchallengedLeadsOneStep(inits: map<string, Stamp>, c: Cluster, a: Action, x: string)
    requires Inv(inits, c) && x in inits && LeadsItself(c, x) && Unchallenged(inits, c, x) && a != Destroy(x)
    ensures LeadsItself(Next(inits, c, a), x)
  {
    if a.name == x {
      hide Flushed, ListUpdated;
      var n := c.nodes[x];
      match a
      case Deliver(_, beat) =>
        assert beat in c.sent ==> BeatOk(inits, beat) && !Challenges(inits, c, beat.id, x);
      case Publish(_, t, m) => FlushKeepsElection(n);
      case FlushPending(_) => FlushKeepsElection(n);
      case Tick(_) =>
    }
  }

  /** Heartbeats are only sent by the node that steps, and a destroyed node stays destroyed. */
  lemma SendersStep(inits: map<string, Stamp>, c: Cluster, a: Action, z: string)
    requires z in c.nodes && c.nodes[z].phase == Destroyed
    ensures var d := Next(inits, c, a);
      && z in d.nodes && d.nodes[z].phase == Destroyed
      && forall b :: b in d.sent && b.id == z ==> b in c.sent
  {
    hide ListUpdated, Flushed, Earlier;
  }

  lemma UnchallengedOneStep(inits: map<string, Stamp>, c: Cluster, a: Action, x: string)
    requires Inv(inits, c) && x in inits && Unchallenged(inits, c, x)
    ensures Unchallenged(inits, Next(inits, c, a), x)
  {
    hide Next, Earlier, NodeOk;
    StepKeeps(inits, c, a);
    forall z
      ensures !Challenges(inits, Next(inits, c, a), z, x)
    {
      assert !Challenges(inits, c, z, x);
      if z in inits && Earlier(inits[z], inits[x]) {
        SendersStep(inits, c, a, z);
      }
    }
  }

  lemma {:induction false} UnchallengedLeads(inits: map<string, Stamp>, c: Cluster, more: seq<Action>, x: string)
    requires Inv(inits, c) && x in inits && LeadsItself(c, x) && Unchallenged(inits, c, x) && Destroy(x) !in more
    ensures LeadsItself(Run(inits, c, more), x)
    decreases |more|
  {
    if more != [] {
      hide Inv, Next, LeadsItself, Unchallenged;
      assert more[0] in more;
      StepKeeps(inits, c, more[0]);
      UnchallengedLeadsOneStep(inits, c, more[0], x);
      UnchallengedOneStep(inits, c, more[0], x);
      UnchallengedLeads(inits, Next(inits, c, more[0]), more[1..], x);
    }
  }

  /** A challenged leader is made to follow, by a heartbeat under way or after eight ticks of the challenger. */
  lemma {:induction false} ChallengedGivesWay(inits: map<string, Stamp>, actions: seq<Action>, x: string, z: string)
    returns (more: seq<Action>)
    requires "" !in inits && x in inits
    requires var c := Run(inits, Initial(inits), actions); LeadsItself(c, x) && Challenges(inits, c, z, x)
    ensures forall y :: Destroy(y) !in more
    ensures !LeadsItself(Run(inits, Run(inits, Initial(inits), actions), more), x)
  {
    hide Run;
    var c := Run(inits, Initial(inits), actions);
    LeaderHasClaimed(inits, actions, x);
    AliveIsOk(inits, actions, z);
    if c.nodes[z].phase != Destroyed {
      RunAnnounces(inits, Initial(inits), actions);
      more := AliveChallengerWins(inits, c, x, z);
    } else {
      var b :| b in c.sent && b.id == z && b.phase == Ready && b.master != x;
      assert BeatOk(inits, b);
      HearsOther(inits, c, x, b);
      more := [Deliver(x, b)];
      OneAction(inits, c, more[0]);
    }
  }

  lemma HearsOther(inits: map<string, Stamp>, c: Cluster, x: string, beat: Beat)
    requires Alive(inits, c, x) && NodeOk(x, c.nodes[x]) && x != "" && LeadsItself(c, x)
    requires beat in c.sent && beat.id != x && beat.phase == Ready && beat.master != "" && beat.master != x
    requires Earlier(beat.init, inits[x])
    ensures !LeadsItself(Next(inits, c, Deliver(x, beat)), x)
  {
    hide Next;
    MasterHears(inits, c, x, beat);
  }

  lemma AliveChallengerWins(inits: map<string, Stamp>, c: Cluster, x: string, z: string) returns (more: seq<Action>)
    requires "" !in inits && Alive(inits, c, x) && Alive(inits, c, z) && Announced(inits, c)
    requires NodeOk(x, c.nodes[x]) && NodeOk(z, c.nodes[z]) && LeadsItself(c, x) && Earlier(inits[z], inits[x])
    ensures forall y :: Destroy(y) !in more
    ensures !LeadsItself(Run(inits, c, more), x)
  {
    hide Run, Ticks, Next, NodeOk;
    var d := Run(inits, c, Ticks(z, 8));
    TicksInCluster(inits, c, z, 8);
    LeftAloneLeads(z, c.nodes[z], 8);
    TicksLeaveOthers(inits, c, z, 8, x);
    RunAnnounces(inits, c, Ticks(z, 8));
    HearsOther(inits, d, x, Claim(inits, z));
    RunOn(inits, c, Ticks(z, 8), Deliver(x, Claim(inits, z)));
    TicksAreTicks(z, 8);
    more := Ticks(z, 8) + [Deliver(x, Claim(inits, z))];
  }

  lemma OneAction(inits: map<string, Stamp>, c: Cluster, a: Action)
    ensures Run(inits, c, [a]) == Next(inits, c, a)
  {
    hide Next;
    assert [a][1..] == [];
  }

  lemma {:induction false} TicksAreTicks(x: string, k: nat)
    ensures forall a :: a in Ticks(x, k) ==> a == Tick(x)
  {
    if k > 0 {
      TicksAreTicks(x, k - 1);
    }
  }

  /**
   Two leaders both lead in every continuation in which neither is destroyed exactly when no
   node challenges either: the only ways out are an earlier node that is alive, or a heartbeat of an
   earlier node that follows somebody else. With `x == y` this is about a single leader.
   */
  lemma {:induction false} LeadForEverIff(inits: map<string, Stamp>, actions: seq<Action>, x: string, y: string)
    requires "" !in inits && x in inits && y in inits
    requires var c := Run(inits, Initial(inits), actions); LeadsItself(c, x) && LeadsItself(c, y)
    ensures var c := Run(inits, Initial(inits), actions);
      (forall more :: Destroy(x) !in more && Destroy(y) !in more ==>
         LeadsItself(Run(inits, c, more), x) && LeadsItself(Run(inits, c, more), y)) <==>
      Unchallenged(inits, c, x) && Unchallenged(inits, c, y)
  {
    hide Run, Challenges, LeadsItself;
    var c := Run(inits, Initial(inits), actions);
    AliveIsOk(inits, actions, x);
    if z, s :| s in {x, y} && Challenges(inits, c, z, s) {
      var more := ChallengedGivesWay(inits, actions, s, z);
    } else {
      forall more | Destroy(x) !in more && Destroy(y) !in more
        ensures LeadsItself(Run(inits, c, more), x) && LeadsItself(Run(inits, c, more), y)
      {
        UnchallengedLeads(inits, c, more, x);
        UnchallengedLeads(inits, c, more, y);
      }
    }
  }
}
