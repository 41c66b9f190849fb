/**
 One node of the networked message bus: the heartbeat tick, the reconciliation of another
 node's heartbeat, and the queue of messages held back until a master is known.

 `NetNode` is the object; the functions on `Node` values say what its methods do. Assertions
 of the source are kept: where one fails, the step is `AssertionFailed` and nothing else.
 */
module ElectionNode {
  const MASTER_PENDING_MAX: nat := 3
  const MASTER_SYNC_MAX: nat := 5

  type Topic = string
  type Message(!new, ==)
  type Queues = map<Topic, seq<Message>>

  datatype Stamp = Stamp(seconds: int, nanos: int)

  datatype Phase = MasterPending | Ready | Destroyed

  /** What a node says of itself in a heartbeat. */
  datatype Beat = Beat(id: string, init: Stamp, phase: Phase, master: string)

  datatype Node = Node(
    phase: Phase, master: string, pendingTicks: nat, syncTicks: nat, ready: bool, nodelist: seq<Beat>,
    deferred: Queues, written: Queues)

  datatype Step = Done(node: Node, beats: seq<Beat>) | AssertionFailed

  predicate Earlier(a: Stamp, b: Stamp) {
    a.seconds < b.seconds || (a.seconds == b.seconds && a.nanos < b.nanos)
  }

  function BeatOf(name: string, init: Stamp, n: Node): (b: Beat) {
    Beat(name, init, n.phase, n.master)
  }

  /** A node with both handlers right after construction. */
  const FRESH_NODE := Node(MasterPending, "", 0, 0, false, [], map[], map[])

  // ---------------------------------------------------------------- the steps

  function Ticked(name: string, n: Node): (r: Node) {
    match n.phase
    case MasterPending =>
      if n.pendingTicks + 1 >= MASTER_PENDING_MAX
      then n.(pendingTicks := 0, phase := Ready, master := name, ready := true)
      else n.(pendingTicks := n.pendingTicks + 1)
    case Ready =>
      if n.master == name then n
      else if n.syncTicks + 1 >= MASTER_SYNC_MAX
      then n.(syncTicks := 0, phase := MasterPending, master := "", ready := false)
      else n.(syncTicks := n.syncTicks + 1)
    case Destroyed => n
  }

  function At(m: Queues, t: Topic): (r: seq<Message>) {
    if t in m then m[t] else []
  }

  /** `written` after the queues of the topics in `done` went out. */
  function Drained(written: Queues, deferred: Queues, done: set<Topic>): (r: Queues) {
    map t | t in written.Keys + done :: if t in done then At(written, t) + At(deferred, t) else At(written, t)
  }

  function Cleared(deferred: Queues, done: set<Topic>): (r: Queues) {
    map t | t in deferred.Keys :: if t in done then [] else At(deferred, t)
  }

  /** Every deferred message is written, topic by topic, and every queue is left empty. */
  function Flushed(n: Node): (r: Node) {
    n.(written := Drained(n.written, n.deferred, n.deferred.Keys), deferred := Cleared(n.deferred, n.deferred.Keys))
  }

  lemma DrainOne(written: Queues, deferred: Queues, done: set<Topic>, t: Topic)
    requires t in deferred && t !in done
    ensures Drained(written, deferred, done)[t := At(Drained(written, deferred, done), t) + deferred[t]] ==
      Drained(written, deferred, done + {t})
    ensures Cleared(deferred, done)[t := []] == Cleared(deferred, done + {t})
  {
  }

  /** A locally published message reaches the network side. */
  function Published(n: Node, t: Topic, m: Message): (r: Node) {
    if n.ready then var f := Flushed(n); f.(written := f.written[t := At(f.written, t) + [m]])
    else n.(deferred := n.deferred[t := At(n.deferred, t) + [m]])
  }

  function Find(list: seq<Beat>, id: string): (index: nat)
    ensures index <= |list|
  {
    if list == [] || list[0].id == id then 0 else 1 + Find(list[1..], id)
  }

  function ListUpdated(list: seq<Beat>, other: Beat): (r: seq<Beat>) {
    var index := Find(list, other.id);
    if other.phase == Destroyed then
      if index >= |list| then list else list[..index] + list[index + 1..]
    else if index >= |list| then list + [other]
    else list[index := other]
  }

  /** Election state after another node's heartbeat, before the node list is updated. */
  function Elected(name: string, init: Stamp, n: Node, other: Beat): (r: Step) {
    if n.phase == MasterPending && other.phase == Ready then
      if n.master != "" || other.master == "" then AssertionFailed
      else
        var t := n.(phase := Ready, master := other.master, pendingTicks := 0, syncTicks := 0, ready := true);
        Done(Flushed(t), [BeatOf(name, init, t)])
    else if n.phase == Ready then
      if n.master == "" || n.pendingTicks != 0 then AssertionFailed
      else if other.id == n.master then
        if other.phase == Ready then Done(n.(syncTicks := 0), [])
        else if other.master != "" then AssertionFailed
        else
          var t := n.(phase := MasterPending, master := "", pendingTicks := 0, syncTicks := 0, ready := false);
          Done(t, [BeatOf(name, init, t)])
      else if other.phase == Ready && other.master != n.master then
        if other.master == "" then AssertionFailed
        else if Earlier(other.init, init) then
          var t := n.(master := other.master, pendingTicks := 0, syncTicks := 0);
          Done(t, [BeatOf(name, init, t)])
        else Done(n, [])
      else Done(n, [])
    else Done(n, [])
  }

  function Reconciled(name: string, init: Stamp, n: Node, other: Beat): (r: Step) {
    match Elected(name, init, n, other)
    case AssertionFailed => AssertionFailed
    case Done(t, beats) => Done(t.(nodelist := ListUpdated(n.nodelist, other)), beats)
  }

  function Closed(n: Node): (r: Node) {
    n.(phase := Destroyed, master := "")
  }

  // ---------------------------------------------------------------- the object

  class NetNode {
    const name: string
    const init: Stamp
    var phase: Phase
    var master: string
    var pendingTicks: nat
    var syncTicks: nat
    var ready: bool
    var nodelist: seq<Beat>
    var deferred: Queues
    var written: Queues

    function Value(): (n: Node)
      reads this
    {
      Node(phase, master, pendingTicks, syncTicks, ready, nodelist, deferred, written)
    }

    constructor (name: string, init: Stamp)
      ensures this.name == name && this.init == init && Value() == FRESH_NODE
    {
      this.name, this.init := name, init;
      phase, master, pendingTicks, syncTicks, ready := MasterPending, "", 0, 0, false;
      nodelist, deferred, written := [], map[], map[];
    }

    method Tick() returns (beat: Beat)
      modifies this
      ensures Value() == Ticked(name, old(Value()))
      ensures beat == BeatOf(name, init, Value())
    {
      if phase == MasterPending {
        pendingTicks := pendingTicks + 1;
        if pendingTicks >= MASTER_PENDING_MAX {
          pendingTicks := 0;
          phase := Ready;
          master := name;
          ready := true;
        }
      } else if phase == Ready {
        if master != name {
          syncTicks := syncTicks + 1;
          if syncTicks >= MASTER_SYNC_MAX {
            syncTicks := 0;
            master := "";
            phase := MasterPending;
            ready := false;
          }
        }
      }
      beat := BeatOf(name, init, Value());
    }

    method SendPending()
      requires ready
      modifies `deferred, `written
      ensures Value() == Flushed(old(Value()))
    {
      ghost var done: set<Topic> := {};
      var topics := deferred.Keys;
      assert written == Drained(written, deferred, {}) && deferred == Cleared(deferred, {});
      while topics != {}
        invariant done !! topics && done + topics == old(deferred.Keys)
        invariant written == Drained(old(written), old(deferred), done)
        invariant deferred == Cleared(old(deferred), done)
        decreases topics
      {
        var t :| t in topics;
        DrainOne(old(written), old(deferred), done, t);
        written := written[t := At(written, t) + deferred[t]];
        deferred := deferred[t := []];
        topics := topics - {t};
        done := done + {t};
      }
      assert done == old(deferred.Keys);
    }

    method Publish(t: Topic, m: Message)
      modifies this
      ensures Value() == Published(old(Value()), t, m)
    {
      if ready {
        SendPending();
        written := written[t := At(written, t) + [m]];
      } else {
        deferred := deferred[t := At(deferred, t) + [m]];
      }
    }

    /** `failed` reports an assertion that does not hold; the object is then abandoned. */
    method Reconcile(other: Beat) returns (failed: bool, beats: seq<Beat>)
      modifies this
      ensures failed <==> Reconciled(name, init, old(Value()), other) == AssertionFailed
      ensures !failed ==> Reconciled(name, init, old(Value()), other) == Done(Value(), beats)
    {
      failed, beats := false, [];
      if phase == MasterPending && other.phase == Ready {
        if master != "" || other.master == "" {
          return true, [];
        }
        phase := Ready;
        master := other.master;
        pendingTicks, syncTicks := 0, 0;
        beats := [BeatOf(name, init, Value())];
        ready := true;
        SendPending();
      } else if phase == Ready {
        if master == "" || pendingTicks != 0 {
          return true, [];
        }
        if other.id == master {
          if other.phase == Ready {
            syncTicks := 0;
          } else {
            if other.master != "" {
              return true, [];
            }
            phase := MasterPending;
            master := "";
            pendingTicks, syncTicks := 0, 0;
            beats := [BeatOf(name, init, Value())];
            ready := false;
          }
        } else if other.phase == Ready && other.master != master {
          if other.master == "" {
            return true, [];
          }
          if Earlier(other.init, init) {
            master := other.master;
            pendingTicks, syncTicks := 0, 0;
            beats := [BeatOf(name, init, Value())];
          }
        }
      }
      UpdateNodelist(other);
    }

    method UpdateNodelist(other: Beat)
      modifies `nodelist
      ensures nodelist == ListUpdated(old(nodelist), other)
    {
      var index := 0;
      while index < |nodelist|
        invariant index <= |nodelist| && nodelist == old(nodelist)
        invariant Find(nodelist, other.id) == index + Find(nodelist[index..], other.id)
      {
        if other.id == nodelist[index].id {
          break;
        }
        index := index + 1;
      }
      assert Find(nodelist, other.id) == index;
      if other.phase == Destroyed {
        if index < |nodelist| {
          nodelist := nodelist[..index] + nodelist[index + 1..];
        }
      } else if index >= |nodelist| {
        nodelist := nodelist + [other];
      } else {
        nodelist := nodelist[index := other];
      }
    }
  }
}
