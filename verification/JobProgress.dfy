/**
 What one run of the executor picks, and that an executor left to itself finishes every job.
 */
module JobProgress {
  import opened Common
  import opened JobExecutor

  function Steps(s: State, actions: seq<Action>): (t: State)
    decreases |actions|
  {
    if actions == [] then s else Steps(Next(s, actions[0]), actions[1..])
  }

  lemma {:induction false} StepsThen(s: State, a: seq<Action>, b: seq<Action>)
    ensures Steps(s, a + b) == Steps(Steps(s, a), b)
    decreases |a|
  {
    if a == [] {
      assert a + b == b;
    } else {
      hide Next;
      assert (a + b)[1..] == a[1..] + b;
      StepsThen(Next(s, a[0]), a[1..], b);
    }
  }

  lemma {:induction false} StepsKeep(s: State, actions: seq<Action>)
    requires Inv(s)
    ensures Inv(Steps(s, actions))
    decreases |actions|
  {
    if actions != [] {
      hide Inv, Next;
      StepKeeps(s, actions[0]);
      StepsKeep(Next(s, actions[0]), actions[1..]);
    }
  }

  lemma OneStep(s: State, a: Action)
    ensures Steps(s, [a]) == Next(s, a)
  {
    hide Next;
    assert [a][1..] == [];
  }

  /** One more step. */
  lemma Then(s: State, before: seq<Action>, a: Action) returns (actions: seq<Action>)
    ensures actions == before + [a] && Steps(s, actions) == Next(Steps(s, before), a)
  {
    hide Next, Steps;
    actions := before + [a];
    StepsThen(s, before, [a]);
    OneStep(Steps(s, before), a);
  }

  // ---------------------------------------------------------------- submitting

  /** A job of any priority but the scheduler's own is accepted at the end of its queue. */
  lemma SubmitIsAccepted(s: State, p: Pid, job: Job)
    requires p in s.submitters ==> s.submitters[p] == Resting
    ensures var t := Next(s, Submit(p, job));
      && (job.priority == Sched ==> t == s)
      && (job.priority != Sched ==>
            && t.accepted == s.accepted + [job] && t.submitters == s.submitters[p := Pushed]
            && Queue(t, job.priority) == Queue(s, job.priority) + [job]
            && forall q: Priority :: q != job.priority ==> Queue(t, q) == Queue(s, q))
  {
  }

  /** It is counted in the next step, and the first job counted starts an executor task in the one after. */
  lemma SubmitterFinishes(s: State, p: Pid)
    requires p in s.submitters && s.submitters[p] == Pushed
    ensures var t := Next(s, StepSubmitter(p));
      && t.count == s.count + 1 && p in t.submitters
      && (s.count != 0 ==> t.submitters[p] == Resting && t.queuedTasks == s.queuedTasks)
      && (s.count == 0 ==>
            var u := Next(t, StepSubmitter(p));
            p in u.submitters && u.submitters[p] == Resting && u.queuedTasks == s.queuedTasks + 1)
  {
  }

  // ---------------------------------------------------------------- what is picked

  /** A queue is only ever noted as empty by a poll that finds it empty. */
  lemma NotedEmptyIsEmpty(s: State, a: Action, p: Priority)
    requires p in Next(s, a).polledEmpty && p !in s.polledEmpty
    ensures a == Poll && Queue(s, p) == []
  {
  }

  /** Every executor run starts without such notes. */
  lemma RunStartsUnpolled(s: State)
    requires s.executor == Off && s.queuedTasks > 0
    ensures var t := Next(s, StartExecutor);
      t.executor != Off && t.polledEmpty == {} && t.queuedTasks == s.queuedTasks - 1
  {
  }

  /** Jobs of this priority are queued, and they outrank whatever is suspended. */
  predicate Candidate(s: State, p: Priority) {
    p != Sched && Queue(s, p) != [] && (s.jobs == [] || Level(p) < Level(s.jobs[|s.jobs| - 1].priority))
  }

  predicate Highest(s: State, p: Priority) {
    Candidate(s, p) && forall q: Priority :: Candidate(s, q) ==> Level(p) <= Level(q)
  }

  /** What an executor run leaves alone until it has picked a job. */
  predicate SameBooks(s: State, t: State) {
    && t.jobs == s.jobs && t.count == s.count && t.submitters == s.submitters
    && t.accepted == s.accepted && t.finished == s.finished
  }

  /** `t` is `s` with the oldest job of priority `p` taken out of its queue. */
  predicate TookOldest(s: State, t: State, p: Priority) {
    && Queue(s, p) != [] && Queue(t, p) == Queue(s, p)[1..]
    && forall q: Priority :: q != p ==> Queue(t, q) == Queue(s, q)
  }

  /**
   An executor run with nobody in between starts the oldest job of the highest queued priority, if
   that outranks the job on top of the stack; otherwise it goes on with the job on top.
   */
  lemma PicksHighest(s: State) returns (actions: seq<Action>, p: Option<Priority>)
    requires Inv(s) && s.executor == Off && s.queuedTasks > 0
    ensures var t := Steps(s, actions);
      && Inv(t) && SameBooks(s, t) && t.queuedTasks == s.queuedTasks - 1
      && (p.Some? ==> Highest(s, p.value) && t.executor == Creating(Queue(s, p.value)[0]) && TookOldest(s, t, p.value))
      && (p.None? ==> (forall q: Priority :: !Candidate(s, q)) && s.jobs != [] && t.executor == Scheduling
                      && forall q: Priority :: Queue(t, q) == Queue(s, q))
  {
    hide Inv, Steps;
    actions := [StartExecutor];
    OneStep(s, StartExecutor);
    p := None;
    var t := Next(s, StartExecutor);
    QueuesOf(s);
    TopOutranks(s);
    if t.executor != Scheduling {
      actions := Then(s, actions, Poll);
      if s.high != [] {
        p := Some(High);
      } else if TopPriority(s.jobs) != Medium {
        actions := Then(s, actions, Poll);
        if s.medium != [] {
          p := Some(Medium);
        } else if TopPriority(s.jobs) != Low {
          actions := Then(s, actions, Poll);
          p := Some(Low);
        }
      }
    }
    StepsKeep(s, actions);
    QueuesOf(Steps(s, actions));
  }

  lemma QueuesOf(s: State)
    ensures Queue(s, High) == s.high && Queue(s, Medium) == s.medium && Queue(s, Low) == s.low && Queue(s, Sched) == []
  {
  }

  /** An executor task that is about to run with nothing suspended finds a job queued. */
  lemma TopOutranks(s: State)
    requires Inv(s) && s.executor == Off && s.queuedTasks > 0
    ensures s.jobs == [] ==> s.high != [] || s.medium != [] || s.low != []
    ensures s.jobs != [] ==> s.jobs[|s.jobs| - 1].priority != Sched
  {
    hide Those, Sorted, NothingLost;
  }

  // ---------------------------------------------------------------- one job, and all of them

  /** A whole executor run in which the picked job completes: it is finished and counted, and nothing else changes. */
  lemma RunsOneJob(s: State) returns (actions: seq<Action>, p: Option<Priority>)
    requires Inv(s) && s.executor == Off && s.queuedTasks > 0
    ensures var t := Steps(s, actions);
      && Inv(t) && t.executor == Off && t.submitters == s.submitters && t.accepted == s.accepted
      && t.count == s.count - 1
      && (p.Some? ==> Highest(s, p.value) && t.finished == s.finished + [Queue(s, p.value)[0]] && t.jobs == s.jobs
                      && TookOldest(s, t, p.value))
      && (p.None? ==> (forall q: Priority :: !Candidate(s, q)) && s.jobs != []
                      && t.finished == s.finished + [s.jobs[|s.jobs| - 1]] && t.jobs == s.jobs[..|s.jobs| - 1])
  {
    hide Inv, Steps, Next, Highest, TookOldest, Candidate;
    actions, p := PicksHighest(s);
    var u := Steps(s, actions);
    if p.Some? {
      CreatesJob(u);
      StepKeeps(u, Create(false));
      actions := Then(s, actions, Create(false));
      TakenStays(s, u, Next(u, Create(false)), p.value);
      u := Next(u, Create(false));
    }
    var end := EndsRun(u);
    StepsThen(s, actions, end);
    StepsKeep(s, actions + end);
    if p.Some? {
      TakenStays(s, u, Steps(u, end), p.value);
    }
    actions := actions + end;
  }

  lemma TakenStays(s: State, t: State, u: State, p: Priority)
    requires TookOldest(s, t, p) && u.high == t.high && u.medium == t.medium && u.low == t.low
    ensures TookOldest(s, u, p)
  {
    QueuesOf(t);
    QueuesOf(u);
    assert forall q: Priority :: Queue(u, q) == Queue(t, q);
  }

  lemma CreatesJob(s: State)
    requires s.executor.Creating?
    ensures var t := Next(s, Create(false));
      && t.executor == Scheduling && t.jobs == s.jobs + [s.executor.job]
      && t.high == s.high && t.medium == s.medium && t.low == s.low
      && t.count == s.count && t.submitters == s.submitters && t.accepted == s.accepted && t.finished == s.finished
  {
  }

  /** The job on top completes and is counted, and the next executor task is queued if there is work. */
  lemma EndsRun(s: State) returns (actions: seq<Action>)
    requires Inv(s) && s.executor == Scheduling
    ensures var t := Steps(s, actions);
      && t.executor == Off && t.submitters == s.submitters && t.accepted == s.accepted && t.count == s.count - 1
      && s.jobs != [] && t.finished == s.finished + [s.jobs[|s.jobs| - 1]] && t.jobs == s.jobs[..|s.jobs| - 1]
      && t.high == s.high && t.medium == s.medium && t.low == s.low
  {
    hide Inv, Steps;
    TopIsTask(s);
    actions := [Resume(true)];
    OneStep(s, Resume(true));
    actions := Then(s, actions, Subtract);
    if s.count > 1 {
      actions := Then(s, actions, Respawn);
    }
  }

  lemma TopIsTask(s: State)
    requires Inv(s) && s.executor == Scheduling
    ensures s.jobs == s.tasks && s.jobs != []
  {
    hide Those;
  }

  /** When no thread is in the middle of adding a job, the executor alone finishes every accepted job. */
  lemma {:induction false} FinishesAll(s: State) returns (actions: seq<Action>)
    requires Inv(s) && s.executor == Off && forall p :: p in s.submitters ==> s.submitters[p] == Resting
    ensures var t := Steps(s, actions);
      && t.executor == Off && t.count == 0 && t.jobs == [] && t.accepted == s.accepted
      && (forall p: Priority :: Queue(t, p) == []) && |t.finished| == |s.finished| + s.count
      && (forall p: Priority :: Of(t.finished, p) == Of(t.accepted, p))
    decreases s.count
  {
    hide Steps, Inv;
    CountsWhenResting(s);
    if s.count == 0 {
      actions := [];
      Nothing(s);
      AllFinished(s);
    } else {
      var run, p := RunsOneJob(s);
      var rest := FinishesAll(Steps(s, run));
      StepsThen(s, run, rest);
      actions := run + rest;
    }
  }

  lemma Nothing(s: State)
    ensures Steps(s, []) == s
  {
  }

  lemma CountsWhenResting(s: State)
    requires Inv(s) && s.executor == Off && forall p :: p in s.submitters ==> s.submitters[p] == Resting
    ensures s.count >= 0 && (s.count > 0 ==> s.queuedTasks > 0)
    ensures s.count == |s.high| + |s.medium| + |s.low| + |s.jobs|
  {
    hide Sorted, NothingLost, Rising;
    assert Those(s.submitters, IsPushed) == {} && Those(s.submitters, IsSpawning) == {};
  }

  lemma AllFinished(s: State)
    requires Inv(s) && s.executor == Off && s.high == s.medium == s.low == s.jobs == []
    ensures forall p: Priority :: Queue(s, p) == [] && Of(s.finished, p) == Of(s.accepted, p)
  {
    hide Sorted, Rising, Those;
    forall p: Priority ensures Queue(s, p) == [] && Of(s.finished, p) == Of(s.accepted, p) {
      assert InOrder(s, p);
      assert Of(s.finished, p) + [] + ([] + []) == Of(s.finished, p);
    }
  }
}
