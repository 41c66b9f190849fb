/**
 What the job executor guarantees in every run.
 */
module JobRuns {
  import opened Common
  import opened JobExecutor

  /**
   In every run the counter is never negative and never decremented at zero, every executor
   run has a job to resume, and exactly one executor task is queued, running or about to be
   queued when the counter is positive, none when it is zero.
   */
  lemma {:induction false} OneTaskIffWork(actions: seq<Action>)
    ensures var s := Run(Initial(), actions);
      && !s.fault && s.count >= 0
      && Tokens(s) == (if s.count > 0 then 1 else 0)
      && (s.executor == Scheduling ==> s.jobs != [])
  {
    hide Run, Those, Rising, NothingLost, Sorted;
    RunsKeepInv(actions);
  }

  /**
   Jobs of one priority finish in the order in which they were accepted; and when nothing is
   left to run and no thread is inside `addJob`, all of them have finished.
   */
  lemma {:induction false} NoJobIsStranded(actions: seq<Action>, p: Priority)
    ensures var s := Run(Initial(), actions);
      && Of(s.finished, p) <= Of(s.accepted, p)
      && (s.executor == Off && s.queuedTasks == 0 && (forall p :: p in s.submitters ==> s.submitters[p] == Resting) ==>
            s.count == 0 && s.high == s.medium == s.low == s.jobs == [] && Of(s.finished, p) == Of(s.accepted, p))
  {
    hide Run, Rising, Sorted, Of;
    RunsKeepInv(actions);
    var s := Run(Initial(), actions);
    assert InOrder(s, p);
    if forall p :: p in s.submitters ==> s.submitters[p] == Resting {
      assert Those(s.submitters, IsSpawning) == {} && Those(s.submitters, IsPushed) == {};
      NoneBelow([], p);
    }
  }

  /** The two stacks stay paired, priorities rise strictly, and so at most three jobs are on them. */
  lemma {:induction false} StackIsShallow(actions: seq<Action>)
    ensures var s := Run(Initial(), actions); s.jobs == s.tasks && Rising(s.jobs) && |s.jobs| <= 3
  {
    hide Run, Those, NothingLost, Sorted;
    RunsKeepInv(actions);
    RisingIsShort(Run(Initial(), actions).jobs);
  }

  lemma RisingIsShort(jobs: seq<Job>)
    requires Rising(jobs)
    ensures |jobs| <= 3
  {
    LevelsRunOut(jobs, 3);
  }

  lemma {:induction false} LevelsRunOut(jobs: seq<Job>, i: nat)
    requires Rising(jobs)
    ensures i < |jobs| ==> 1 <= Level(jobs[i].priority) <= 3 - i
  {
    if 0 < i < |jobs| {
      LevelsRunOut(jobs, i - 1);
    }
  }

  /** The job resumed outranks the rest of the stack, and every queue above it was found empty in this run. */
  lemma {:induction false} ResumedIsHighest(actions: seq<Action>)
    requires Run(Initial(), actions).executor == Scheduling
    ensures var s := Run(Initial(), actions);
      && s.jobs != []
      && (forall i :: 0 <= i < |s.jobs| - 1 ==> Level(s.jobs[|s.jobs| - 1].priority) < Level(s.jobs[i].priority))
      && (forall q: Priority :: 0 < Level(q) < Level(s.jobs[|s.jobs| - 1].priority) ==> q in s.polledEmpty)
  {
    hide Run, Those, NothingLost, Sorted;
    RunsKeepInv(actions);
  }

  /**
   When the last token is given up, the jobs still in queues and on the stack are exactly as
   many as the pushes that are not counted yet.
   */
  lemma {:induction false} LeftoversAreUncounted(actions: seq<Action>)
    requires Run(Initial(), actions).executor.Subtracting? && Run(Initial(), actions).count <= 1
    ensures var s := Next(Run(Initial(), actions), Subtract);
      && s.executor == Off && s.count == 0
      && |s.high| + |s.medium| + |s.low| + |s.jobs| == |Those(s.submitters, IsPushed)|
  {
    hide Run, Those, NothingLost, Sorted, Rising;
    RunsKeepInv(actions);
    var s := Run(Initial(), actions);
    StepKeeps(s, Subtract);
  }
}
