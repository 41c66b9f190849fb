/**
 When a job may be left suspended on the stack as the executor gives up its token, in terms of
 the jobs that callers submit and of those among them that may suspend.
 */
module JobLeftovers {
  import opened JobExecutor

  /** Jobs that may be submitted, and those that may suspend before they complete. */
  datatype Workload = Workload(submitted: set<Job>, suspending: set<Job>)

  /** The action submits only jobs of the workload, and suspends only those that may. */
  predicate Fits(w: Workload, s: State, a: Action) {
    && (a.Submit? ==> a.job in w.submitted)
    && (a.Resume? && !a.done && s.executor == Scheduling && s.jobs != [] ==> s.jobs[|s.jobs| - 1] in w.suspending)
  }

  predicate Obeys(w: Workload, actions: seq<Action>) {
    actions == [] ||
    (Obeys(w, actions[..|actions| - 1]) && Fits(w, Run(Initial(), actions[..|actions| - 1]), actions[|actions| - 1]))
  }

  /** The source asserts an empty stack where a job has completed and the counter goes to zero. */
  predicate AssertionHolds(s: State) {
    s.executor == Subtracting(false) && s.count <= 1 ==> s.jobs == []
  }

  /** The stack is empty at every give-up, be the last job completed or failed. */
  predicate EmptyAtGiveUp(s: State) {
    s.executor.Subtracting? && s.count <= 1 ==> s.jobs == []
  }

  /** The submitted job `urgent` is accepted, and outranks the submitted job `job`, which may suspend. */
  predicate Overtakes(w: Workload, urgent: Job, job: Job) {
    && urgent in w.submitted && job in w.submitted && job in w.suspending
    && 0 < Level(urgent.priority) < Level(job.priority)
  }

  // ---------------------------------------------------------------- without overtaking

  /** Every accepted job is one of the workload; all on the stack but the one about to be resumed have suspended. */
  ghost predicate Known(w: Workload, s: State) {
    && (forall j :: j in s.high || j in s.medium || j in s.low || j in s.jobs ==> j in w.submitted)
    && (s.executor.Creating? ==> s.executor.job in w.submitted)
    && (forall i :: 0 <= i < |s.jobs| - (if s.executor == Scheduling then 1 else 0) ==> s.jobs[i] in w.suspending)
    && (s.executor.Subtracting? ==> s.finished != [] && Ended(w, s.jobs, s.finished[|s.finished| - 1]))
  }

  /** The job that has just ended outranks what is left on the stack. */
  predicate Ended(w: Workload, jobs: seq<Job>, job: Job) {
    job in w.submitted && 0 < Level(job.priority) && (jobs != [] ==> Level(job.priority) < Level(TopPriority(jobs)))
  }

  lemma PollKnown(w: Workload, s: State)
    requires Known(w, s)
    ensures Known(w, PollStep(s))
  {
  }

  lemma ResumeKnown(w: Workload, s: State, done: bool)
    requires Inv(s) && Known(w, s) && Fits(w, s, Resume(done)) && s.executor == Scheduling
    ensures Known(w, ResumeStep(s, done))
  {
    hide TokenOk, CountOk, NothingLost, HigherPolled, Sorted;
    var n := |s.jobs| - 1;
    assert s.jobs[n] in s.jobs;
    assert n > 0 ==> Level(s.jobs[n].priority) < Level(s.jobs[n - 1].priority);
  }

  lemma CreateKnown(w: Workload, s: State, throws: bool)
    requires Inv(s) && Known(w, s) && s.executor.Creating?
    ensures Known(w, CreateStep(s, s.executor.job, throws))
  {
    hide TokenOk, CountOk, NothingLost, HigherPolled, Sorted;
    var all := s.jobs + [s.executor.job];
    assert s.jobs != [] ==> Level(all[|s.jobs|].priority) < Level(all[|s.jobs| - 1].priority);
  }

  lemma StepKnown(w: Workload, s: State, a: Action)
    requires Inv(s) && Known(w, s) && Fits(w, s, a)
    ensures Known(w, Next(s, a))
  {
    hide TokenOk, CountOk, NothingLost, HigherPolled, Sorted, ExecutorOk, Rising, Ended;
    hide PollStep, CreateStep, ResumeStep;
    match a
    case Poll => PollKnown(w, s);
    case Create(throws) => if s.executor.Creating? { CreateKnown(w, s, throws); }
    case Resume(done) => if s.executor == Scheduling { ResumeKnown(w, s, done); }
    case _ =>
  }

  lemma {:induction false} RunsKnown(w: Workload, actions: seq<Action>)
    requires Obeys(w, actions)
    ensures Known(w, Run(Initial(), actions))
  {
    if actions != [] {
      hide Known, Next, Fits;
      var before := actions[..|actions| - 1];
      RunsKnown(w, before);
      RunsKeepInv(before);
      StepKnown(w, Run(Initial(), before), actions[|actions| - 1]);
    }
  }

  /** Whatever is left on the stack when a job has ended, completed or failed, was overtaken by that job. */
  lemma {:induction false} LeftoverWasOvertaken(w: Workload, actions: seq<Action>)
    requires Obeys(w, actions)
    ensures var s := Run(Initial(), actions);
      s.executor.Subtracting? && s.jobs != [] ==>
        s.finished != [] && Overtakes(w, s.finished[|s.finished| - 1], s.jobs[|s.jobs| - 1])
  {
    hide Run, Obeys;
    RunsKnown(w, actions);
    var jobs := Run(Initial(), actions).jobs;
    assert jobs != [] ==> jobs[|jobs| - 1] in jobs;
  }

  // ---------------------------------------------------------------- with overtaking

  /** One more action at the end of a run. */
  lemma Extend(w: Workload, s: State, actions: seq<Action>, a: Action) returns (more: seq<Action>, t: State)
    requires Run(Initial(), actions) == s && Obeys(w, actions) && Fits(w, s, a)
    ensures t == Next(s, a) && Run(Initial(), more) == t && Obeys(w, more)
  {
    more, t := actions + [a], Next(s, a);
    assert more[..|actions|] == actions;
  }

  /** Everything queued is the one job. */
  predicate OnlyQueued(s: State, job: Job) {
    forall p: Priority :: Queue(s, p) == if p == job.priority then [job] else []
  }

  /** A thread adds a job and asks for an executor task. */
  lemma AddedJob(w: Workload, job: Job) returns (actions: seq<Action>, s: State)
    requires job in w.submitted && job.priority != Sched
    ensures s == Run(Initial(), actions) && Obeys(w, actions)
    ensures OnlyQueued(s, job) && s.count == 1 && s.queuedTasks == 1 && s.executor == Off && s.jobs == s.tasks == []
    ensures s.submitters == map[0 := Resting]
  {
    s := Initial();
    actions := [];
    assert Run(Initial(), actions) == s && Obeys(w, actions);
    hide Run, Obeys, PollStep, CreateStep, ResumeStep, SubtractStep, Start;
    actions, s := Extend(w, s, actions, Submit(0, job));
    actions, s := Extend(w, s, actions, StepSubmitter(0));
    assert s.submitters == map[0 := Spawning];
    actions, s := Extend(w, s, actions, StepSubmitter(0));
    assert s.submitters == map[0 := Resting];
  }

  /** A started executor polls its way to the only queued job, if it may poll that far. */
  lemma FoundJob(w: Workload, s0: State, actions0: seq<Action>, job: Job) returns (actions: seq<Action>, s: State)
    requires s0 == Run(Initial(), actions0) && Obeys(w, actions0)
    requires s0.executor.PollHigh? && OnlyQueued(s0, job) && 0 < Level(job.priority)
    requires s0.executor.state == Sched || Level(job.priority) < Level(s0.executor.state)
    ensures s == Run(Initial(), actions) && Obeys(w, actions)
    ensures s == s0.(executor := Creating(job), high := [], medium := [], low := [], polledEmpty := s.polledEmpty)
  {
    hide Run, Obeys, Enqueue, StepSubmit, CreateStep, ResumeStep, SubtractStep, Start;
    assert Queue(s0, High) == s0.high && Queue(s0, Medium) == s0.medium && Queue(s0, Low) == s0.low;
    actions, s := Extend(w, s0, actions0, Poll);
    if job.priority != High {
      actions, s := Extend(w, s, actions, Poll);
      if job.priority != Medium {
        actions, s := Extend(w, s, actions, Poll);
      }
    }
  }

  /** A job is started and suspends, and an executor task is queued again. */
  lemma SuspendedJob(w: Workload, job: Job) returns (actions: seq<Action>, s: State)
    requires job in w.submitted && job in w.suspending && 0 < Level(job.priority)
    ensures s == Run(Initial(), actions) && Obeys(w, actions)
    ensures s.high == s.medium == s.low == [] && s.jobs == s.tasks == [job] && s.count == 1
    ensures s.queuedTasks == 1 && s.executor == Off && s.submitters == map[0 := Resting]
  {
    hide Run, Obeys, Enqueue, StepSubmit, PollStep, SubtractStep, OnlyQueued;
    actions, s := AddedJob(w, job);
    SameQueued(s, job);
    actions, s := Extend(w, s, actions, StartExecutor);
    SameQueued(s, job);
    actions, s := FoundJob(w, s, actions, job);
    actions, s := Extend(w, s, actions, Create(false));
    actions, s := Extend(w, s, actions, Resume(false));
    actions, s := Extend(w, s, actions, Respawn);
  }

  lemma SameQueued(s: State, job: Job)
    ensures OnlyQueued(s, job) <==>
      && job.priority != Sched
      && s.high == (if job.priority == High then [job] else [])
      && s.medium == (if job.priority == Medium then [job] else [])
      && s.low == (if job.priority == Low then [job] else [])
  {
    if forall p: Priority :: Queue(s, p) == if p == job.priority then [job] else [] {
      assert Queue(s, High) == s.high && Queue(s, Medium) == s.medium && Queue(s, Low) == s.low;
      assert Queue(s, Sched) == [];
    }
  }

  /** The job that outranks it is pushed, not counted, and found by the next executor run. */
  lemma FoundUrgentJob(w: Workload, urgent: Job, job: Job) returns (actions: seq<Action>, s: State)
    requires Overtakes(w, urgent, job)
    ensures s == Run(Initial(), actions) && Obeys(w, actions)
    ensures s.jobs == s.tasks == [job] && s.count == 1 && s.executor == Creating(urgent)
  {
    hide Run, Obeys, StepSubmit, PollStep, CreateStep, ResumeStep, SubtractStep, OnlyQueued;
    actions, s := SuspendedJob(w, job);
    actions, s := Extend(w, s, actions, Submit(1, urgent));
    SameQueued(s, urgent);
    actions, s := Extend(w, s, actions, StartExecutor);
    SameQueued(s, urgent);
    actions, s := FoundJob(w, s, actions, urgent);
  }

  /** A job that outranks a suspended one can complete, uncounted, above it as the counter goes to zero. */
  lemma OvertakenJobIsLeft(w: Workload, urgent: Job, job: Job) returns (actions: seq<Action>)
    requires Overtakes(w, urgent, job)
    ensures Obeys(w, actions)
    ensures var s := Run(Initial(), actions); s.executor == Subtracting(false) && s.count == 1 && s.jobs == [job]
  {
    hide Run, Obeys, Enqueue, StepSubmit, PollStep, SubtractStep, Start;
    var s;
    actions, s := FoundUrgentJob(w, urgent, job);
    actions, s := Extend(w, s, actions, Create(false));
    actions, s := Extend(w, s, actions, Resume(true));
    assert s.jobs == [job];
  }

  // ---------------------------------------------------------------- exactly when

  /**
   The stack is empty at every give-up in every run of a workload exactly when no job that may
   suspend is outranked by another submitted job; and so it is where the source asserts it.
   */
  lemma {:induction false} AssertionHoldsIff(w: Workload)
    ensures (forall actions :: Obeys(w, actions) ==> AssertionHolds(Run(Initial(), actions))) <==>
      (forall urgent, job :: !Overtakes(w, urgent, job))
    ensures (forall actions :: Obeys(w, actions) ==> EmptyAtGiveUp(Run(Initial(), actions))) <==>
      (forall urgent, job :: !Overtakes(w, urgent, job))
  {
    hide Run, Obeys, Overtakes;
    if urgent, job :| Overtakes(w, urgent, job) {
      var actions := OvertakenJobIsLeft(w, urgent, job);
      assert Obeys(w, actions) && !AssertionHolds(Run(Initial(), actions)) && !EmptyAtGiveUp(Run(Initial(), actions));
    } else {
      forall actions | Obeys(w, actions)
        ensures AssertionHolds(Run(Initial(), actions)) && EmptyAtGiveUp(Run(Initial(), actions))
      {
        LeftoverWasOvertaken(w, actions);
      }
    }
  }

  /** A low-priority job that suspends and a high-priority one are enough to find the stack not empty. */
  lemma TokenGivenUpOverSuspendedJob() returns (actions: seq<Action>)
    ensures var s := Run(Initial(), actions); s.executor == Off && s.count == 0 && s.jobs == [Job(0, Low)]
  {
    hide Run;
    var job, urgent := Job(0, Low), Job(1, High);
    var w := Workload({job, urgent}, {job});
    actions := OvertakenJobIsLeft(w, urgent, job);
    var s;
    actions, s := Extend(w, Run(Initial(), actions), actions, Subtract);
  }
}
