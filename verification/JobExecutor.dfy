/**
 The runtime's job executor: any number of threads adding jobs, one asynchronous thread
 running executor tasks, and an atomic counter that decides who may start the next task.

 Every atomic access of another thread's state is one step: the push of a job, the counter
 updates, the submission of an executor task and each poll of a queue. The main loop is entered.
 `accepted`, `finished`, `polledEmpty` and `fault` are history.
 */
module JobExecutor {
  import opened Common

  type Pid = nat

  datatype Priority = Sched | High | Medium | Low

  datatype Job = Job(id: nat, priority: Priority)

  datatype Submitter =
    | Resting
    | Pushed
    | Spawning

  /** `Subtracting` follows a job that completed, or one that could not be started. */
  datatype Executor =
    | Off
    | PollHigh(state: Priority)
    | PollMedium(state: Priority)
    | PollLow(state: Priority)
    | Creating(job: Job)
    | Scheduling
    | Subtracting(failed: bool)
    | Respawning

  /** `jobs` and `tasks` are the two parallel stacks, the top last; a task remembers its job. */
  datatype State = State(
    high: seq<Job>, medium: seq<Job>, low: seq<Job>, count: int,
    submitters: map<Pid, Submitter>, queuedTasks: nat, executor: Executor,
    jobs: seq<Job>, tasks: seq<Job>,
    accepted: seq<Job>, finished: seq<Job>, polledEmpty: set<Priority>, fault: bool)

  datatype Action =
    | Submit(p: Pid, job: Job)
    | StepSubmitter(p: Pid)
    | StartExecutor
    | Poll
    | Create(throws: bool)
    | Resume(done: bool)
    | Subtract
    | Respawn

  function Initial(): (s: State) {
    State([], [], [], 0, map[], 0, Off, [], [], [], [], {}, false)
  }

  function Level(p: Priority): (n: nat) {
    match p
    case Sched => 0
    case High => 1
    case Medium => 2
    case Low => 3
  }

  function TopPriority(jobs: seq<Job>): (p: Priority) {
    if jobs == [] then Sched else jobs[|jobs| - 1].priority
  }

  // ---------------------------------------------------------------- the steps

  /** `addJob` up to the push; the scheduler's own priority is refused before anything changes. */
  function Enqueue(s: State, p: Pid, job: Job): (r: State) {
    var t := s.(submitters := s.submitters[p := Pushed], accepted := s.accepted + [job]);
    match job.priority
    case High => t.(high := t.high + [job])
    case Medium => t.(medium := t.medium + [job])
    case Low => t.(low := t.low + [job])
    case Sched => s
  }

  function StepSubmit(s: State, p: Pid, q: Submitter): (r: State) {
    match q
    case Resting => s
    case Pushed => s.(count := s.count + 1, submitters := s.submitters[p := if s.count == 0 then Spawning else Resting])
    case Spawning => s.(queuedTasks := s.queuedTasks + 1, submitters := s.submitters[p := Resting])
  }

  /** The executor reads the top of its stack and goes to the first queue it may poll. */
  function Start(s: State): (r: State) {
    var state := TopPriority(s.jobs);
    s.(queuedTasks := if s.queuedTasks > 0 then s.queuedTasks - 1 else 0, polledEmpty := {},
       executor := if state == High then Scheduling else PollHigh(state))
  }

  function PollStep(s: State): (r: State) {
    match s.executor
    case PollHigh(state) =>
      if s.high != [] then s.(high := s.high[1..], executor := Creating(s.high[0]))
      else
        s.(polledEmpty := s.polledEmpty + {High}, executor := if state == Medium then Scheduling else PollMedium(state))
    case PollMedium(state) =>
      if s.medium != [] then s.(medium := s.medium[1..], executor := Creating(s.medium[0]))
      else s.(polledEmpty := s.polledEmpty + {Medium}, executor := if state == Low then Scheduling else PollLow(state))
    case PollLow(state) =>
      if s.low != [] then s.(low := s.low[1..], executor := Creating(s.low[0]))
      else s.(polledEmpty := s.polledEmpty + {Low}, executor := Scheduling)
    case _ => s
  }

  function CreateStep(s: State, job: Job, throws: bool): (r: State) {
    if throws then s.(finished := s.finished + [job], executor := Subtracting(true))
    else s.(tasks := s.tasks + [job], jobs := s.jobs + [job], executor := Scheduling)
  }

  /** The top coroutine runs until it completes or suspends. */
  function ResumeStep(s: State, done: bool): (r: State) {
    if s.jobs == [] || s.tasks == [] then s.(fault := true, executor := Off)
    else if done then
      s.(jobs := s.jobs[..|s.jobs| - 1], tasks := s.tasks[..|s.tasks| - 1],
         finished := s.finished + [s.tasks[|s.tasks| - 1]], executor := Subtracting(false))
    else s.(executor := Respawning)
  }

  function SubtractStep(s: State): (r: State) {
    s.(count := s.count - 1, fault := s.fault || s.count <= 0, executor := if s.count > 1 then Respawning else Off)
  }

  function Next(s: State, a: Action): (r: State) {
    match a
    case Submit(p, job) => if p in s.submitters && s.submitters[p] != Resting then s else Enqueue(s, p, job)
    case StepSubmitter(p) => if p in s.submitters then StepSubmit(s, p, s.submitters[p]) else s
    case StartExecutor => if s.executor == Off && s.queuedTasks > 0 then Start(s) else s
    case Poll => PollStep(s)
    case Create(throws) => if s.executor.Creating? then CreateStep(s, s.executor.job, throws) else s
    case Resume(done) => if s.executor == Scheduling then ResumeStep(s, done) else s
    case Subtract => if s.executor.Subtracting? then SubtractStep(s) else s
    case Respawn => if s.executor == Respawning then s.(queuedTasks := s.queuedTasks + 1, executor := Off) else s
  }

  function Run(s: State, actions: seq<Action>): (r: State) {
    if actions == [] then s else Next(Run(s, actions[..|actions| - 1]), actions[|actions| - 1])
  }

  // ---------------------------------------------------------------- the invariant

  predicate IsPushed(q: Submitter) {
    q == Pushed
  }

  predicate IsSpawning(q: Submitter) {
    q == Spawning
  }

  /** Executor tasks that are queued, running, or about to be queued. */
  ghost function Tokens(s: State): (n: nat) {
    s.queuedTasks + |Those(s.submitters, IsSpawning)| + (if s.executor == Off then 0 else 1)
  }

  /** Accepted jobs whose completion is not counted yet. */
  function Outstanding(s: State): (n: nat) {
    |s.high| + |s.medium| + |s.low| + |s.jobs|
      + (if s.executor.Creating? || s.executor.Subtracting? then 1 else 0)
  }

  ghost predicate TokenOk(s: State) {
    s.count >= 0 && Tokens(s) == (if s.count > 0 then 1 else 0)
  }

  ghost predicate CountOk(s: State) {
    Outstanding(s) == s.count + |Those(s.submitters, IsPushed)|
  }

  /** Strictly rising priority from bottom to top, so that each level occurs at most once. */
  predicate Rising(jobs: seq<Job>) {
    && (forall i :: 0 <= i < |jobs| ==> jobs[i].priority != Sched)
    && (forall i, j :: 0 <= i < j < |jobs| ==> Level(jobs[j].priority) < Level(jobs[i].priority))
  }

  /** Every queue of higher priority than `p` was found empty in this run. */
  predicate HigherPolled(polledEmpty: set<Priority>, p: Priority) {
    (Level(p) > 1 ==> High in polledEmpty) && (Level(p) > 2 ==> Medium in polledEmpty)
  }

  predicate ExecutorOk(s: State) {
    match s.executor
    case PollHigh(state) => state == TopPriority(s.jobs) != High
    case PollMedium(state) =>
      state == TopPriority(s.jobs) && (state == Sched || state == Low) && High in s.polledEmpty
      && (s.jobs == [] ==> s.medium != [] || s.low != [])
    case PollLow(state) =>
      state == TopPriority(s.jobs) == Sched && High in s.polledEmpty && Medium in s.polledEmpty && s.low != []
    case Creating(job) => job.priority != Sched && HigherPolled(s.polledEmpty, job.priority) && Rising(s.jobs + [job])
    case Scheduling => s.jobs != [] && HigherPolled(s.polledEmpty, TopPriority(s.jobs))
    case _ => true
  }

  predicate Sorted(s: State) {
    && (forall j :: j in s.high ==> j.priority == High)
    && (forall j :: j in s.medium ==> j.priority == Medium)
    && (forall j :: j in s.low ==> j.priority == Low)
  }

  /** The jobs of priority `p`, in order. */
  function Of(jobs: seq<Job>, p: Priority): (r: seq<Job>) {
    if jobs == [] then []
    else
      var n := |jobs| - 1;
      Of(jobs[..n], p) + (if jobs[n].priority == p then [jobs[n]] else [])
  }

  function Queue(s: State, p: Priority): (r: seq<Job>) {
    match p
    case High => s.high
    case Medium => s.medium
    case Low => s.low
    case Sched => []
  }

  function Hand(e: Executor, p: Priority): (r: seq<Job>) {
    if e.Creating? && e.job.priority == p then [e.job] else []
  }

  /** Jobs of one priority, oldest first: finished, on the stack, in the executor's hand, queued. */
  predicate InOrder(s: State, p: Priority) {
    Of(s.accepted, p) == Of(s.finished, p) + Of(s.jobs, p) + (Hand(s.executor, p) + Queue(s, p))
  }

  predicate NothingLost(s: State) {
    forall p: Priority :: InOrder(s, p)
  }

  ghost predicate Inv(s: State) {
    && !s.fault && TokenOk(s) && CountOk(s) && s.jobs == s.tasks && Rising(s.jobs)
    && Sorted(s) && ExecutorOk(s) && NothingLost(s)
  }

  // ---------------------------------------------------------------- every step keeps it

  lemma OfAdded(jobs: seq<Job>, job: Job, p: Priority)
    ensures Of(jobs + [job], p) == Of(jobs, p) + (if job.priority == p then [job] else [])
  {
    assert (jobs + [job])[..|jobs|] == jobs;
  }

  /** A stack with strictly rising priorities holds nothing of the priority that is put on top. */
  lemma {:induction false} NoneBelow(jobs: seq<Job>, p: Priority)
    requires forall i :: 0 <= i < |jobs| ==> jobs[i].priority != p
    ensures Of(jobs, p) == []
  {
    if jobs != [] {
      NoneBelow(jobs[..|jobs| - 1], p);
    }
  }

  lemma RisingHasNoneBelow(jobs: seq<Job>, job: Job)
    requires Rising(jobs + [job])
    ensures Of(jobs, job.priority) == []
  {
    var all := jobs + [job];
    forall i | 0 <= i < |jobs| ensures jobs[i].priority != job.priority {
      assert Level(all[|jobs|].priority) < Level(all[i].priority);
    }
    NoneBelow(jobs, job.priority);
  }

  lemma EnqueueLosesNothing(s: State, p: Pid, job: Job)
    requires NothingLost(s)
    ensures NothingLost(Enqueue(s, p, job))
  {
    hide Of;
    var t := Enqueue(s, p, job);
    forall q: Priority ensures InOrder(t, q) {
      assert InOrder(s, q);
      OfAdded(s.accepted, job, q);
      assert Hand(t.executor, q) == Hand(s.executor, q);
      if q == job.priority != Sched {
        assert Queue(t, q) == Queue(s, q) + [job];
      } else {
        assert Queue(t, q) == Queue(s, q);
      }
    }
  }

  lemma SubmitKeeps(s: State, p: Pid, job: Job)
    requires Inv(s)
    ensures Inv(Next(s, Submit(p, job)))
  {
    hide Those, Rising, HigherPolled, NothingLost;
    ThoseAfter(s.submitters, p, Pushed, IsPushed);
    ThoseAfter(s.submitters, p, Pushed, IsSpawning);
    EnqueueLosesNothing(s, p, job);
  }

  lemma SameJobs(s: State, t: State)
    requires NothingLost(s) && t.high == s.high && t.medium == s.medium && t.low == s.low && t.jobs == s.jobs
    requires t.finished == s.finished && t.accepted == s.accepted
    requires t.executor == s.executor || (!s.executor.Creating? && !t.executor.Creating?)
    ensures NothingLost(t)
  {
    hide Of;
    forall p: Priority ensures InOrder(t, p) {
      assert InOrder(s, p);
    }
  }

  lemma SubmitterKeeps(s: State, p: Pid)
    requires Inv(s)
    ensures Inv(Next(s, StepSubmitter(p)))
  {
    hide Those, Rising, HigherPolled, NothingLost;
    if p in s.submitters {
      SameJobs(s, StepSubmit(s, p, s.submitters[p]));
      var t := StepSubmit(s, p, s.submitters[p]);
      ThoseAfter(s.submitters, p, t.submitters[p], IsPushed);
      ThoseAfter(s.submitters, p, t.submitters[p], IsSpawning);
      assert t.submitters == s.submitters[p := t.submitters[p]];
    }
  }

  lemma PollLosesNothing(s: State)
    requires NothingLost(s) && Sorted(s)
    ensures NothingLost(PollStep(s))
  {
    hide Of;
    forall p: Priority ensures InOrder(PollStep(s), p) {
      assert InOrder(s, p);
      PollMoves(s, p);
    }
  }

  /** What is taken from a queue goes to the executor's hand. */
  lemma PollMoves(s: State, p: Priority)
    requires Sorted(s)
    ensures var t := PollStep(s); Hand(t.executor, p) + Queue(t, p) == Hand(s.executor, p) + Queue(s, p)
  {
    match s.executor
    case PollHigh(state) => FirstAndRest(s.high);
    case PollMedium(state) => FirstAndRest(s.medium);
    case PollLow(state) => FirstAndRest(s.low);
    case _ =>
  }

  lemma FirstAndRest(queue: seq<Job>)
    ensures queue != [] ==> queue[0] in queue && [queue[0]] + queue[1..] == queue
  {
  }

  /** A job of higher priority than the top may be put on the stack. */
  lemma RisingPush(jobs: seq<Job>, job: Job)
    requires Rising(jobs) && job.priority != Sched
    requires jobs != [] ==> Level(job.priority) < Level(TopPriority(jobs))
    ensures Rising(jobs + [job])
  {
  }

  lemma TopIsReal(jobs: seq<Job>)
    requires Rising(jobs) && jobs != []
    ensures TopPriority(jobs) != Sched
  {
  }

  lemma PollKeeps(s: State)
    requires Inv(s)
    ensures Inv(PollStep(s))
  {
    hide Those, Rising, NothingLost;
    PollLosesNothing(s);
    if s.jobs != [] { TopIsReal(s.jobs); }
    var t := PollStep(s);
    if t.executor.Creating? && !s.executor.Creating? {
      RisingPush(s.jobs, t.executor.job);
    }
  }

  lemma CreateKeeps(s: State, throws: bool)
    requires Inv(s) && s.executor.Creating?
    ensures Inv(CreateStep(s, s.executor.job, throws))
  {
    hide Those, HigherPolled, Sorted, Rising, NothingLost;
    CreateLosesNothing(s, throws);
    assert TopPriority(s.jobs + [s.executor.job]) == s.executor.job.priority;
    assert Sorted(CreateStep(s, s.executor.job, throws)) by { SameQueues(s, CreateStep(s, s.executor.job, throws)); }
  }

  lemma SameQueues(s: State, t: State)
    requires Sorted(s) && t.high == s.high && t.medium == s.medium && t.low == s.low
    ensures Sorted(t)
  {
  }

  lemma CreateLosesNothing(s: State, throws: bool)
    requires NothingLost(s) && s.executor.Creating? && Rising(s.jobs + [s.executor.job])
    ensures NothingLost(CreateStep(s, s.executor.job, throws))
  {
    hide Of, Rising;
    var job := s.executor.job;
    RisingHasNoneBelow(s.jobs, job);
    forall p: Priority ensures InOrder(CreateStep(s, job, throws), p) {
      assert InOrder(s, p);
      OfAdded(s.jobs, job, p);
      OfAdded(s.finished, job, p);
    }
  }

  lemma ResumeKeeps(s: State, done: bool)
    requires Inv(s) && s.executor == Scheduling
    ensures Inv(ResumeStep(s, done))
  {
    hide Those, HigherPolled, Sorted, NothingLost;
    ResumeLosesNothing(s, done);
    SameQueues(s, ResumeStep(s, done));
  }

  lemma ResumeLosesNothing(s: State, done: bool)
    requires NothingLost(s) && s.executor == Scheduling && s.jobs == s.tasks && Rising(s.jobs)
    ensures NothingLost(ResumeStep(s, done))
  {
    hide Of, Rising;
    if s.jobs != [] {
      var n := |s.jobs| - 1;
      var below, top := s.jobs[..n], s.jobs[n];
      assert s.jobs == below + [top];
      RisingHasNoneBelow(below, top);
      forall p: Priority ensures InOrder(ResumeStep(s, done), p) {
        assert InOrder(s, p);
        OfAdded(below, top, p);
        OfAdded(s.finished, top, p);
      }
    } else {
      forall p: Priority ensures InOrder(ResumeStep(s, done), p) {
        assert InOrder(s, p);
      }
    }
  }

  lemma OwnStepsKeep(s: State, a: Action)
    requires Inv(s) && (a.StartExecutor? || a.Subtract? || a.Respawn?)
    ensures Inv(Next(s, a))
  {
    hide Those, NothingLost, Rising;
    if s.jobs != [] { TopIsReal(s.jobs); }
    SameJobs(s, Next(s, a));
  }

  lemma StepKeeps(s: State, a: Action)
    requires Inv(s)
    ensures Inv(Next(s, a))
  {
    hide Inv, Enqueue, StepSubmit, PollStep, CreateStep, ResumeStep, SubtractStep, Start;
    match a
    case Submit(p, job) => SubmitKeeps(s, p, job);
    case StepSubmitter(p) => SubmitterKeeps(s, p);
    case Poll => PollKeeps(s);
    case Create(throws) => if s.executor.Creating? { CreateKeeps(s, throws); }
    case Resume(done) => if s.executor == Scheduling { ResumeKeeps(s, done); }
    case _ => OwnStepsKeep(s, a);
  }

  lemma {:induction false} RunsKeepInv(actions: seq<Action>)
    ensures Inv(Run(Initial(), actions))
  {
    if actions == [] {
      var submitters := Initial().submitters;
      assert Those(submitters, IsSpawning) == {} && Those(submitters, IsPushed) == {};
    } else {
      hide Inv, Next;
      RunsKeepInv(actions[..|actions| - 1]);
      StepKeeps(Run(Initial(), actions[..|actions| - 1]), actions[|actions| - 1]);
    }
  }
}
