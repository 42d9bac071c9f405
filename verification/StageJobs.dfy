/**
  The job scheduler of the stage controller: a delay queue of jobs and a map from object key
  to the job last scheduled for that object. Scheduling a job, starting a job and reacting to
  a deletion are each taken as one step.
*/
module StageJobs {
  import opened Options
  import opened DelayQueue
  import opened QueueLoop

  /** `id` is the identity of the job's retry counter, which tells equal jobs apart. */
  datatype Job = Job(id: nat, key: string, version: string, stage: string)

  datatype Jobs = Jobs(mapping: map<string, Job>, queue: Queue<Job>)

  /** addStageJob: Swap, Cancel of the job swapped out, AddWeightAfter. */
  function Schedule(j: Jobs, job: Job, w: Which, now: int, delay: int): Jobs {
    var queue := if job.key in j.mapping then Cancel(j.queue, j.mapping[job.key]) else j.queue;
    Jobs(j.mapping[job.key := job], AddAfter(queue, w, job, now, delay))
  }

  /** A worker takes a ready job and deletes the job's key. */
  function Start(j: Jobs, job: Job): Jobs
    requires job in j.queue.ready
  {
    Jobs(j.mapping - {job.key}, Take(j.queue, job))
  }

  /** The Deleted branch of watchResources: LoadAndDelete, Cancel. */
  function Forget(j: Jobs, key: string): Jobs {
    if key in j.mapping then Jobs(j.mapping - {key}, Cancel(j.queue, j.mapping[key])) else j
  }

  /** preprocess skips an object that has a job for the same resource version. */
  predicate Skips(j: Jobs, key: string, version: string) {
    key in j.mapping && j.mapping[key].version == version
  }

  /** The scheduler as the controller runs it, changing its two fields in place. */
  class StageController {
    var mapping: map<string, Job>
    var queue: Queue<Job>
    var jobCount: nat

    constructor ()
      ensures State() == Jobs(map[], EmptyQueue()) && jobCount == 0
    {
      mapping, queue, jobCount := map[], EmptyQueue(), 0;
    }

    function State(): Jobs
      reads this
    {
      Jobs(mapping, queue)
    }

    method AddStageJob(job: Job, w: Which, now: int, delay: int)
      modifies this`mapping, this`queue
      ensures State() == Schedule(old(State()), job, w, now, delay)
    {
      if job.key in mapping {
        var swapped := mapping[job.key];
        mapping := mapping[job.key := job];
        queue := Cancel(queue, swapped);
      } else {
        mapping := mapping[job.key := job];
      }
      queue := AddAfter(queue, w, job, now, delay);
    }

    method Preprocess(key: string, version: string, stage: string, now: int, delay: int)
      modifies this
      ensures old(Skips(State(), key, version)) ==> State() == old(State()) && jobCount == old(jobCount)
      ensures !old(Skips(State(), key, version)) ==>
        && jobCount == old(jobCount) + 1
        && State() == Schedule(old(State()), Job(old(jobCount), key, version, stage), Low, now, delay)
    {
      if key in mapping && mapping[key].version == version {
        return;
      }
      var job := Job(jobCount, key, version, stage);
      jobCount := jobCount + 1;
      AddStageJob(job, Low, now, delay);
    }

    method StartJob(job: Job)
      requires job in queue.ready
      modifies this`mapping, this`queue
      ensures State() == Start(old(State()), job)
    {
      queue := Take(queue, job);
      mapping := mapping - {job.key};
    }

    method OnDeleted(key: string)
      modifies this`mapping, this`queue
      ensures State() == Forget(old(State()), key)
    {
      if key in mapping {
        var job := mapping[key];
        mapping := mapping - {key};
        queue := Cancel(queue, job);
      }
    }
  }

  // ---------------------------------------------------------------------------------------
  // Runs
  // ---------------------------------------------------------------------------------------

  /** `playing` are the jobs that workers have taken; `jobCount` numbers the jobs made so far. */
  datatype State = State(clock: int, jobs: Jobs, playing: multiset<Job>, jobCount: nat)

  datatype Action =
    | Tick(now: int)
    | Preprocess(key: string, version: string, stage: string, delay: int)
    | Play(job: Job)
    | Finish(job: Job, retry: bool, delay: int)
    | Deleted(key: string)
    | LoopDeliver(w: Which, due: int, job: Job)
    | LoopHand

  const START := State(0, Jobs(map[], EmptyQueue()), multiset{}, 0)

  /** The loop worker looks at the heap of weight 0 first. */
  ghost predicate Enabled(s: State, a: Action) {
    match a
    case Tick(now) => s.clock <= now
    case Play(job) => job in s.jobs.queue.ready
    case Finish(job, _, _) => job in s.playing
    case LoopDeliver(w, due, job) => CanPeek(s.jobs.queue, Low, Peek(w, due, job), s.clock)
    case _ => true
  }

  function Next(s: State, a: Action): State {
    match a
    case Tick(now) => s.(clock := now)
    case Preprocess(key, version, stage, delay) =>
      if Skips(s.jobs, key, version) then s
      else s.(jobs := Schedule(s.jobs, Job(s.jobCount, key, version, stage), Low, s.clock, delay),
              jobCount := s.jobCount + 1)
    case Play(job) =>
      if job in s.jobs.queue.ready
      then s.(jobs := Start(s.jobs, job), playing := s.playing + multiset{job}) else s
    case Finish(job, retry, delay) =>
      var s' := s.(playing := s.playing - multiset{job});
      if retry then s'.(jobs := Schedule(s.jobs, job, High, s.clock, delay)) else s'
    case Deleted(key) => s.(jobs := Forget(s.jobs, key))
    case LoopDeliver(w, due, job) =>
      s.(jobs := s.jobs.(queue := Deliver(s.jobs.queue, w, due, job, s.clock)))
    case LoopHand => s.(jobs := s.jobs.(queue := Hand(s.jobs.queue)))
  }

  ghost predicate IsRun(s: State, actions: seq<Action>)
    decreases |actions|
  {
    actions == [] || (Enabled(s, actions[0]) && IsRun(Next(s, actions[0]), actions[1..]))
  }

  function Run(s: State, actions: seq<Action>): State
    decreases |actions|
  {
    if actions == [] then s else Run(Next(s, actions[0]), actions[1..])
  }

  // ---------------------------------------------------------------------------------------
  // What every run keeps
  // ---------------------------------------------------------------------------------------

  /** Every job is in one place only, and numbers not yet given out are nowhere. */
  ghost predicate SinglePlace(s: State) {
    && NoOrphans(s.jobs.queue)
    && (forall job: Job :: Copies(s.jobs.queue, job) + s.playing[job] <= 1)
    && (forall job: Job :: job.id >= s.jobCount ==> Copies(s.jobs.queue, job) + s.playing[job] == 0)
  }

  /** Every mapped job is pending in the queue. */
  ghost predicate MappedPending(j: Jobs) {
    forall k :: k in j.mapping ==> j.mapping[k].key == k && Copies(j.queue, j.mapping[k]) == 1
  }

  ghost predicate Inv(s: State) {
    SinglePlace(s) && MappedPending(s.jobs)
  }

  /** How Schedule changes the number of pending copies of a job x. */
  lemma ScheduleCopies(j: Jobs, job: Job, w: Which, now: int, delay: int, x: Job)
    requires MappedPending(j) && Copies(j.queue, job) == 0
    ensures NoOrphans(j.queue) ==> NoOrphans(Schedule(j, job, w, now, delay).queue)
    ensures Copies(Schedule(j, job, w, now, delay).queue, x) ==
      if x == job then 1
      else if job.key in j.mapping && x == j.mapping[job.key] then if Delayed(j.queue, x) then 0 else 1
      else Copies(j.queue, x)
  {
    if job.key in j.mapping {
      var swapped := j.mapping[job.key];
      CancelCopies(j.queue, swapped, x);
      CancelCopies(j.queue, swapped, job);
      AddAfterCopies(Cancel(j.queue, swapped), w, job, now, delay, x);
      assert Copies(j.queue, swapped) == 1;
    } else {
      AddAfterCopies(j.queue, w, job, now, delay, x);
    }
  }

  lemma ScheduleInv(s: State, job: Job, w: Which, delay: int)
    requires Inv(s) && Copies(s.jobs.queue, job) + s.playing[job] == 0 && job.id < s.jobCount
    ensures Inv(s.(jobs := Schedule(s.jobs, job, w, s.clock, delay)))
  {
    var j' := Schedule(s.jobs, job, w, s.clock, delay);
    forall x: Job
      ensures Copies(j'.queue, x) + s.playing[x] <= 1
      ensures x.id >= s.jobCount ==> Copies(j'.queue, x) + s.playing[x] == 0
    {
      ScheduleCopies(s.jobs, job, w, s.clock, delay, x);
    }
    ScheduleCopies(s.jobs, job, w, s.clock, delay, job);
    forall k | k in j'.mapping ensures j'.mapping[k].key == k && Copies(j'.queue, j'.mapping[k]) == 1 {
      ScheduleCopies(s.jobs, job, w, s.clock, delay, j'.mapping[k]);
    }
  }

  lemma StartInv(s: State, job: Job)
    requires Inv(s) && job in s.jobs.queue.ready
    ensures Inv(Next(s, Play(job)))
  {
    var s' := Next(s, Play(job));
    forall x: Job
      ensures Copies(s'.jobs.queue, x) + s'.playing[x] == Copies(s.jobs.queue, x) + s.playing[x]
    {
      TakeCopies(s.jobs.queue, job, x);
    }
    forall k | k in s'.jobs.mapping ensures Copies(s'.jobs.queue, s'.jobs.mapping[k]) == 1 {
      TakeCopies(s.jobs.queue, job, s.jobs.mapping[k]);
    }
  }

  lemma ForgetInv(s: State, key: string)
    requires Inv(s)
    ensures Inv(Next(s, Deleted(key)))
  {
    if key in s.jobs.mapping {
      var s', gone := Next(s, Deleted(key)), s.jobs.mapping[key];
      forall x: Job ensures Copies(s'.jobs.queue, x) <= Copies(s.jobs.queue, x) {
        CancelCopies(s.jobs.queue, gone, x);
      }
      forall k | k in s'.jobs.mapping ensures Copies(s'.jobs.queue, s'.jobs.mapping[k]) == 1 {
        CancelCopies(s.jobs.queue, gone, s.jobs.mapping[k]);
      }
    }
  }

  lemma MoveInv(s: State, queue: Queue<Job>)
    requires Inv(s) && NoOrphans(queue)
    requires forall x: Job :: Copies(queue, x) == Copies(s.jobs.queue, x)
    ensures Inv(s.(jobs := s.jobs.(queue := queue)))
  {
  }

  lemma LoopInv(s: State, w: Which, due: int, job: Job)
    requires Inv(s)
    ensures Inv(Next(s, LoopDeliver(w, due, job))) && Inv(Next(s, LoopHand))
  {
    var delivered, handed := Deliver(s.jobs.queue, w, due, job, s.clock), Hand(s.jobs.queue);
    forall x: Job ensures Copies(delivered, x) == Copies(s.jobs.queue, x) == Copies(handed, x) {
      MoveCopies(s.jobs.queue, w, due, job, s.clock, x);
    }
    MoveInv(s, delivered);
    MoveInv(s, handed);
  }

  lemma NextInv(s: State, a: Action)
    requires Inv(s) && Enabled(s, a)
    ensures Inv(Next(s, a))
  {
    match a {
      case Tick(_) =>
      case Preprocess(key, version, stage, delay) =>
        if !Skips(s.jobs, key, version) {
          var job := Job(s.jobCount, key, version, stage);
          assert Copies(s.jobs.queue, job) + s.playing[job] == 0;
          ScheduleInv(s.(jobCount := s.jobCount + 1), job, Low, delay);
        }
      case Play(job) => StartInv(s, job);
      case Finish(job, retry, delay) =>
        assert Copies(s.jobs.queue, job) + s.playing[job] <= 1;
        var s' := s.(playing := s.playing - multiset{job});
        assert forall x: Job :: s'.playing[x] <= s.playing[x];
        assert Inv(s');
        if retry { ScheduleInv(s', job, High, delay); }
      case Deleted(key) => ForgetInv(s, key);
      case LoopDeliver(w, due, job) => LoopInv(s, w, due, job);
      case LoopHand => LoopInv(s, Low, 0, Job(0, "", "", ""));
    }
  }

  lemma {:induction false} RunInv(s: State, actions: seq<Action>)
    requires Inv(s) && IsRun(s, actions)
    ensures Inv(Run(s, actions))
    decreases |actions|
  {
    if actions != [] {
      NextInv(s, actions[0]);
      RunInv(Next(s, actions[0]), actions[1..]);
    }
  }

  /** preprocess never drops an update: it skips only when a job for that very version is pending. */
  lemma SkippedIsPending(actions: seq<Action>, key: string, version: string)
    requires IsRun(START, actions) && Skips(Run(START, actions).jobs, key, version)
    ensures
      var j := Run(START, actions).jobs;
      && j.mapping[key].key == key && j.mapping[key].version == version
      && Copies(j.queue, j.mapping[key]) == 1
  {
    RunInv(START, actions);
  }

  // ---------------------------------------------------------------------------------------
  // Jobs keep their delay
  // ---------------------------------------------------------------------------------------

  /** The one pending copy of a job just scheduled is in the heap of its weight, due after its delay. */
  lemma ScheduledPlace(s: State, job: Job, w: Which, delay: int)
    requires Inv(s) && Copies(s.jobs.queue, job) == 0
    ensures
      var q := Schedule(s.jobs, job, w, s.clock, delay).queue;
      if delay <= 0 then job in q.ready && !Delayed(q, job)
      else
        && NotBefore(q, job, s.clock + delay)
        && job in Get(q, w).indexed && Get(q, w).indexed[job] == s.clock + delay
        && job !in Get(q, if w.Low? then High else Low).indexed
  {
    var queue := s.jobs.queue;
    if job.key in s.jobs.mapping {
      queue := Cancel(s.jobs.queue, s.jobs.mapping[job.key]);
      CancelCopies(s.jobs.queue, s.jobs.mapping[job.key], job);
    }
    AddedAfter(queue, w, job, s.clock, delay);
  }

  /** preprocess gives a job weight 0, a retry gives it weight 1, and both the delay asked for. */
  lemma QueuedAsAsked(s: State, key: string, version: string, stage: string, job: Job, delay: int)
    requires Inv(s) && delay > 0
    ensures !Skips(s.jobs, key, version) ==>
      var q, made := Next(s, Preprocess(key, version, stage, delay)).jobs.queue, Job(s.jobCount, key, version, stage);
      made in q.low.indexed && q.low.indexed[made] == s.clock + delay && NotBefore(q, made, s.clock + delay)
    ensures job in s.playing ==>
      var q := Next(s, Finish(job, true, delay)).jobs.queue;
      job in q.high.indexed && q.high.indexed[job] == s.clock + delay && NotBefore(q, job, s.clock + delay)
  {
    var made := Job(s.jobCount, key, version, stage);
    assert Copies(s.jobs.queue, made) + s.playing[made] == 0;
    ScheduledPlace(s, made, Low, delay);
    assert Copies(s.jobs.queue, job) + s.playing[job] <= 1;
    if job in s.playing { ScheduledPlace(s, job, High, delay); }
  }

  /** No worker has the job or can get it before t. */
  ghost predicate Asleep(s: State, job: Job, t: int) {
    job.id < s.jobCount && job !in s.playing && NotBefore(s.jobs.queue, job, t)
  }

  lemma ScheduleAsleep(j: Jobs, x: Job, w: Which, now: int, delay: int, job: Job, t: int)
    requires NotBefore(j.queue, job, t) && x != job
    ensures NotBefore(Schedule(j, x, w, now, delay).queue, job, t)
  {
    var queue := j.queue;
    if x.key in j.mapping {
      OthersNotBefore(j.queue, w, j.mapping[x.key], now, delay, job, t);
      queue := Cancel(j.queue, j.mapping[x.key]);
    }
    OthersNotBefore(queue, w, x, now, delay, job, t);
  }

  lemma NextAsleep(s: State, a: Action, job: Job, t: int)
    requires Asleep(s, job, t) && Enabled(s, a) && s.clock < t
    ensures Asleep(Next(s, a), job, t)
  {
    var q := s.jobs.queue;
    match a {
      case Preprocess(key, version, stage, delay) =>
        ScheduleAsleep(s.jobs, Job(s.jobCount, key, version, stage), Low, s.clock, delay, job, t);
      case Play(x) => OthersNotBefore(q, Low, x, 0, 0, job, t);
      case Finish(x, retry, delay) => ScheduleAsleep(s.jobs, x, High, s.clock, delay, job, t);
      case Deleted(key) =>
        if key in s.jobs.mapping { OthersNotBefore(q, Low, s.jobs.mapping[key], 0, 0, job, t); }
      case LoopDeliver(w, due, x) => DeliverNotBefore(q, w, due, x, s.clock, job, t);
      case LoopHand => OthersNotBefore(q, Low, job, 0, 0, job, t);
      case Tick(_) =>
    }
  }

  lemma {:induction false} RunAsleep(s: State, actions: seq<Action>, job: Job, t: int)
    requires Asleep(s, job, t) && IsRun(s, actions) && Run(s, actions).clock < t
    ensures Asleep(Run(s, actions), job, t)
    decreases |actions|
  {
    if actions != [] {
      ClockGrows(s, actions);
      NextAsleep(s, actions[0], job, t);
      RunAsleep(Next(s, actions[0]), actions[1..], job, t);
    }
  }

  lemma {:induction false} ClockGrows(s: State, actions: seq<Action>)
    requires IsRun(s, actions)
    ensures s.clock <= Run(s, actions).clock
    decreases |actions|
  {
    if actions != [] { ClockGrows(Next(s, actions[0]), actions[1..]); }
  }

  lemma ScheduledAsleep(s: State, key: string, version: string, stage: string, job: Job, delay: int)
    requires Inv(s) && delay > 0
    ensures !Skips(s.jobs, key, version) ==>
      Asleep(Next(s, Preprocess(key, version, stage, delay)), Job(s.jobCount, key, version, stage), s.clock + delay)
    ensures job in s.playing ==> Asleep(Next(s, Finish(job, true, delay)), job, s.clock + delay)
  {
    var made := Job(s.jobCount, key, version, stage);
    assert Copies(s.jobs.queue, made) + s.playing[made] == 0;
    assert Copies(s.jobs.queue, job) + s.playing[job] <= 1;
    assert job.id >= s.jobCount ==> Copies(s.jobs.queue, job) + s.playing[job] == 0;
    QueuedAsAsked(s, key, version, stage, job, delay);
  }

  /** In every run a new job is neither ready nor played before its delay has passed. */
  lemma NeverPlayedEarly(actions: seq<Action>, key: string, version: string, stage: string, delay: int, more: seq<Action>)
    requires IsRun(START, actions) && !Skips(Run(START, actions).jobs, key, version) && delay > 0
    requires IsRun(Next(Run(START, actions), Preprocess(key, version, stage, delay)), more)
    requires Run(Next(Run(START, actions), Preprocess(key, version, stage, delay)), more).clock
             < Run(START, actions).clock + delay
    ensures
      var s := Run(START, actions);
      var s' := Run(Next(s, Preprocess(key, version, stage, delay)), more);
      Asleep(s', Job(s.jobCount, key, version, stage), s.clock + delay)
  {
    RunInv(START, actions);
    var s := Run(START, actions);
    var job := Job(s.jobCount, key, version, stage);
    ScheduledAsleep(s, key, version, stage, job, delay);
    RunAsleep(Next(s, Preprocess(key, version, stage, delay)), more, job, s.clock + delay);
  }

  /** The same for a job that is retried. */
  lemma NeverRetriedEarly(actions: seq<Action>, job: Job, delay: int, more: seq<Action>)
    requires IsRun(START, actions) && job in Run(START, actions).playing && delay > 0
    requires IsRun(Next(Run(START, actions), Finish(job, true, delay)), more)
    requires Run(Next(Run(START, actions), Finish(job, true, delay)), more).clock < Run(START, actions).clock + delay
    ensures Asleep(Run(Next(Run(START, actions), Finish(job, true, delay)), more), job, Run(START, actions).clock + delay)
  {
    RunInv(START, actions);
    var s := Run(START, actions);
    ScheduledAsleep(s, "", "", "", job, delay);
    RunAsleep(Next(s, Finish(job, true, delay)), more, job, s.clock + delay);
  }

  // ---------------------------------------------------------------------------------------
  // Every pending job can be played when it is due
  // ---------------------------------------------------------------------------------------

  lemma {:induction false} RunSnoc(s: State, actions: seq<Action>, a: Action)
    requires IsRun(s, actions) && Enabled(Run(s, actions), a)
    ensures IsRun(s, actions + [a]) && Run(s, actions + [a]) == Next(Run(s, actions), a)
    decreases |actions|
  {
    if actions == [] {
      assert actions + [a] == [a] && [a][1..] == [];
    } else {
      RunSnoc(Next(s, actions[0]), actions[1..], a);
      assert (actions + [a])[1..] == actions[1..] + [a];
    }
  }

  /** Only time passes and the loop worker works. */
  predicate LoopOnly(actions: seq<Action>) {
    forall i :: 0 <= i < |actions| ==> actions[i].Tick? || actions[i].LoopDeliver? || actions[i].LoopHand?
  }

  lemma RunCons(s: State, a: Action, rest: seq<Action>) returns (actions: seq<Action>)
    requires Enabled(s, a) && IsRun(Next(s, a), rest)
    ensures actions == [a] + rest && IsRun(s, actions) && Run(s, actions) == Run(Next(s, a), rest)
  {
    actions := [a] + rest;
    assert actions[1..] == rest;
  }

  /** What the loop worker serves by itself is a run. */
  lemma {:induction false} RunServes(s: State, peeks: seq<Peek<Job>>) returns (actions: seq<Action>)
    requires Serves(s.jobs.queue, Low, peeks, s.clock)
    ensures IsRun(s, actions) && LoopOnly(actions)
    ensures Run(s, actions) == s.(jobs := s.jobs.(queue := ServeAll(s.jobs.queue, peeks, s.clock)))
    decreases |peeks|
  {
    actions := [];
    if peeks != [] {
      var p := peeks[0];
      var s1 := Next(s, LoopDeliver(p.w, p.due, p.item));
      assert p == Peek(p.w, p.due, p.item);
      actions := RunServes(s.(jobs := s.jobs.(queue := Serve(s.jobs.queue, p, s.clock))), peeks[1..]);
      actions := RunCons(s1, LoopHand, actions);
      actions := RunCons(s, LoopDeliver(p.w, p.due, p.item), actions);
    }
  }

  /** A delayed job can be ready at the very time it is due, or now if that has passed. */
  lemma ReadyWhenDue(s: State, job: Job, w: Which) returns (actions: seq<Action>)
    requires NoOrphans(s.jobs.queue) && job in Get(s.jobs.queue, w).indexed
    ensures IsRun(s, actions) && LoopOnly(actions) && job in Run(s, actions).jobs.queue.ready
    ensures
      var due := Get(s.jobs.queue, w).indexed[job];
      Run(s, actions).clock == if s.clock < due then due else s.clock
  {
    var due := Get(s.jobs.queue, w).indexed[job];
    var tick := Tick(if s.clock < due then due else s.clock);
    var s1 := Next(s, tick);
    var s2 := Next(s1, LoopHand);
    assert Get(s2.jobs.queue, w) == Get(s.jobs.queue, w);
    assert Ahead(Get(s2.jobs.queue, w), due, job);
    var peeks := ServeDue(s2.jobs.queue, Low, w, due, job, s2.clock);
    actions := RunServes(s2, peeks);
    actions := RunCons(s1, LoopHand, actions);
    actions := RunCons(s, tick, actions);
  }

  lemma ReadyFromPending(s: State, job: Job) returns (more: seq<Action>)
    requires NoOrphans(s.jobs.queue) && Copies(s.jobs.queue, job) > 0
    ensures IsRun(s, more) && LoopOnly(more) && job in Run(s, more).jobs.queue.ready
  {
    var q := s.jobs.queue;
    more := [];
    if job in q.low.indexed {
      more := ReadyWhenDue(s, job, Low);
    } else if job in q.high.indexed {
      more := ReadyWhenDue(s, job, High);
    } else if q.transit == Some(job) {
      more := RunCons(s, LoopHand, []);
    }
  }

  /** After every run, each pending job can get to a worker by the loop worker's doing alone. */
  lemma PendingCanBePlayed(actions: seq<Action>, job: Job) returns (more: seq<Action>)
    requires IsRun(START, actions) && Copies(Run(START, actions).jobs.queue, job) > 0
    ensures
      var s := Run(START, actions);
      && IsRun(s, more) && LoopOnly(more)
      && Enabled(Run(s, more), Play(job))
      && forall retry, delay :: Enabled(Next(Run(s, more), Play(job)), Finish(job, retry, delay))
  {
    RunInv(START, actions);
    more := ReadyFromPending(Run(START, actions), job);
  }

  // ---------------------------------------------------------------------------------------
  // The queue as a plain map from key to job
  // ---------------------------------------------------------------------------------------

  /** The pending jobs are exactly the mapped jobs, each once: at most one job per object. */
  ghost predicate Corresponds(j: Jobs) {
    && NoOrphans(j.queue)
    && forall job: Job ::
      Copies(j.queue, job) == if job.key in j.mapping && j.mapping[job.key] == job then 1 else 0
  }

  lemma AtMostOnePending(j: Jobs, a: Job, b: Job)
    requires Corresponds(j) && Copies(j.queue, a) > 0 && Copies(j.queue, b) > 0 && a.key == b.key
    ensures a == b
  {
  }

  /** The job that is to be replaced or cancelled has already left the delay heaps. */
  predicate Misses(j: Jobs, key: string) {
    key in j.mapping && !Delayed(j.queue, j.mapping[key])
  }

  lemma ScheduleExact(j: Jobs, job: Job, w: Which, now: int, delay: int)
    requires Corresponds(j) && MappedPending(j) && Copies(j.queue, job) == 0
    ensures Corresponds(Schedule(j, job, w, now, delay)) <==> !Misses(j, job.key)
  {
    var j' := Schedule(j, job, w, now, delay);
    forall x: Job
      ensures x == job || !(job.key in j.mapping && x == j.mapping[job.key]) ==>
        Copies(j'.queue, x) == if x.key in j'.mapping && j'.mapping[x.key] == x then 1 else 0
    {
      ScheduleCopies(j, job, w, now, delay, x);
    }
    ScheduleCopies(j, job, w, now, delay, job);
    if job.key in j.mapping {
      var swapped := j.mapping[job.key];
      ScheduleCopies(j, job, w, now, delay, swapped);
      assert Copies(j.queue, swapped) == 1;
    }
  }

  lemma ForgetExact(j: Jobs, key: string)
    requires Corresponds(j) && MappedPending(j)
    ensures Corresponds(Forget(j, key)) <==> !Misses(j, key)
  {
  }

  /** Starting a job keeps the correspondence: the key it deletes is mapped to this very job. */
  lemma StartExact(j: Jobs, job: Job)
    requires Corresponds(j) && job in j.queue.ready
    ensures job.key in j.mapping && j.mapping[job.key] == job
    ensures Corresponds(Start(j, job))
  {
  }

  predicate ActionMisses(s: State, a: Action) {
    match a
    case Preprocess(key, version, _, _) => !Skips(s.jobs, key, version) && Misses(s.jobs, key)
    case Finish(job, retry, _) => retry && Misses(s.jobs, job.key)
    case Deleted(key) => Misses(s.jobs, key)
    case _ => false
  }

  /** Exactly the steps that miss a job that is no longer delayed break the correspondence. */
  lemma NextExact(s: State, a: Action)
    requires Inv(s) && Enabled(s, a) && Corresponds(s.jobs)
    ensures Corresponds(Next(s, a).jobs) <==> !ActionMisses(s, a)
  {
    match a {
      case Tick(_) =>
      case Preprocess(key, version, stage, delay) =>
        var job := Job(s.jobCount, key, version, stage);
        assert Copies(s.jobs.queue, job) + s.playing[job] == 0;
        ScheduleExact(s.jobs, job, Low, s.clock, delay);
      case Play(job) => StartExact(s.jobs, job);
      case Finish(job, retry, delay) =>
        assert Copies(s.jobs.queue, job) + s.playing[job] <= 1;
        ScheduleExact(s.jobs, job, High, s.clock, delay);
      case Deleted(key) => ForgetExact(s.jobs, key);
      case LoopDeliver(w, due, job) =>
        forall x: Job ensures Copies(Next(s, a).jobs.queue, x) == Copies(s.jobs.queue, x) {
          MoveCopies(s.jobs.queue, w, due, job, s.clock, x);
        }
      case LoopHand =>
        forall x: Job ensures Copies(Next(s, a).jobs.queue, x) == Copies(s.jobs.queue, x) {
          MoveCopies(s.jobs.queue, Low, 0, x, s.clock, x);
        }
    }
  }

  ghost predicate NeverMisses(s: State, actions: seq<Action>)
    decreases |actions|
  {
    actions == [] || (!ActionMisses(s, actions[0]) && NeverMisses(Next(s, actions[0]), actions[1..]))
  }

  /** The scheduler without a queue: the job that is pending for each object, if any. */
  datatype Plain = Plain(pending: map<string, Job>, jobCount: nat)

  /** A worker can only get the one job that is pending for the object. */
  predicate PlainEnabled(p: Plain, a: Action) {
    a.Play? ==> a.job.key in p.pending && p.pending[a.job.key] == a.job
  }

  function PlainNext(p: Plain, a: Action): Plain {
    match a
    case Preprocess(key, version, stage, _) =>
      if key in p.pending && p.pending[key].version == version then p
      else Plain(p.pending[key := Job(p.jobCount, key, version, stage)], p.jobCount + 1)
    case Play(job) => p.(pending := p.pending - {job.key})
    case Finish(job, retry, _) => if retry then p.(pending := p.pending[job.key := job]) else p
    case Deleted(key) => p.(pending := p.pending - {key})
    case _ => p
  }

  predicate PlainIsRun(p: Plain, actions: seq<Action>)
    decreases |actions|
  {
    actions == [] || (PlainEnabled(p, actions[0]) && PlainIsRun(PlainNext(p, actions[0]), actions[1..]))
  }

  function PlainRun(p: Plain, actions: seq<Action>): Plain
    decreases |actions|
  {
    if actions == [] then p else PlainRun(PlainNext(p, actions[0]), actions[1..])
  }

  function PlainOf(s: State): Plain {
    Plain(s.jobs.mapping, s.jobCount)
  }

  lemma NextRefines(s: State, a: Action)
    requires Inv(s) && Corresponds(s.jobs) && Enabled(s, a)
    ensures PlainEnabled(PlainOf(s), a) && PlainOf(Next(s, a)) == PlainNext(PlainOf(s), a)
  {
    if a.Play? { StartExact(s.jobs, a.job); }
  }

  lemma {:induction false} RunRefines(s: State, actions: seq<Action>)
    requires Inv(s) && Corresponds(s.jobs) && IsRun(s, actions) && NeverMisses(s, actions)
    ensures Corresponds(Run(s, actions).jobs) && PlainIsRun(PlainOf(s), actions)
    ensures PlainOf(Run(s, actions)) == PlainRun(PlainOf(s), actions)
    decreases |actions|
  {
    if actions != [] {
      NextInv(s, actions[0]);
      NextExact(s, actions[0]);
      NextRefines(s, actions[0]);
      RunRefines(Next(s, actions[0]), actions[1..]);
    }
  }

  /**
    A run whose cancellations all hit is a run of the plain machine: workers get only the
    jobs that it says are pending, and the queue holds exactly those, each once.
  */
  lemma RunIsPlain(actions: seq<Action>)
    requires IsRun(START, actions) && NeverMisses(START, actions)
    ensures PlainIsRun(Plain(map[], 0), actions)
    ensures
      var queue, pending := Run(START, actions).jobs.queue, PlainRun(Plain(map[], 0), actions).pending;
      && NoOrphans(queue)
      && forall job: Job :: Copies(queue, job) == if job.key in pending && pending[job.key] == job then 1 else 0
  {
    RunRefines(START, actions);
  }

  /**
    What a miss leads to: the replaced job stays pending beside the new one, and as soon as
    a worker starts it, the new job is pending without being mapped, so that the deletion of
    the object no longer cancels anything.
  */
  lemma MissLeavesJobBehind(j: Jobs, job: Job, w: Which, now: int, delay: int)
    requires Corresponds(j) && MappedPending(j) && Copies(j.queue, job) == 0
    requires Misses(j, job.key) && j.mapping[job.key] in j.queue.ready
    ensures
      var replaced, both := j.mapping[job.key], Schedule(j, job, w, now, delay);
      && Copies(both.queue, replaced) == 1 && Copies(both.queue, job) == 1
      && replaced in both.queue.ready
      && Copies(Start(both, replaced).queue, job) == 1
      && Forget(Start(both, replaced), job.key) == Start(both, replaced)
  {
    var replaced, both := j.mapping[job.key], Schedule(j, job, w, now, delay);
    ScheduleCopies(j, job, w, now, delay, replaced);
    ScheduleCopies(j, job, w, now, delay, job);
    assert Copies(j.queue, replaced) == 1;
    TakeCopies(both.queue, replaced, job);
  }

  /**
    The same happens without a miss when the two halves of a start are interleaved with a
    new job for the object: the late Delete takes away the new job's mapping.
  */
  lemma SplitStartLeavesJobBehind(j: Jobs, job: Job, newer: Job, w: Which, now: int, delay: int)
    requires Corresponds(j) && MappedPending(j) && job in j.queue.ready
    requires newer.key == job.key && Copies(j.queue, newer) == 0
    ensures
      var taken := j.(queue := Take(j.queue, job));
      var added := Schedule(taken, newer, w, now, delay);
      var ended := added.(mapping := added.mapping - {job.key});
      Copies(ended.queue, newer) == 1 && !Corresponds(ended) && Forget(ended, job.key) == ended
  {
  }

  /** A job that is ready at once can be missed: two updates of k in a row leave two jobs pending. */
  lemma MissReachable() returns (run: seq<Action>)
    ensures IsRun(START, run) && Misses(Run(START, run).jobs, "k")
    ensures
      var s := Next(Run(START, run), Preprocess("k", "2", "s", 0));
      && s.jobs.mapping == map["k" := Job(1, "k", "2", "s")]
      && s.jobs.queue == EmptyQueue().(ready := multiset{Job(0, "k", "1", "s"), Job(1, "k", "2", "s")})
  {
    run := [Preprocess("k", "1", "s", 0)];
    RunSnoc(START, [], run[0]);
    assert [] + run == run;
    var first, second := Job(0, "k", "1", "s"), Job(1, "k", "2", "s");
    var s := Run(START, run);
    assert s.jobs == Jobs(map["k" := first], EmptyQueue().(ready := multiset{first}));
    assert Cancel(s.jobs.queue, first) == s.jobs.queue;
  }

  /** From there a worker starts the older job, and then the deletion of k cancels nothing. */
  lemma DeletedObjectKeepsJob() returns (run: seq<Action>)
    ensures IsRun(START, run) && run != [] && run[|run| - 1] == Deleted("k")
    ensures "k" !in Run(START, run).jobs.mapping
    ensures Job(1, "k", "2", "s") in Run(START, run).jobs.queue.ready
  {
    run := MissReachable();
    RunSnoc(START, run, Preprocess("k", "2", "s", 0));
    run := run + [Preprocess("k", "2", "s", 0)];
    RunSnoc(START, run, Play(Job(0, "k", "1", "s")));
    run := run + [Play(Job(0, "k", "1", "s"))];
    RunSnoc(START, run, Deleted("k"));
    run := run + [Deleted("k")];
  }
}
