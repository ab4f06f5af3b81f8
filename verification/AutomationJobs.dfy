/** The automation queue: any number of workers poll, claim, execute, fail, retry and crash over shared job rows.

    A step is one database statement or transaction. Between two steps of one worker any steps of the others
    and any amount of time may pass. */
module AutomationJobs {
  import opened Common

  type JobId = nat
  type WorkerId = nat

  datatype Status = PENDING | PROCESSING | SUCCEEDED | RETRYING | FAILED | CANCELLED

  datatype Job = Job(status: Status, attempts: nat, maxAttempts: nat, scheduledAt: int, lockedAt: Option<int>)

  /** Milliseconds a claim is respected by the others. */
  const LOCK := 600_000

  /** The rows a worker fetched and the limit computed when it fetched them. */
  datatype Batch = Batch(staleLock: int, todo: set<JobId>)

  const NOTHING := Batch(0, {})

  datatype Phase =
    | Polling
    | Claimed(job: JobId, claimedAt: int)
    | Caught(job: JobId, claimedAt: int)
    | Failing(job: JobId, claimedAt: int, attempts: nat, maxAttempts: nat)

  datatype Worker = Worker(batch: Batch, phase: Phase)

  datatype System = System(now: int, jobs: map<JobId, Job>, workers: map<WorkerId, Worker>, effects: map<JobId, nat>)

  datatype Step =
    | Tick(elapsed: nat)
    | Poll(w: WorkerId, todo: set<JobId>)
    | Claim(w: WorkerId, job: JobId)
    | Execute(w: WorkerId)
    | ExecuteThrows(w: WorkerId)
    | CommitThrows(w: WorkerId)
    | ReadAttempts(w: WorkerId)
    | WriteFailure(w: WorkerId)
    | Crash(w: WorkerId)

  // ---- the steps ----

  /** The where clause shared by the poll and the claim. */
  predicate Eligible(job: Job, now: int, staleLock: int) {
    || (job.status in {PENDING, RETRYING} && job.scheduledAt <= now)
    || (job.status == PROCESSING && job.lockedAt.Some? && job.lockedAt.value < staleLock)
  }

  function Power2(n: nat): nat {
    if n == 0 then 1 else 2 * Power2(n - 1)
  }

  function Backoff(attempts: nat): nat {
    if 5000 * Power2(attempts) < 3_600_000 then 5000 * Power2(attempts) else 3_600_000
  }

  predicate Enabled(s: System, step: Step) {
    match step
    case Tick(_) => true
    case Poll(w, todo) =>
      && w in s.workers && s.workers[w].phase.Polling?
      && |todo| <= 25 && forall j <- todo :: j in s.jobs && Eligible(s.jobs[j], s.now, s.now - LOCK)
    case Claim(w, j) => w in s.workers && s.workers[w].phase.Polling? && j in s.workers[w].batch.todo && j in s.jobs
    case Execute(w) => w in s.workers && s.workers[w].phase.Claimed? && s.workers[w].phase.job in s.jobs
    case ExecuteThrows(w) => w in s.workers && s.workers[w].phase.Claimed?
    case CommitThrows(w) =>
      && w in s.workers && s.workers[w].phase.Claimed? && s.workers[w].phase.job in s.jobs
      && s.jobs[s.workers[w].phase.job].status == PROCESSING
    case ReadAttempts(w) => w in s.workers && s.workers[w].phase.Caught? && s.workers[w].phase.job in s.jobs
    case WriteFailure(w) => w in s.workers && s.workers[w].phase.Failing? && s.workers[w].phase.job in s.jobs
    case Crash(w) => w in s.workers
  }

  function Move(s: System, w: WorkerId, phase: Phase): map<WorkerId, Worker>
    requires w in s.workers
  {
    s.workers[w := s.workers[w].(phase := phase)]
  }

  /** The transaction's writes: the action's effects, the audit row and the final status commit together. */
  function Commit(s: System, j: JobId): System
    requires j in s.jobs
  {
    s.(jobs := s.jobs[j := s.jobs[j].(status := SUCCEEDED, lockedAt := None)],
       effects := s.effects[j := (if j in s.effects then s.effects[j] else 0) + 1])
  }

  function Apply(s: System, step: Step): System
    requires Enabled(s, step)
  {
    match step
    case Tick(elapsed) => s.(now := s.now + elapsed)
    case Poll(w, todo) => s.(workers := s.workers[w := Worker(Batch(s.now - LOCK, todo), Polling)])
    case Claim(w, j) =>
      var batch := s.workers[w].batch;
      var rest := Batch(batch.staleLock, batch.todo - {j});
      if Eligible(s.jobs[j], s.now, batch.staleLock) then
        s.(jobs := s.jobs[j := s.jobs[j].(status := PROCESSING, attempts := s.jobs[j].attempts + 1, lockedAt := Some(s.now))],
           workers := s.workers[w := Worker(rest, Claimed(j, s.now))])
      else s.(workers := s.workers[w := Worker(rest, Polling)])
    case Execute(w) =>
      var j := s.workers[w].phase.job;
      if s.jobs[j].status != PROCESSING then s.(workers := Move(s, w, Polling))
      else Commit(s, j).(workers := Move(s, w, Polling))
    case ExecuteThrows(w) => s.(workers := Move(s, w, Caught(s.workers[w].phase.job, s.workers[w].phase.claimedAt)))
    case CommitThrows(w) =>
      var phase := s.workers[w].phase;
      Commit(s, phase.job).(workers := Move(s, w, Caught(phase.job, phase.claimedAt)))
    case ReadAttempts(w) =>
      var phase := s.workers[w].phase;
      var job := s.jobs[phase.job];
      s.(workers := Move(s, w, Failing(phase.job, phase.claimedAt, job.attempts, job.maxAttempts)))
    case WriteFailure(w) =>
      var phase := s.workers[w].phase;
      var j := phase.job;
      s.(jobs := s.jobs[j := s.jobs[j].(
           status := if phase.attempts >= phase.maxAttempts then FAILED else RETRYING,
           scheduledAt := s.now + Backoff(phase.attempts), lockedAt := None)],
         workers := Move(s, w, Polling))
    case Crash(w) => s.(workers := s.workers[w := Worker(NOTHING, Polling)])
  }

  /** A job under way is left alone for ten minutes and no longer. */
  lemma LockIsRespected(job: Job, now: int)
    requires job.status == PROCESSING && job.lockedAt.Some?
    ensures Eligible(job, now, now - LOCK) <==> now > job.lockedAt.value + 600_000
  {
  }

  /** A failed job is tried again if and only if it has attempts left, and from a wait on that doubles from five seconds
      up to an hour. */
  lemma FailureRetries(s: System, w: WorkerId, now: int, staleLock: int)
    requires Enabled(s, WriteFailure(w))
    ensures var phase := s.workers[w].phase;
      var wait := if phase.attempts >= 10 then 3_600_000
        else [5_000, 10_000, 20_000, 40_000, 80_000, 160_000, 320_000, 640_000, 1_280_000, 2_560_000][phase.attempts];
      Eligible(Apply(s, WriteFailure(w)).jobs[phase.job], now, staleLock) <==> phase.attempts < phase.maxAttempts && now >= s.now + wait
  {
    Waits(s.workers[w].phase.attempts);
    hide Backoff;
  }

  lemma Waits(attempts: nat)
    ensures Backoff(attempts) == if attempts >= 10 then 3_600_000
      else [5_000, 10_000, 20_000, 40_000, 80_000, 160_000, 320_000, 640_000, 1_280_000, 2_560_000][attempts]
  {
    assert Power2(5) == 32 && Power2(10) == 1024;
    if attempts >= 10 {
      PowersGrow(10, attempts);
    }
  }

  lemma {:induction false} PowersGrow(m: nat, n: nat)
    requires m <= n
    ensures Power2(m) <= Power2(n)
    decreases n
  {
    if m < n {
      PowersGrow(m, n - 1);
    }
  }

  // ---- runs ----

  predicate Runs(s: System, steps: seq<Step>)
    decreases |steps|
  {
    steps == [] || (Enabled(s, steps[0]) && Runs(Apply(s, steps[0]), steps[1..]))
  }

  function After(s: System, steps: seq<Step>): System
    requires Runs(s, steps)
    decreases |steps|
  {
    if steps == [] then s else After(Apply(s, steps[0]), steps[1..])
  }

  predicate Initial(s: System) {
    && s.effects.Keys == s.jobs.Keys
    && (forall j <- s.jobs :: s.jobs[j].status != SUCCEEDED && s.effects[j] == 0)
    && (forall w <- s.workers :: s.workers[w] == Worker(NOTHING, Polling))
    && s.now >= LOCK
  }

  function EffectsOf(s: System, j: JobId): nat {
    if j in s.effects then s.effects[j] else 0
  }

  predicate Succeeded(s: System, j: JobId) {
    j in s.jobs && s.jobs[j].status == SUCCEEDED
  }

  // ---- what holds in every run: only a failure write can undo success ----

  /** The step is a failure write that lands on a row already SUCCEEDED. */
  predicate Overwrites(s: System, step: Step, j: JobId)
    requires Enabled(s, step)
  {
    step.WriteFailure? && s.workers[step.w].phase.job == j && Succeeded(s, j)
  }

  function Overwritten(s: System, steps: seq<Step>, j: JobId): nat
    requires Runs(s, steps)
    decreases |steps|
  {
    if steps == [] then 0
    else (if Overwrites(s, steps[0], j) then 1 else 0) + Overwritten(Apply(s, steps[0]), steps[1..], j)
  }

  lemma StepCountsEffects(s: System, step: Step, j: JobId)
    requires Enabled(s, step)
    ensures var t := Apply(s, step);
      && (Succeeded(s, j) && !Succeeded(t, j) <==> Overwrites(s, step, j))
      && EffectsOf(t, j) + (if Succeeded(s, j) then 1 else 0)
         == EffectsOf(s, j) + (if Succeeded(t, j) then 1 else 0) + (if Overwrites(s, step, j) then 1 else 0)
  {
  }

  /** Over any run, timely or not: a job's effects number its successes, so each repetition is one overwritten success. */
  lemma {:induction false} EffectsAreSuccesses(s: System, steps: seq<Step>, j: JobId)
    requires Runs(s, steps)
    ensures var t := After(s, steps);
      EffectsOf(t, j) + (if Succeeded(s, j) then 1 else 0)
        == EffectsOf(s, j) + (if Succeeded(t, j) then 1 else 0) + Overwritten(s, steps, j)
    decreases |steps|
  {
    if steps != [] {
      hide Apply, Enabled, Succeeded, Overwrites, EffectsOf;
      StepCountsEffects(s, steps[0], j);
      EffectsAreSuccesses(Apply(s, steps[0]), steps[1..], j);
    }
  }

  // ---- no worker outlives its lock ----

  predicate Holds(s: System, w: WorkerId, j: JobId) {
    w in s.workers && !s.workers[w].phase.Polling? && s.workers[w].phase.job == j
  }

  predicate Live(s: System, w: WorkerId, j: JobId) {
    Holds(s, w, j) && s.now <= s.workers[w].phase.claimedAt + LOCK
  }

  /** A worker acts on its claim within the lock, and a transaction that throws has rolled back. */
  predicate Timely(s: System, step: Step)
    requires Enabled(s, step)
  {
    match step
    case Execute(w) => s.now <= s.workers[w].phase.claimedAt + LOCK
    case WriteFailure(w) => s.now <= s.workers[w].phase.claimedAt + LOCK
    case CommitThrows(w) => false
    case _ => true
  }

  predicate TimelyRun(s: System, steps: seq<Step>)
    requires Runs(s, steps)
    decreases |steps|
  {
    steps == [] || (Timely(s, steps[0]) && TimelyRun(Apply(s, steps[0]), steps[1..]))
  }

  /** Claims still within their lock are exclusive and the row shows them; effects exist only under SUCCEEDED. */
  ghost predicate Inv(s: System) {
    && s.now >= LOCK
    && s.effects.Keys == s.jobs.Keys
    && (forall w <- s.workers :: s.workers[w].batch.staleLock <= s.now - LOCK)
    && (forall w, j :: Live(s, w, j) ==>
          j in s.jobs && s.jobs[j].status == PROCESSING && s.jobs[j].lockedAt == Some(s.workers[w].phase.claimedAt))
    && (forall v, w, j :: Live(s, v, j) && Live(s, w, j) ==> v == w)
    && (forall j <- s.jobs :: s.effects[j] == if s.jobs[j].status == SUCCEEDED then 1 else 0)
  }

  lemma InitialInv(s: System)
    requires Initial(s)
    ensures Inv(s)
  {
  }

  lemma ClaimKeepsInv(s: System, w: WorkerId, j: JobId)
    requires Inv(s) && Enabled(s, Claim(w, j))
    ensures Inv(Apply(s, Claim(w, j)))
  {
    var t := Apply(s, Claim(w, j));
    forall v, k | Live(t, v, k) && v != w ensures Live(s, v, k) && (Holds(t, w, j) ==> k != j) {
      assert Live(s, v, k);
    }
    forall v1, v2, k | Live(t, v1, k) && Live(t, v2, k) ensures v1 == v2 {
      assert v1 == w || v2 == w || (Live(s, v1, k) && Live(s, v2, k));
    }
  }

  /** A worker that acts in time is alone on its row, so letting go of it disturbs no live claim. */
  lemma OnlyHolder(s: System, t: System, w: WorkerId)
    requires Inv(s) && w in s.workers && !s.workers[w].phase.Polling? && Live(s, w, s.workers[w].phase.job)
    requires t.now == s.now && t.workers == Move(s, w, Polling)
    ensures forall v, k :: Live(t, v, k) ==> Live(s, v, k) && v != w && k != s.workers[w].phase.job
    ensures s.workers[w].phase.job in s.jobs && s.jobs[s.workers[w].phase.job].status == PROCESSING
  {
    forall v, k | Live(t, v, k) ensures Live(s, v, k) && v != w && k != s.workers[w].phase.job {
      assert Live(s, v, k);
    }
  }

  lemma StepKeepsInv(s: System, step: Step)
    requires Inv(s) && Enabled(s, step) && Timely(s, step)
    ensures Inv(Apply(s, step))
    ensures forall j :: Succeeded(s, j) ==> Succeeded(Apply(s, step), j)
  {
    var t := Apply(s, step);
    match step
    case Claim(w, j) =>
      ClaimKeepsInv(s, w, j);
    case Execute(w) =>
      OnlyHolder(s, t, w);
    case WriteFailure(w) =>
      OnlyHolder(s, t, w);
    case CommitThrows(_) =>
      assert false;
    case _ =>
      assert forall w, j :: Live(t, w, j) ==> Live(s, w, j);
  }

  lemma {:induction false} RunKeepsInv(s: System, steps: seq<Step>)
    requires Inv(s) && Runs(s, steps) && TimelyRun(s, steps)
    ensures Inv(After(s, steps))
    ensures forall j :: Succeeded(s, j) ==> Succeeded(After(s, steps), j)
    decreases |steps|
  {
    if steps != [] {
      StepKeepsInv(s, steps[0]);
      hide Enabled, Apply, Timely, Inv, Succeeded;
      RunKeepsInv(Apply(s, steps[0]), steps[1..]);
    }
  }

  /** From the start on, in every timely run, a job's effects commit at most once, and SUCCEEDED once reached is never
      left. */
  lemma AtMostOnce(s: System, before: seq<Step>, later: seq<Step>)
    requires Initial(s) && Runs(s, before) && TimelyRun(s, before)
    requires Runs(After(s, before), later) && TimelyRun(After(s, before), later)
    ensures var t := After(s, before); var u := After(t, later);
      && (forall j :: EffectsOf(u, j) <= 1)
      && (forall j :: Succeeded(t, j) ==> Succeeded(u, j))
  {
    hide Enabled, Apply, Timely;
    InitialInv(s);
    RunKeepsInv(s, before);
    RunKeepsInv(After(s, before), later);
  }

  // ---- without the assumptions ----

  lemma Prepend(s: System, step: Step, rest: seq<Step>)
    requires Enabled(s, step) && Runs(Apply(s, step), rest)
    ensures Runs(s, [step] + rest) && After(s, [step] + rest) == After(Apply(s, step), rest)
  {
    assert ([step] + rest)[1..] == rest;
  }

  /** A pending job and two idle workers. */
  const START := System(LOCK, map[0 := Job(PENDING, 0, 10, 0, None)],
                        map[1 := Worker(NOTHING, Polling), 2 := Worker(NOTHING, Polling)], map[0 := 0])

  /** Worker 1's transaction rolls back and the worker stalls past its lock. */
  const STALL: seq<Step> := [Poll(1, {0})] + ([Claim(1, 0)] + ([ExecuteThrows(1)] + [Tick(660_000)]))

  /** Worker 2 takes over the stale lock and succeeds; worker 1 wakes up and reads the attempts. */
  const TAKEOVER: seq<Step> := [Poll(2, {0})] + ([Claim(2, 0)] + ([Execute(2)] + [ReadAttempts(1)]))

  /** The commit went through but its acknowledgement was lost. */
  const LOST_ACKNOWLEDGEMENT: seq<Step> := [Poll(1, {0})] + ([Claim(1, 0)] + ([CommitThrows(1)] + [ReadAttempts(1)]))

  /** The late failure write reopens the job, and the next claim executes it again. */
  const REOPEN: seq<Step> := [WriteFailure(1)] + ([Tick(3_600_000)] + ([Poll(2, {0})] + ([Claim(2, 0)] + [Execute(2)])))

  lemma Reopened(s: System)
    requires Succeeded(s, 0) && 1 in s.workers && s.workers[1].phase.Failing? && s.workers[1].phase.job == 0
    requires s.workers[1].phase.attempts < s.workers[1].phase.maxAttempts
    requires 2 in s.workers && s.workers[2].phase.Polling?
    ensures Runs(s, REOPEN) && EffectsOf(After(s, REOPEN), 0) == EffectsOf(s, 0) + 1
  {
    var s1 := Apply(s, WriteFailure(1));
    var s2 := Apply(s1, Tick(3_600_000));
    var s3 := Apply(s2, Poll(2, {0}));
    var s4 := Apply(s3, Claim(2, 0));
    Prepend(s4, Execute(2), []);
    assert [Execute(2)] + [] == [Execute(2)];
    Prepend(s3, Claim(2, 0), [Execute(2)]);
    Prepend(s2, Poll(2, {0}), [Claim(2, 0)] + [Execute(2)]);
    Prepend(s1, Tick(3_600_000), [Poll(2, {0})] + ([Claim(2, 0)] + [Execute(2)]));
    Prepend(s, WriteFailure(1), [Tick(3_600_000)] + ([Poll(2, {0})] + ([Claim(2, 0)] + [Execute(2)])));
  }

  lemma {:induction false} RunsAppend(s: System, first: seq<Step>, second: seq<Step>)
    requires Runs(s, first) && Runs(After(s, first), second)
    ensures Runs(s, first + second) && After(s, first + second) == After(After(s, first), second)
    decreases |first|
  {
    hide Enabled, Apply;
    if first == [] {
      assert first + second == second;
    } else {
      assert (first + second)[1..] == first[1..] + second;
      RunsAppend(Apply(s, first[0]), first[1..], second);
    }
  }

  lemma TakenOver(s: System)
    requires 0 in s.jobs && s.jobs[0].status == PROCESSING && s.jobs[0].lockedAt.Some?
    requires s.jobs[0].lockedAt.value < s.now - LOCK && s.jobs[0].attempts + 1 < s.jobs[0].maxAttempts
    requires 1 in s.workers && s.workers[1].phase.Caught? && s.workers[1].phase.job == 0
    requires 2 in s.workers && s.workers[2].phase.Polling?
    ensures Runs(s, TAKEOVER)
    ensures var t := After(s, TAKEOVER);
      && Succeeded(t, 0) && EffectsOf(t, 0) == EffectsOf(s, 0) + 1
      && 1 in t.workers && t.workers[1].phase == Failing(0, s.workers[1].phase.claimedAt, s.jobs[0].attempts + 1, s.jobs[0].maxAttempts)
      && 2 in t.workers && t.workers[2].phase.Polling?
  {
    var s1 := Apply(s, Poll(2, {0}));
    var s2 := Apply(s1, Claim(2, 0));
    var s3 := Apply(s2, Execute(2));
    Prepend(s3, ReadAttempts(1), []);
    assert [ReadAttempts(1)] + [] == [ReadAttempts(1)];
    Prepend(s2, Execute(2), [ReadAttempts(1)]);
    Prepend(s1, Claim(2, 0), [Execute(2)] + [ReadAttempts(1)]);
    Prepend(s, Poll(2, {0}), [Claim(2, 0)] + ([Execute(2)] + [ReadAttempts(1)]));
  }

  lemma Stalled()
    ensures Runs(START, STALL)
    ensures After(START, STALL) == System(LOCK + 660_000, map[0 := Job(PROCESSING, 1, 10, 0, Some(LOCK))],
              map[1 := Worker(Batch(0, {}), Caught(0, LOCK)), 2 := Worker(NOTHING, Polling)], map[0 := 0])
  {
    var s1 := Apply(START, Poll(1, {0}));
    var s2 := Apply(s1, Claim(1, 0));
    var s3 := Apply(s2, ExecuteThrows(1));
    Prepend(s3, Tick(660_000), []);
    assert [Tick(660_000)] + [] == [Tick(660_000)];
    Prepend(s2, ExecuteThrows(1), [Tick(660_000)]);
    Prepend(s1, Claim(1, 0), [ExecuteThrows(1)] + [Tick(660_000)]);
    Prepend(START, Poll(1, {0}), [Claim(1, 0)] + ([ExecuteThrows(1)] + [Tick(660_000)]));
    assert {0} - {0} == {};
    assert s2.workers == map[1 := Worker(Batch(0, {}), Claimed(0, LOCK)), 2 := Worker(NOTHING, Polling)];
  }

  /** Without the lock assumption: every thrown transaction rolls back, worker 1 is merely slow, and the job runs twice. */
  lemma LateFailureRepeats()
    ensures Initial(START) && Runs(START, STALL + TAKEOVER + REOPEN)
    ensures forall w :: CommitThrows(w) !in STALL + TAKEOVER + REOPEN
    ensures EffectsOf(After(START, STALL + TAKEOVER + REOPEN), 0) == 2
  {
    hide Enabled, Apply, Runs, After;
    Stalled();
    TakenOver(After(START, STALL));
    RunsAppend(START, STALL, TAKEOVER);
    Reopened(After(START, STALL + TAKEOVER));
    RunsAppend(START, STALL + TAKEOVER, REOPEN);
  }

  lemma Acknowledged()
    ensures Runs(START, LOST_ACKNOWLEDGEMENT)
    ensures var t := After(START, LOST_ACKNOWLEDGEMENT);
      && Succeeded(t, 0) && EffectsOf(t, 0) == 1
      && t.workers == map[1 := Worker(Batch(0, {}), Failing(0, LOCK, 1, 10)), 2 := Worker(NOTHING, Polling)]
  {
    var s1 := Apply(START, Poll(1, {0}));
    var s2 := Apply(s1, Claim(1, 0));
    assert {0} - {0} == {};
    assert s2.workers == map[1 := Worker(Batch(0, {}), Claimed(0, LOCK)), 2 := Worker(NOTHING, Polling)];
    var s3 := Apply(s2, CommitThrows(1));
    Prepend(s3, ReadAttempts(1), []);
    assert [ReadAttempts(1)] + [] == [ReadAttempts(1)];
    Prepend(s2, CommitThrows(1), [ReadAttempts(1)]);
    Prepend(s1, Claim(1, 0), [CommitThrows(1)] + [ReadAttempts(1)]);
    Prepend(START, Poll(1, {0}), [Claim(1, 0)] + ([CommitThrows(1)] + [ReadAttempts(1)]));
  }

  /** Without the rollback assumption: no time passes before the failure write, and the job runs twice. */
  lemma LostAcknowledgementRepeats()
    ensures Initial(START) && Runs(START, LOST_ACKNOWLEDGEMENT + REOPEN)
    ensures EffectsOf(After(START, LOST_ACKNOWLEDGEMENT + REOPEN), 0) == 2
  {
    hide Enabled, Apply, Runs, After;
    Acknowledged();
    Reopened(After(START, LOST_ACKNOWLEDGEMENT));
    RunsAppend(START, LOST_ACKNOWLEDGEMENT, REOPEN);
  }
}
