/** The transactional outbox: workers lease events, turn matching rules into automation jobs and matching
    endpoints into webhook deliveries, and mark the event dispatched.

    A step is one database statement. A lease is not a lock: a worker that outlives it goes on writing. */
module Outbox {
  import Decimal

  type Id = string
  type WorkerId = nat

  /** One action of one business rule. */
  datatype Action = Action(rule: Id, index: nat)

  // ---- the key that makes job creation idempotent ----

  function ActionPart(action: Action): string {
    "action:" + Decimal.Text(action.index)
  }

  function EventPart(event: Id, action: Action): string {
    "event:" + (event + ":" + ActionPart(action))
  }

  /** rule:<rule>:event:<event>:action:<index> */
  function JobKey(event: Id, action: Action): string {
    "rule:" + (action.rule + ":" + EventPart(event, action))
  }

  /** Database ids are UUIDs; what matters here is that they hold no colon. */
  predicate IsId(id: Id) {
    ':' !in id
  }

  lemma {:induction false} UpToColon(a: string, b: string, x: string, y: string)
    requires ':' !in a && ':' !in b && a + ":" + x == b + ":" + y
    ensures a == b && x == y
    decreases |a|
  {
    var left, right := a + ":" + x, b + ":" + y;
    assert left[0] == right[0];
    if a == [] || b == [] {
      assert left[|a|] == ':' && right[|b|] == ':';
      assert left[1..] == right[1..];
    } else {
      assert left[1..] == a[1..] + ":" + x && right[1..] == b[1..] + ":" + y;
      UpToColon(a[1..], b[1..], x, y);
      assert a == [a[0]] + a[1..] && b == [b[0]] + b[1..];
    }
  }

  lemma SamePrefix(p: string, x: string, y: string)
    requires p + x == p + y
    ensures x == y
  {
    assert x == (p + x)[|p|..] && y == (p + y)[|p|..];
  }

  /** Different actions or events never share a key. */
  lemma JobKeyInjective(e: Id, a: Action, f: Id, b: Action)
    requires IsId(e) && IsId(f) && IsId(a.rule) && IsId(b.rule) && JobKey(e, a) == JobKey(f, b)
    ensures e == f && a == b
  {
    SamePrefix("rule:", a.rule + ":" + EventPart(e, a), b.rule + ":" + EventPart(f, b));
    UpToColon(a.rule, b.rule, EventPart(e, a), EventPart(f, b));
    SamePrefix("event:", e + ":" + ActionPart(a), f + ":" + ActionPart(b));
    UpToColon(e, f, ActionPart(a), ActionPart(b));
    SamePrefix("action:", Decimal.Text(a.index), Decimal.Text(b.index));
    Decimal.TextInjective(a.index, b.index);
  }

  // ---- rows, workers and steps ----

  datatype Status = PENDING | PROCESSING | DISPATCHED | FAILED

  datatype Event = Event(status: Status, attempts: nat, availableAt: int)

  datatype Job = Job(event: Id, action: Action)

  const LEASE := 600_000
  const RETRY_DELAY := 30_000

  /** What a worker has seen and still has to do for the event it claimed. */
  datatype Phase =
    | Polling
    | Claimed(event: Id)
    | Rules(event: Id, seenActions: set<Action>, actions: set<Action>)
    | Endpoints(event: Id, seenActions: set<Action>, seenEndpoints: set<Id>, endpoints: set<Id>)
    | Creating(event: Id, seenActions: set<Action>, seenEndpoints: set<Id>, endpoints: set<Id>, endpoint: Id)
    | Caught(event: Id)

  /** The lease end computed when the worker polled, and the attempts it then read for each event. */
  datatype Worker = Worker(lease: int, todo: map<Id, nat>, phase: Phase)

  const IDLE := Worker(0, map[], Polling)

  datatype Seen = Seen(actions: set<Action>, endpoints: set<Id>)

  /** matchingActions and matchingEndpoints are what the rule and endpoint tables currently give for an event;
      deliveries counts the rows of a pair; dispatched records what the worker that marked an event had seen. */
  datatype System = System(
    now: int,
    events: map<Id, Event>,
    workers: map<WorkerId, Worker>,
    matchingActions: map<Id, set<Action>>,
    matchingEndpoints: map<Id, set<Id>>,
    jobs: map<string, Job>,
    deliveries: multiset<(Id, Id)>,
    dispatched: map<Id, Seen>)

  datatype Step =
    | Tick(elapsed: nat)
    | Configure(actions: map<Id, set<Action>>, endpoints: map<Id, set<Id>>)
    | Poll(w: WorkerId, todo: map<Id, nat>)
    | Claim(w: WorkerId, event: Id)
    | ReadRules(w: WorkerId)
    | UpsertJob(w: WorkerId, action: Action)
    | ReadEndpoints(w: WorkerId)
    | FindDelivery(w: WorkerId, endpoint: Id)
    | CreateDelivery(w: WorkerId)
    | MarkDispatched(w: WorkerId)
    | MarkThrows(w: WorkerId)               // the update commits, but its acknowledgement is lost
    | Throw(w: WorkerId)
    | WriteFailure(w: WorkerId)
    | Crash(w: WorkerId)

  predicate Available(event: Event, now: int) {
    event.availableAt <= now && event.status in {PENDING, PROCESSING}
  }

  predicate WellConfigured(actions: map<Id, set<Action>>, endpoints: map<Id, set<Id>>, events: map<Id, Event>) {
    && actions.Keys == endpoints.Keys == events.Keys
    && forall e <- actions :: IsId(e) && forall a <- actions[e] :: IsId(a.rule)
  }

  predicate MayDispatch(s: System, w: WorkerId) {
    && w in s.workers && s.workers[w].phase.Endpoints? && s.workers[w].phase.endpoints == {}
    && s.workers[w].phase.event in s.events
  }

  predicate Enabled(s: System, step: Step) {
    match step
    case Tick(_) => true
    case Configure(actions, endpoints) => WellConfigured(actions, endpoints, s.events)
    case Poll(w, todo) =>
      && w in s.workers && s.workers[w].phase.Polling? && |todo| <= 25
      && forall e <- todo :: e in s.events && Available(s.events[e], s.now) && todo[e] == s.events[e].attempts
    case Claim(w, e) => w in s.workers && s.workers[w].phase.Polling? && e in s.workers[w].todo && e in s.events
    case ReadRules(w) => w in s.workers && s.workers[w].phase.Claimed? && s.workers[w].phase.event in s.matchingActions
    case UpsertJob(w, a) => w in s.workers && s.workers[w].phase.Rules? && a in s.workers[w].phase.actions
    case ReadEndpoints(w) =>
      && w in s.workers && s.workers[w].phase.Rules? && s.workers[w].phase.actions == {}
      && s.workers[w].phase.event in s.matchingEndpoints
    case FindDelivery(w, p) => w in s.workers && s.workers[w].phase.Endpoints? && p in s.workers[w].phase.endpoints
    case CreateDelivery(w) => w in s.workers && s.workers[w].phase.Creating?
    case MarkDispatched(w) => MayDispatch(s, w)
    case MarkThrows(w) => MayDispatch(s, w)
    case Throw(w) => w in s.workers && !s.workers[w].phase.Polling?
    case WriteFailure(w) =>
      && w in s.workers && s.workers[w].phase.Caught? && s.workers[w].phase.event in s.events
      && s.workers[w].phase.event in s.workers[w].todo
    case Crash(w) => w in s.workers
  }

  function Move(s: System, w: WorkerId, phase: Phase): System
    requires w in s.workers
  {
    s.(workers := s.workers[w := s.workers[w].(phase := phase)])
  }

  function Marked(s: System, w: WorkerId, next: Phase): System
    requires MayDispatch(s, w)
  {
    var phase := s.workers[w].phase;
    Move(s, w, next).(
      events := s.events[phase.event := s.events[phase.event].(status := DISPATCHED)],
      dispatched := s.dispatched[phase.event := Seen(phase.seenActions, phase.seenEndpoints)])
  }

  function Apply(s: System, step: Step): System
    requires Enabled(s, step)
  {
    match step
    case Tick(elapsed) => s.(now := s.now + elapsed)
    case Configure(actions, endpoints) => s.(matchingActions := actions, matchingEndpoints := endpoints)
    case Poll(w, todo) => s.(workers := s.workers[w := Worker(s.now + LEASE, todo, Polling)])
    case Claim(w, e) =>
      if Available(s.events[e], s.now) then
        var event := s.events[e];
        Move(s, w, Claimed(e)).(events := s.events[e := Event(PROCESSING, event.attempts + 1, s.workers[w].lease)])
      else s.(workers := s.workers[w := s.workers[w].(todo := s.workers[w].todo - {e})])
    case ReadRules(w) =>
      var e := s.workers[w].phase.event;
      Move(s, w, Rules(e, s.matchingActions[e], s.matchingActions[e]))
    case UpsertJob(w, a) =>
      var phase := s.workers[w].phase;
      var key := JobKey(phase.event, a);
      var jobs := if key in s.jobs then s.jobs else s.jobs[key := Job(phase.event, a)];
      Move(s, w, phase.(actions := phase.actions - {a})).(jobs := jobs)
    case ReadEndpoints(w) =>
      var phase := s.workers[w].phase;
      var found := s.matchingEndpoints[phase.event];
      Move(s, w, Endpoints(phase.event, phase.seenActions, found, found))
    case FindDelivery(w, p) =>
      var phase := s.workers[w].phase;
      var rest := phase.endpoints - {p};
      Move(s, w, if (p, phase.event) in s.deliveries then Endpoints(phase.event, phase.seenActions, phase.seenEndpoints, rest)
                 else Creating(phase.event, phase.seenActions, phase.seenEndpoints, rest, p))
    case CreateDelivery(w) =>
      var phase := s.workers[w].phase;
      Move(s, w, Endpoints(phase.event, phase.seenActions, phase.seenEndpoints, phase.endpoints))
        .(deliveries := s.deliveries + multiset{(phase.endpoint, phase.event)})
    case MarkDispatched(w) => Marked(s, w, Polling)
    case MarkThrows(w) => Marked(s, w, Caught(s.workers[w].phase.event))
    case Throw(w) => Move(s, w, Caught(s.workers[w].phase.event))
    case WriteFailure(w) =>
      var e := s.workers[w].phase.event;
      var status := if s.workers[w].todo[e] + 1 >= 10 then FAILED else PENDING;
      Move(s, w, Polling).(events := s.events[e := s.events[e].(status := status, availableAt := s.now + RETRY_DELAY)])
    case Crash(w) => s.(workers := s.workers[w := IDLE])
  }

  /** A claimed event is left alone until ten minutes after the poll, and no longer. */
  lemma LeaseIsRespected(s: System, w: WorkerId, todo: map<Id, nat>, e: Id, now: int)
    requires Enabled(s, Poll(w, todo)) && e in todo
    ensures var polled := Apply(s, Poll(w, todo));
      && Enabled(polled, Claim(w, e))
      && (Available(Apply(polled, Claim(w, e)).events[e], now) <==> now >= s.now + 600_000)
      && Apply(polled, Claim(w, e)).workers[w].phase == Claimed(e)
  {
    hide JobKey;
  }

  /** Whatever a worker does for an action, an endpoint or an event of its list, it does not do again; the others are
      still to do. */
  lemma TickedOff(s: System, w: WorkerId, step: Step)
    requires Enabled(s, step) && w in s.workers
    ensures var t := Apply(s, step).workers;
      && (forall a :: step == UpsertJob(w, a) ==> t[w].phase.Rules? && t[w].phase.actions == s.workers[w].phase.actions - {a})
      && (forall p :: step == FindDelivery(w, p) ==>
            (t[w].phase.Endpoints? || t[w].phase.Creating?) && t[w].phase.endpoints == s.workers[w].phase.endpoints - {p})
      && (forall e :: step == Claim(w, e) && t[w].phase.Polling? ==> t[w].todo == s.workers[w].todo - {e})
  {
    hide JobKey, Available;
  }

  /** An event whose dispatch failed is available again half a minute later, unless that was its tenth attempt. */
  lemma FailureRetries(s: System, w: WorkerId, now: int)
    requires Enabled(s, WriteFailure(w))
    ensures var e := s.workers[w].phase.event;
      Available(Apply(s, WriteFailure(w)).events[e], now) <==> s.workers[w].todo[e] + 1 < 10 && now >= s.now + 30_000
  {
  }

  predicate Runs(s: System, steps: seq<Step>)
    decreases |steps|
  {
    steps == [] || (Enabled(s, steps[0]) && Runs(Apply(s, steps[0]), steps[1..]))
  }

  function After(s: System, steps: seq<Step>): System
    requires Runs(s, steps)
    decreases |steps|
  {
    if steps == [] then s else After(Apply(s, steps[0]), steps[1..])
  }

  predicate Initial(s: System) {
    && (forall w <- s.workers :: s.workers[w] == IDLE)
    && (forall e <- s.events :: s.events[e].status != DISPATCHED)
    && WellConfigured(s.matchingActions, s.matchingEndpoints, s.events)
    && s.jobs == map[] && s.deliveries == multiset{} && s.dispatched == map[]
    && s.now >= 0
  }

  // ---- nothing seen is lost, in any run ----

  predicate Dispatched(s: System, e: Id) {
    e in s.events && s.events[e].status == DISPATCHED
  }

  predicate HasJob(s: System, e: Id, a: Action) {
    JobKey(e, a) in s.jobs && s.jobs[JobKey(e, a)] == Job(e, a)
  }

  predicate HasDelivery(s: System, e: Id, p: Id) {
    (p, e) in s.deliveries
  }

  ghost predicate PhaseSound(s: System, phase: Phase) {
    match phase
    case Rules(e, seen, todo) =>
      IsId(e) && (forall a <- todo :: IsId(a.rule)) && forall a <- seen :: a in todo || HasJob(s, e, a)
    case Endpoints(e, seen, found, todo) =>
      (forall a <- seen :: HasJob(s, e, a)) && forall p <- found :: p in todo || HasDelivery(s, e, p)
    case Creating(e, seen, found, todo, next) =>
      (forall a <- seen :: HasJob(s, e, a)) && forall p <- found :: p in todo || p == next || HasDelivery(s, e, p)
    case _ => true
  }

  /** Every job row sits under the key of its own event and action. */
  ghost predicate Keyed(s: System) {
    forall k <- s.jobs :: var job := s.jobs[k]; IsId(job.event) && IsId(job.action.rule) && k == JobKey(job.event, job.action)
  }

  /** What a worker has ticked off exists. */
  ghost predicate WorkersSound(s: System) {
    forall w <- s.workers :: PhaseSound(s, s.workers[w].phase)
  }

  /** A dispatched event has a job for every action and a delivery for every endpoint that matched when it was dispatched. */
  ghost predicate DispatchedComplete(s: System) {
    && (forall e :: Dispatched(s, e) ==> e in s.dispatched)
    && forall e <- s.dispatched ::
         && (forall a <- s.dispatched[e].actions :: HasJob(s, e, a))
         && (forall p <- s.dispatched[e].endpoints :: HasDelivery(s, e, p))
  }

  ghost predicate Complete(s: System) {
    && WellConfigured(s.matchingActions, s.matchingEndpoints, s.events)
    && Keyed(s) && WorkersSound(s) && DispatchedComplete(s)
  }

  /** Rows are only ever added. */
  ghost predicate Grows(s: System, t: System) {
    && (forall k <- s.jobs :: k in t.jobs && t.jobs[k] == s.jobs[k])
    && s.deliveries <= t.deliveries
  }

  lemma StepGrows(s: System, step: Step)
    requires Enabled(s, step)
    ensures Grows(s, Apply(s, step))
  {
  }

  lemma SoundStaysSound(s: System, t: System, phase: Phase)
    requires Grows(s, t) && PhaseSound(s, phase)
    ensures PhaseSound(t, phase)
  {
    hide JobKey;
  }

  lemma UpsertedJobExists(s: System, w: WorkerId, a: Action)
    requires Complete(s) && Enabled(s, UpsertJob(w, a))
    ensures HasJob(Apply(s, UpsertJob(w, a)), s.workers[w].phase.event, a)
  {
    hide JobKey;
    var e := s.workers[w].phase.event;
    assert PhaseSound(s, s.workers[w].phase);
    if JobKey(e, a) in s.jobs {
      var job := s.jobs[JobKey(e, a)];
      JobKeyInjective(e, a, job.event, job.action);
    }
  }

  lemma ActingWorkerSound(s: System, step: Step)
    requires Complete(s) && Enabled(s, step) && !step.Tick? && !step.Configure? && !step.UpsertJob?
    ensures PhaseSound(Apply(s, step), Apply(s, step).workers[step.w].phase)
  {
    hide JobKey, Keyed, DispatchedComplete, HasJob;
    var t := Apply(s, step);
    StepGrows(s, step);
    SoundStaysSound(s, t, s.workers[step.w].phase);
    hide Grows;
  }

  lemma StepKeepsWorkersSound(s: System, step: Step)
    requires Complete(s) && Enabled(s, step)
    ensures WorkersSound(Apply(s, step))
  {
    hide JobKey, PhaseSound, Keyed, DispatchedComplete;
    var t := Apply(s, step);
    StepGrows(s, step);
    forall w <- t.workers ensures PhaseSound(t, t.workers[w].phase) {
      if s.workers[w] == t.workers[w] {
        SoundStaysSound(s, t, s.workers[w].phase);
      } else if step.UpsertJob? {
        UpsertSound(s, w, step.action);
      } else {
        ActingWorkerSound(s, step);
      }
    }
  }

  lemma UpsertSound(s: System, w: WorkerId, a: Action)
    requires Complete(s) && Enabled(s, UpsertJob(w, a))
    ensures PhaseSound(Apply(s, UpsertJob(w, a)), Apply(s, UpsertJob(w, a)).workers[w].phase)
  {
    StepGrows(s, UpsertJob(w, a));
    SoundStaysSound(s, Apply(s, UpsertJob(w, a)), s.workers[w].phase);
    UpsertedJobExists(s, w, a);
    hide JobKey, Keyed, DispatchedComplete, HasJob, Grows;
  }

  lemma DispatchingIsComplete(s: System, step: Step)
    requires Complete(s) && Enabled(s, step) && (step.MarkDispatched? || step.MarkThrows?)
    ensures DispatchedComplete(Apply(s, step))
  {
    hide JobKey, Keyed, HasJob, HasDelivery;
    var t := Apply(s, step);
    assert PhaseSound(s, s.workers[step.w].phase);
    StepGrows(s, step);
    RowsStay(s, t);
    hide Grows, WorkersSound, WellConfigured;
  }

  predicate Quiet(step: Step) {
    !step.Claim? && !step.CreateDelivery? && !step.MarkDispatched? && !step.MarkThrows? && !step.WriteFailure?
  }

  lemma QuietStepFrame(s: System, step: Step)
    requires Enabled(s, step) && Quiet(step)
    ensures Apply(s, step).events == s.events && Apply(s, step).deliveries == s.deliveries && Apply(s, step).now >= s.now
    ensures Apply(s, step).dispatched == s.dispatched
  {
    hide JobKey;
  }

  lemma DispatchedStays(s: System, step: Step)
    requires Enabled(s, step) && !step.MarkDispatched? && !step.MarkThrows?
    ensures Apply(s, step).dispatched == s.dispatched
    ensures forall e :: Dispatched(Apply(s, step), e) ==> Dispatched(s, e)
  {
    if Quiet(step) {
      QuietStepFrame(s, step);
      hide Apply, Enabled;
    } else {
      hide JobKey, WellConfigured;
    }
  }

  lemma StepKeepsDispatched(s: System, step: Step)
    requires Complete(s) && Enabled(s, step)
    ensures DispatchedComplete(Apply(s, step))
  {
    if step.MarkDispatched? || step.MarkThrows? {
      DispatchingIsComplete(s, step);
    } else {
      var t := Apply(s, step);
      StepGrows(s, step);
      RowsStay(s, t);
      DispatchedStays(s, step);
      hide Apply, Enabled, Keyed, WorkersSound, WellConfigured, HasJob, HasDelivery, Grows;
    }
  }

  lemma RowsStay(s: System, t: System)
    requires Grows(s, t)
    ensures forall e, a :: HasJob(s, e, a) ==> HasJob(t, e, a)
    ensures forall e, p :: HasDelivery(s, e, p) ==> HasDelivery(t, e, p)
  {
    hide JobKey;
  }

  lemma QuietJobsStay(s: System, step: Step)
    requires Enabled(s, step) && Quiet(step) && !step.UpsertJob?
    ensures Apply(s, step).jobs == s.jobs
  {
    hide JobKey, Available, WellConfigured, Marked;
  }

  lemma LoudJobsStay(s: System, step: Step)
    requires Enabled(s, step) && !Quiet(step)
    ensures Apply(s, step).jobs == s.jobs
  {
    hide JobKey, Available, WellConfigured, Marked;
    match step
    case MarkDispatched(w) =>
      MarkedFrame(s, w, Polling);
    case MarkThrows(w) =>
      MarkedFrame(s, w, Caught(s.workers[w].phase.event));
    case _ =>
  }

  lemma OtherJobsStay(s: System, step: Step)
    requires Enabled(s, step) && !step.UpsertJob?
    ensures Apply(s, step).jobs == s.jobs
  {
    hide Apply, Enabled;
    if Quiet(step) {
      QuietJobsStay(s, step);
    } else {
      LoudJobsStay(s, step);
    }
  }

  lemma UpsertedJobs(s: System, w: WorkerId, a: Action)
    requires Complete(s) && Enabled(s, UpsertJob(w, a))
    ensures Keyed(Apply(s, UpsertJob(w, a)))
  {
    UpsertedRow(s, w, a);
    hide JobKey, DispatchedComplete, PhaseSound, WorkersSound;
  }

  lemma StepKeepsKeyed(s: System, step: Step)
    requires Complete(s) && Enabled(s, step)
    ensures Keyed(Apply(s, step))
  {
    if step.UpsertJob? {
      UpsertedJobs(s, step.w, step.action);
    } else {
      OtherJobsStay(s, step);
      hide JobKey, Enabled, Apply, DispatchedComplete, WorkersSound;
    }
  }

  lemma StepKeepsComplete(s: System, step: Step)
    requires Complete(s) && Enabled(s, step)
    ensures Complete(Apply(s, step))
  {
    StepKeepsKeyed(s, step);
    StepKeepsWorkersSound(s, step);
    StepKeepsDispatched(s, step);
    StepKeepsConfigured(s, step);
    hide Keyed, WorkersSound, DispatchedComplete, Enabled, Apply;
  }

  lemma StepKeepsConfigured(s: System, step: Step)
    requires WellConfigured(s.matchingActions, s.matchingEndpoints, s.events) && Enabled(s, step)
    ensures var t := Apply(s, step); WellConfigured(t.matchingActions, t.matchingEndpoints, t.events)
  {
    EventsStay(s, step);
    ConfigurationStays(s, step);
    hide Apply;
  }

  lemma EventsStay(s: System, step: Step)
    requires Enabled(s, step)
    ensures Apply(s, step).events.Keys == s.events.Keys
  {
    hide JobKey, Available;
    if Quiet(step) {
      QuietStepFrame(s, step);
    }
  }

  lemma ConfigurationStays(s: System, step: Step)
    requires Enabled(s, step)
    ensures var t := Apply(s, step);
      if step.Configure? then t.matchingActions == step.actions && t.matchingEndpoints == step.endpoints
      else t.matchingActions == s.matchingActions && t.matchingEndpoints == s.matchingEndpoints
  {
    hide Apply, Enabled;
    if Quiet(step) {
      QuietStepConfigures(s, step);
    } else {
      LoudStepConfigures(s, step);
    }
  }

  lemma LoudStepConfigures(s: System, step: Step)
    requires Enabled(s, step) && !Quiet(step)
    ensures Apply(s, step).matchingActions == s.matchingActions && Apply(s, step).matchingEndpoints == s.matchingEndpoints
  {
    hide JobKey, Available, WellConfigured, Marked;
    match step
    case MarkDispatched(w) =>
      MarkedFrame(s, w, Polling);
    case MarkThrows(w) =>
      MarkedFrame(s, w, Caught(s.workers[w].phase.event));
    case _ =>
  }

  lemma QuietStepConfigures(s: System, step: Step)
    requires Enabled(s, step) && Quiet(step)
    ensures var t := Apply(s, step);
      if step.Configure? then t.matchingActions == step.actions && t.matchingEndpoints == step.endpoints
      else t.matchingActions == s.matchingActions && t.matchingEndpoints == s.matchingEndpoints
  {
    hide JobKey, Available, WellConfigured, Marked;
  }

  lemma MarkedFrame(s: System, w: WorkerId, next: Phase)
    requires MayDispatch(s, w)
    ensures Marked(s, w, next).matchingActions == s.matchingActions
    ensures Marked(s, w, next).matchingEndpoints == s.matchingEndpoints && Marked(s, w, next).jobs == s.jobs
  {
  }

  lemma UpsertedRow(s: System, w: WorkerId, a: Action)
    requires Complete(s) && Enabled(s, UpsertJob(w, a))
    ensures IsId(s.workers[w].phase.event) && IsId(a.rule)
  {
    assert PhaseSound(s, s.workers[w].phase);
  }

  /** Over every run, with any crashes, stalls and retries. */
  lemma {:induction false} NothingSeenIsLost(s: System, steps: seq<Step>)
    requires Complete(s) && Runs(s, steps)
    ensures Complete(After(s, steps)) && Grows(s, After(s, steps))
    decreases |steps|
  {
    if steps != [] {
      StepKeepsComplete(s, steps[0]);
      StepGrows(s, steps[0]);
      hide Enabled, Apply, Complete;
      NothingSeenIsLost(Apply(s, steps[0]), steps[1..]);
    }
  }

  // ---- one delivery per pair while no worker outlives its lease ----

  predicate Holds(s: System, w: WorkerId, e: Id) {
    w in s.workers && !s.workers[w].phase.Polling? && s.workers[w].phase.event == e
  }

  predicate Live(s: System, w: WorkerId, e: Id) {
    Holds(s, w, e) && s.now < s.workers[w].lease
  }

  /** A worker writes deliveries and event rows only before its lease ends, and an update that throws did not commit. */
  predicate Timely(s: System, step: Step)
    requires Enabled(s, step)
  {
    !step.MarkThrows? && (step.CreateDelivery? || step.MarkDispatched? || step.WriteFailure? ==> s.now < s.workers[step.w].lease)
  }

  predicate TimelyRun(s: System, steps: seq<Step>)
    requires Runs(s, steps)
    decreases |steps|
  {
    steps == [] || (Timely(s, steps[0]) && TimelyRun(Apply(s, steps[0]), steps[1..]))
  }

  /** Live leases are exclusive and the event row shows them; a live worker about to create a delivery is right that none exists. */
  ghost predicate Exclusive(s: System) {
    && (forall w, e :: Live(s, w, e) ==> e in s.events && s.events[e].status == PROCESSING && s.events[e].availableAt == s.workers[w].lease)
    && (forall v, w, e :: Live(s, v, e) && Live(s, w, e) ==> v == w)
    && (forall w, e :: Live(s, w, e) && s.workers[w].phase.Creating? ==> !HasDelivery(s, e, s.workers[w].phase.endpoint))
    && (forall p, e :: s.deliveries[(p, e)] <= 1)
  }

  /** The stepping worker's own lease ends its claim; every other live claim it finds, it leaves alone. */
  lemma OnlyHolder(s: System, t: System, w: WorkerId)
    requires Exclusive(s) && w in s.workers && !s.workers[w].phase.Polling? && Live(s, w, s.workers[w].phase.event)
    requires t.now == s.now && t.workers == s.workers[w := s.workers[w].(phase := Polling)]
    ensures forall v, k :: Live(t, v, k) ==> Live(s, v, k) && v != w && k != s.workers[w].phase.event
  {
    forall v, k | Live(t, v, k) ensures Live(s, v, k) && v != w && k != s.workers[w].phase.event {
      assert Live(s, v, k);
    }
  }

  /** A row that is available has no live holder, so whoever takes it is alone. */
  lemma TakenAlone(s: System, t: System, w: WorkerId, e: Id, event: Event)
    requires Exclusive(s) && e in s.events && Available(s.events[e], s.now)
    requires w in s.workers && t.now == s.now && t.deliveries == s.deliveries
    requires t.workers == s.workers[w := s.workers[w].(phase := Claimed(e))]
    requires t.events == s.events[e := event] && event.status == PROCESSING && event.availableAt == s.workers[w].lease
    ensures Exclusive(t)
  {
    forall v, k | Live(t, v, k) ensures if v == w then k == e else Live(s, v, k) && k != e {
      if v != w {
        assert Live(s, v, k);
      }
    }
  }

  lemma ClaimKeepsExclusive(s: System, w: WorkerId, e: Id)
    requires Exclusive(s) && Enabled(s, Claim(w, e))
    ensures Exclusive(Apply(s, Claim(w, e)))
  {
    hide JobKey;
    var t := Apply(s, Claim(w, e));
    if Available(s.events[e], s.now) {
      hide Exclusive;
      TakenAlone(s, t, w, e, t.events[e]);
    } else {
      assert forall v, k :: Live(t, v, k) ==> Live(s, v, k);
    }
  }

  lemma CreateKeepsExclusive(s: System, w: WorkerId)
    requires Exclusive(s) && Enabled(s, CreateDelivery(w)) && s.now < s.workers[w].lease
    ensures Exclusive(Apply(s, CreateDelivery(w)))
  {
    var t := Apply(s, CreateDelivery(w));
    var e := s.workers[w].phase.event;
    assert Live(s, w, e);
    forall v, k | Live(t, v, k) ensures Live(s, v, k) && (v != w ==> k != e) {
      assert Live(s, v, k);
    }
  }

  lemma FinishKeepsExclusive(s: System, step: Step)
    requires Exclusive(s) && Enabled(s, step) && Timely(s, step) && (step.MarkDispatched? || step.WriteFailure?)
    ensures Exclusive(Apply(s, step))
  {
    hide JobKey;
    OnlyHolder(s, Apply(s, step), step.w);
  }

  lemma QuietStepLive(s: System, step: Step, v: WorkerId, k: Id)
    requires Enabled(s, step) && Quiet(step) && Live(Apply(s, step), v, k)
    ensures var t := Apply(s, step);
      && Live(s, v, k) && t.workers[v].lease == s.workers[v].lease
      && (t.workers[v].phase.Creating? ==>
            t.workers[v].phase == s.workers[v].phase || !HasDelivery(s, k, t.workers[v].phase.endpoint))
  {
    hide JobKey;
  }

  lemma QuietStepKeepsExclusive(s: System, step: Step)
    requires Exclusive(s) && Enabled(s, step) && Quiet(step)
    ensures Exclusive(Apply(s, step))
  {
    var t := Apply(s, step);
    QuietStepFrame(s, step);
    forall v, k | Live(t, v, k)
      ensures && Live(s, v, k) && t.workers[v].lease == s.workers[v].lease
              && (t.workers[v].phase.Creating? ==>
                    t.workers[v].phase == s.workers[v].phase || !HasDelivery(s, k, t.workers[v].phase.endpoint))
    {
      QuietStepLive(s, step, v, k);
    }
    hide Apply, Enabled;
  }

  lemma StepKeepsStatus(s: System, step: Step)
    requires Exclusive(s) && Enabled(s, step) && Timely(s, step)
    ensures forall e :: Dispatched(s, e) ==> Dispatched(Apply(s, step), e)
  {
    hide JobKey;
    if step.WriteFailure? {
      assert Live(s, step.w, s.workers[step.w].phase.event);
    }
  }

  lemma StepKeepsExclusive(s: System, step: Step)
    requires Exclusive(s) && Enabled(s, step) && Timely(s, step)
    ensures Exclusive(Apply(s, step))
    ensures forall e :: Dispatched(s, e) ==> Dispatched(Apply(s, step), e)
  {
    hide Exclusive;
    StepKeepsStatus(s, step);
    match step
    case Claim(w, e) =>
      ClaimKeepsExclusive(s, w, e);
    case CreateDelivery(w) =>
      CreateKeepsExclusive(s, w);
    case MarkDispatched(_) =>
      FinishKeepsExclusive(s, step);
    case WriteFailure(_) =>
      FinishKeepsExclusive(s, step);
    case MarkThrows(_) =>
      assert false;
    case _ =>
      QuietStepKeepsExclusive(s, step);
  }

  /** In every timely run no pair is ever delivered twice, and a dispatched event stays dispatched. */
  lemma {:induction false} OneDeliveryPerPair(s: System, steps: seq<Step>)
    requires Exclusive(s) && Runs(s, steps) && TimelyRun(s, steps)
    ensures Exclusive(After(s, steps))
    ensures forall e :: Dispatched(s, e) ==> Dispatched(After(s, steps), e)
    decreases |steps|
  {
    if steps != [] {
      StepKeepsExclusive(s, steps[0]);
      hide Enabled, Apply, Timely, Exclusive, Dispatched;
      OneDeliveryPerPair(Apply(s, steps[0]), steps[1..]);
    }
  }

  /** A dispatched event: exactly one job per matching action and, in a timely run, exactly one delivery per matching endpoint. */
  lemma DispatchedExactly(s: System, steps: seq<Step>, e: Id)
    requires Initial(s) && Runs(s, steps) && Dispatched(After(s, steps), e)
    ensures var t := After(s, steps);
      && e in t.dispatched
      && (forall a <- t.dispatched[e].actions :: HasJob(t, e, a))
      && (forall k, a :: k in t.jobs && t.jobs[k] == Job(e, a) ==> k == JobKey(e, a))
      && (forall p <- t.dispatched[e].endpoints :: t.deliveries[(p, e)] >= 1)
      && (TimelyRun(s, steps) ==> forall p <- t.dispatched[e].endpoints :: t.deliveries[(p, e)] == 1)
  {
    assert Complete(s);
    NothingSeenIsLost(s, steps);
    var t := After(s, steps);
    assert forall p <- t.dispatched[e].endpoints :: HasDelivery(t, e, p);
    if TimelyRun(s, steps) {
      assert Exclusive(s);
      OneDeliveryPerPair(s, steps);
    }
  }

  // ---- outliving the lease ----

  lemma Prepend(s: System, step: Step, rest: seq<Step>)
    requires Enabled(s, step) && Runs(Apply(s, step), rest)
    ensures Runs(s, [step] + rest) && After(s, [step] + rest) == After(Apply(s, step), rest)
  {
    hide Enabled, Apply;
    assert ([step] + rest)[1..] == rest;
  }

  lemma {:induction false} RunsAppend(s: System, first: seq<Step>, second: seq<Step>)
    requires Runs(s, first) && Runs(After(s, first), second)
    ensures Runs(s, first + second) && After(s, first + second) == After(After(s, first), second)
    decreases |first|
  {
    hide Enabled, Apply;
    if first == [] {
      assert first + second == second;
    } else {
      assert (first + second)[1..] == first[1..] + second;
      RunsAppend(Apply(s, first[0]), first[1..], second);
    }
  }

  // ---- exactly how many deliveries a pair has ----

  predicate CreatesPair(s: System, step: Step, p: Id, e: Id) {
    && step.CreateDelivery? && step.w in s.workers && s.workers[step.w].phase.Creating?
    && s.workers[step.w].phase.endpoint == p && s.workers[step.w].phase.event == e
  }

  function Creations(s: System, steps: seq<Step>, p: Id, e: Id): nat
    requires Runs(s, steps)
    decreases |steps|
  {
    if steps == [] then 0
    else (if CreatesPair(s, steps[0], p, e) then 1 else 0) + Creations(Apply(s, steps[0]), steps[1..], p, e)
  }

  /** Some worker creates a delivery for a pair that has one. */
  predicate CreatesAgain(s: System, steps: seq<Step>, p: Id, e: Id)
    requires Runs(s, steps)
    decreases |steps|
  {
    steps != [] &&
    ((CreatesPair(s, steps[0], p, e) && (p, e) in s.deliveries) || CreatesAgain(Apply(s, steps[0]), steps[1..], p, e))
  }

  lemma StepCreates(s: System, step: Step, p: Id, e: Id)
    requires Enabled(s, step)
    ensures Apply(s, step).deliveries[(p, e)] == s.deliveries[(p, e)] + if CreatesPair(s, step, p, e) then 1 else 0
  {
    hide JobKey;
  }

  /** Over every run a pair has as many deliveries as were created for it, and at most one if and only if none was
      created where one already stood. */
  lemma {:induction false} DeliveriesAreCreations(s: System, steps: seq<Step>, p: Id, e: Id)
    requires Runs(s, steps)
    ensures After(s, steps).deliveries[(p, e)] == s.deliveries[(p, e)] + Creations(s, steps, p, e)
    ensures s.deliveries[(p, e)] <= 1 ==> (After(s, steps).deliveries[(p, e)] <= 1 <==> !CreatesAgain(s, steps, p, e))
    decreases |steps|
  {
    if steps != [] {
      StepCreates(s, steps[0], p, e);
      hide Enabled, Apply, CreatesPair;
      DeliveriesAreCreations(Apply(s, steps[0]), steps[1..], p, e);
    }
  }

  // ---- exactly how a dispatched event stops being one ----

  /** Only a failure write takes a dispatched event back; no status protects it. */
  lemma DispatchLostIff(s: System, step: Step, e: Id)
    requires Enabled(s, step) && Dispatched(s, e)
    ensures !Dispatched(Apply(s, step), e) <==> step.WriteFailure? && s.workers[step.w].phase.event == e
  {
    hide JobKey;
    if Quiet(step) {
      QuietStepFrame(s, step);
    }
  }

  /** A dispatch whose acknowledgement is lost is taken back at once by the worker that made it. */
  lemma LostAcknowledgementReopens(s: System, w: WorkerId)
    requires Enabled(s, MarkThrows(w)) && s.workers[w].phase.event in s.workers[w].todo
    ensures var e := s.workers[w].phase.event; var steps := [MarkThrows(w)] + [WriteFailure(w)];
      && Dispatched(Apply(s, MarkThrows(w)), e)
      && Runs(s, steps) && !Dispatched(After(s, steps), e) && e in After(s, steps).dispatched
  {
    var s1 := Apply(s, MarkThrows(w));
    assert [WriteFailure(w)] + [] == [WriteFailure(w)];
    Prepend(s1, WriteFailure(w), []);
    Prepend(s, MarkThrows(w), [WriteFailure(w)]);
  }

  // ---- taking over an expired lease, for any event and endpoint ----

  /** Worker w may poll event e, which still matches endpoint p, and the pair has no delivery. */
  predicate Ready(s: System, w: WorkerId, e: Id, p: Id) {
    && w in s.workers && s.workers[w].phase.Polling?
    && e in s.events && Available(s.events[e], s.now)
    && e in s.matchingActions && e in s.matchingEndpoints && p in s.matchingEndpoints[e]
    && (p, e) !in s.deliveries
  }

  predicate AboutToCreate(s: System, w: WorkerId, e: Id, p: Id) {
    w in s.workers && s.workers[w].phase.Creating? && s.workers[w].phase.event == e && s.workers[w].phase.endpoint == p
  }

  /** What one worker's approach to a delivery leaves alone. */
  ghost predicate OnlyMoved(s: System, t: System, w: WorkerId) {
    && t.now == s.now && t.deliveries == s.deliveries && t.workers.Keys == s.workers.Keys
    && t.matchingActions == s.matchingActions && t.matchingEndpoints == s.matchingEndpoints
    && (forall v <- s.workers :: v != w ==> t.workers[v] == s.workers[v])
  }

  lemma UpsertOne(s: System, w: WorkerId, a: Action)
    requires w in s.workers && s.workers[w].phase.Rules? && a in s.workers[w].phase.actions
    ensures Enabled(s, UpsertJob(w, a))
    ensures var phase, t := s.workers[w].phase, Apply(s, UpsertJob(w, a));
      OnlyMoved(s, t, w) && t.events == s.events && t.workers[w].phase == phase.(actions := phase.actions - {a})
  {
    hide JobKey;
  }

  /** All the upserts a worker has still to do, in any order. */
  lemma {:induction false} UpsertAll(s: System, w: WorkerId) returns (steps: seq<Step>)
    requires w in s.workers && s.workers[w].phase.Rules?
    ensures Runs(s, steps)
    ensures var t := After(s, steps);
      && OnlyMoved(s, t, w) && t.events == s.events
      && t.workers[w].phase.Rules? && t.workers[w].phase.event == s.workers[w].phase.event && t.workers[w].phase.actions == {}
    decreases |s.workers[w].phase.actions|
  {
    hide Enabled, Apply;
    var todo := s.workers[w].phase.actions;
    if todo == {} {
      steps := [];
    } else {
      hide Runs, After;
      var a :| a in todo;
      UpsertOne(s, w, a);
      var rest := UpsertAll(Apply(s, UpsertJob(w, a)), w);
      Prepend(s, UpsertJob(w, a), rest);
      steps := [UpsertJob(w, a)] + rest;
    }
  }

  lemma TakeEvent(s: System, w: WorkerId, e: Id, p: Id) returns (steps: seq<Step>)
    requires Ready(s, w, e, p)
    ensures Runs(s, steps)
    ensures var t := After(s, steps);
      && OnlyMoved(s, t, w) && t.workers[w].phase == Claimed(e)
      && t.events == s.events[e := Event(PROCESSING, s.events[e].attempts + 1, s.now + LEASE)]
  {
    hide Enabled, Apply, Available;
    var todo := map[e := s.events[e].attempts];
    var s1 := Polled(s, w, e, todo);
    var s2 := ClaimedBy(s1, w, e);
    Prepend(s1, Claim(w, e), []);
    Prepend(s, Poll(w, todo), [Claim(w, e)] + []);
    steps := [Poll(w, todo)] + ([Claim(w, e)] + []);
  }

  lemma Polled(s: System, w: WorkerId, e: Id, todo: map<Id, nat>) returns (t: System)
    requires w in s.workers && s.workers[w].phase.Polling? && e in s.events && Available(s.events[e], s.now)
    requires todo == map[e := s.events[e].attempts]
    ensures Enabled(s, Poll(w, todo)) && t == Apply(s, Poll(w, todo))
    ensures OnlyMoved(s, t, w) && t.events == s.events && t.workers[w] == Worker(s.now + LEASE, todo, Polling)
  {
    hide JobKey;
    assert |todo| == 1;
    t := Apply(s, Poll(w, todo));
  }

  lemma ClaimedBy(s: System, w: WorkerId, e: Id) returns (t: System)
    requires w in s.workers && s.workers[w].phase.Polling? && e in s.workers[w].todo && s.workers[w].lease == s.now + LEASE
    requires e in s.events && Available(s.events[e], s.now)
    ensures Enabled(s, Claim(w, e)) && t == Apply(s, Claim(w, e))
    ensures OnlyMoved(s, t, w) && t.workers[w].phase == Claimed(e)
    ensures t.events == s.events[e := Event(PROCESSING, s.events[e].attempts + 1, s.now + LEASE)]
  {
    hide JobKey;
    t := Apply(s, Claim(w, e));
  }

  lemma LookForPair(s: System, w: WorkerId, e: Id, p: Id) returns (steps: seq<Step>)
    requires w in s.workers && s.workers[w].phase.Rules? && s.workers[w].phase.event == e && s.workers[w].phase.actions == {}
    requires e in s.matchingEndpoints && p in s.matchingEndpoints[e] && (p, e) !in s.deliveries
    ensures Runs(s, steps)
    ensures var t := After(s, steps); OnlyMoved(s, t, w) && t.events == s.events && AboutToCreate(t, w, e, p)
  {
    hide JobKey;
    var s1 := Apply(s, ReadEndpoints(w));
    Prepend(s1, FindDelivery(w, p), []);
    Prepend(s, ReadEndpoints(w), [FindDelivery(w, p)] + []);
    steps := [ReadEndpoints(w)] + ([FindDelivery(w, p)] + []);
  }

  /** A worker takes the event and looks until it has found that the pair has no delivery. */
  lemma Approach(s: System, w: WorkerId, e: Id, p: Id) returns (steps: seq<Step>)
    requires Ready(s, w, e, p)
    ensures Runs(s, steps)
    ensures var t := After(s, steps);
      && OnlyMoved(s, t, w) && AboutToCreate(t, w, e, p)
      && t.events == s.events[e := Event(PROCESSING, s.events[e].attempts + 1, s.now + LEASE)]
  {
    hide Enabled, Apply, Ready;
    ReadyPair(s, w, e, p);
    var take := TakeEvent(s, w, e, p);
    var s1 := After(s, take);
    var s2 := ReadsRules(s1, w, e);
    var upserts := UpsertAll(s2, w);
    var s3 := After(s2, upserts);
    var look := LookForPair(s3, w, e, p);
    Prepend(s1, ReadRules(w), upserts);
    RunsAppend(s1, [ReadRules(w)] + upserts, look);
    RunsAppend(s, take, [ReadRules(w)] + upserts + look);
    steps := take + ([ReadRules(w)] + upserts + look);
  }

  lemma ReadyPair(s: System, w: WorkerId, e: Id, p: Id)
    requires Ready(s, w, e, p)
    ensures w in s.workers && e in s.events
    ensures e in s.matchingActions && e in s.matchingEndpoints && p in s.matchingEndpoints[e] && (p, e) !in s.deliveries
  {
  }

  lemma ReadsRules(s: System, w: WorkerId, e: Id) returns (t: System)
    requires w in s.workers && s.workers[w].phase == Claimed(e) && e in s.matchingActions
    ensures Enabled(s, ReadRules(w)) && t == Apply(s, ReadRules(w))
    ensures OnlyMoved(s, t, w) && t.events == s.events && t.workers[w].phase.Rules? && t.workers[w].phase.event == e
  {
    t := Apply(s, ReadRules(w));
  }

  lemma BothCreate(s: System, v: WorkerId, w: WorkerId, e: Id, p: Id)
    requires v != w && AboutToCreate(s, v, e, p) && AboutToCreate(s, w, e, p)
    ensures var steps := [CreateDelivery(w)] + [CreateDelivery(v)];
      Runs(s, steps) && After(s, steps).deliveries[(p, e)] == s.deliveries[(p, e)] + 2
  {
    hide JobKey;
    var s1 := Apply(s, CreateDelivery(w));
    assert [CreateDelivery(v)] + [] == [CreateDelivery(v)];
    Prepend(s1, CreateDelivery(v), []);
    Prepend(s, CreateDelivery(w), [CreateDelivery(v)]);
  }

  /** From any state in which a worker has stalled before creating a delivery and its event is available again, a
      second worker can take the event over, and then both create. */
  lemma TakeoverDuplicates(s: System, v: WorkerId, w: WorkerId, e: Id, p: Id) returns (steps: seq<Step>)
    requires v != w && AboutToCreate(s, v, e, p) && Ready(s, w, e, p)
    ensures Runs(s, steps) && After(s, steps).deliveries[(p, e)] == 2
  {
    hide Enabled, Apply;
    var approach := Approach(s, w, e, p);
    var t := After(s, approach);
    BothCreate(t, v, w, e, p);
    RunsAppend(s, approach, [CreateDelivery(w)] + [CreateDelivery(v)]);
    steps := approach + ([CreateDelivery(w)] + [CreateDelivery(v)]);
  }

  /** It happens from the start, for every event, endpoint and pair of workers: one stalls for the length of its lease. */
  lemma ExpiredLeaseDuplicates(s: System, v: WorkerId, w: WorkerId, e: Id, p: Id) returns (steps: seq<Step>)
    requires Initial(s) && v != w && Ready(s, v, e, p) && w in s.workers
    ensures Runs(s, steps) && After(s, steps).deliveries[(p, e)] == 2
  {
    hide Enabled, Apply;
    var first := Approach(s, v, e, p);
    var s1 := After(s, first);
    var s2 := s1.(now := s1.now + LEASE);
    WaitRuns(s1);
    RunsAppend(s, first, [Tick(LEASE)]);
    assert Ready(s2, w, e, p);
    var rest := TakeoverDuplicates(s2, v, w, e, p);
    RunsAppend(s, first + [Tick(LEASE)], rest);
    steps := first + [Tick(LEASE)] + rest;
  }

  lemma WaitRuns(s: System)
    ensures Runs(s, [Tick(LEASE)]) && After(s, [Tick(LEASE)]) == s.(now := s.now + LEASE)
  {
    assert [Tick(LEASE)][1..] == [];
  }
}
