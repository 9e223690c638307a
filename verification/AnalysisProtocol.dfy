/** Workers, redeliveries, cancellations and the object store, interleaved.

    Each database session of a worker is one step, as is the upload; executions can be delivered any number of
    times, and can die between any two steps. Claims are for every run from the empty system. */
module AnalysisProtocol {
  import opened Wrappers
  import opened Analysis

  /** Where an execution stands: it has read the job; marked it running; decided to fail it; has an output;
      passed the first guard; has uploaded what there was; or is over. */
  datatype Stage =
    | Delivered
    | Owning
    | Failing(error: string)
    | Analysed(output: Output)
    | Cleared(output: Output)
    | Uploaded(output: Output, key: Option<ObjectKey>)
    | Over

  /** passed records whether the execution got past mark_running. */
  datatype Worker = Worker(jobId: nat, stage: Stage, passed: bool)

  datatype System = System(jobs: Jobs, workers: map<nat, Worker>, objects: set<ObjectKey>)

  datatype Event =
    | Create(id: nat, channelId: int, plugin: string)
    | Cancel(id: nat, now: int)
    | Deliver(w: nat, id: nat)
    | MarkRunning(w: nat, now: int)
    | Decided(w: nat, decision: Decision, error: string)
    | MarkFailed(w: nat, now: int)
    | FirstGuard(w: nat)
    | Upload(w: nat)
    | Finish(w: nat, now: int)
    | Crash(w: nat)

  predicate At(s: System, w: nat) {
    w in s.workers && s.workers[w].jobId in s.jobs
  }

  predicate Enabled(s: System, e: Event) {
    match e
    case Create(id, _, _) => id !in s.jobs
    case Cancel(id, _) => id in s.jobs && Cancellable(s.jobs[id].status)
    case Deliver(w, id) => w !in s.workers && id in s.jobs
    case MarkRunning(w, _) => At(s, w) && s.workers[w].stage == Delivered
    case Decided(w, _, _) => At(s, w) && s.workers[w].stage == Owning
    case MarkFailed(w, _) => At(s, w) && s.workers[w].stage.Failing?
    case FirstGuard(w) => At(s, w) && s.workers[w].stage.Analysed?
    case Upload(w) => At(s, w) && s.workers[w].stage.Cleared?
    case Finish(w, _) => At(s, w) && s.workers[w].stage.Uploaded?
    case Crash(w) => At(s, w) && s.workers[w].stage != Over
  }

  function Moved(s: System, w: nat, stage: Stage): System
    requires w in s.workers
  {
    s.(workers := s.workers[w := s.workers[w].(stage := stage)])
  }

  function Next(s: System, e: Event): System
    requires Enabled(s, e)
  {
    match e
    case Create(id, channelId, plugin) => s.(jobs := s.jobs[id := NewJob(channelId, plugin)])
    case Cancel(id, now) => s.(jobs := s.jobs[id := CancelledAt(s.jobs[id], now)])
    case Deliver(w, id) => s.(workers := s.workers[w := Worker(id, Delivered, false)])
    case MarkRunning(w, now) =>
      var id := s.workers[w].jobId;
      if s.jobs[id].status == Pending then
        s.(jobs := s.jobs[id := Started(s.jobs[id], now)], workers := s.workers[w := Worker(id, Owning, true)])
      else Moved(s, w, Over)
    case Decided(w, decision, error) =>
      Moved(s, w, match decision case Fail(_) => Failing(error) case Proceed(output) => Analysed(output))
    case MarkFailed(w, now) =>
      var id := s.workers[w].jobId;
      Moved(s.(jobs := s.jobs[id := FailedWith(s.jobs[id], s.workers[w].stage.error, now)]), w, Over)
    case FirstGuard(w) =>
      if s.jobs[s.workers[w].jobId].status == Cancelled then Moved(s, w, Over)
      else Moved(s, w, Cleared(s.workers[w].stage.output))
    case Upload(w) =>
      var output := s.workers[w].stage.output;
      (match output.artifact
       case None => Moved(s, w, Uploaded(output, None))
       case Some(name) =>
         var key := ObjectKey(s.workers[w].jobId, name);
         Moved(s.(objects := s.objects + {key}), w, Uploaded(output, Some(key))))
    case Finish(w, now) =>
      var id := s.workers[w].jobId;
      var stage := s.workers[w].stage;
      if s.jobs[id].status == Cancelled then Moved(s, w, Over)
      else Moved(s.(jobs := s.jobs[id := Succeeded(s.jobs[id], stage.key, Some(stage.output.summary), now)]), w, Over)
    case Crash(w) => Moved(s, w, Over)
  }

  predicate IsRun(s: System, events: seq<Event>)
    decreases |events|
  {
    events == [] || (Enabled(s, events[0]) && IsRun(Next(s, events[0]), events[1..]))
  }

  function After(s: System, events: seq<Event>): System
    requires IsRun(s, events)
    decreases |events|
  {
    if events == [] then s else After(Next(s, events[0]), events[1..])
  }

  const EMPTY: System := System(map[], map[], {})

  // ---------------------------------------------------------------- the invariant

  predicate Active(w: Worker) { !w.stage.Delivered? && !w.stage.Over? }

  predicate Final(st: Status) { st == Successful || st == Failed || st == Cancelled }

  /** The jobs some execution of which got past mark_running. */
  function PassedIds(workers: map<nat, Worker>): set<nat> {
    set w | w in workers && workers[w].passed :: workers[w].jobId
  }

  /** What a stored job says about itself. */
  predicate JobOk(j: Job, id: nat, objects: set<ObjectKey>, passed: bool) {
    && (j.finishedAt.Some? <==> Final(j.status))
    && (j.resultSummary.Some? <==> j.status == Successful)
    && (j.resultKey.Some? ==> j.status == Successful && j.resultKey.value in objects && j.resultKey.value.jobId == id)
    && (j.error.Some? <==> j.status == Failed) && (j.error.Some? ==> |j.error.value| <= MAX_ERROR)
    && (j.startedAt.Some? <==> passed)
    && (j.status == Pending ==> !passed)
    && (j.status == Running || j.status == Successful || j.status == Failed ==> passed)
  }

  /** What a worker's stage says about the job it is on. */
  predicate WorkerOk(k: Worker, jobs: Jobs, objects: set<ObjectKey>) {
    && k.jobId in jobs
    && (Active(k) ==> k.passed && (jobs[k.jobId].status == Running || jobs[k.jobId].status == Cancelled))
    && (k.stage.Delivered? ==> !k.passed)
    && (k.stage.Uploaded? && k.stage.key.Some? ==> k.stage.key.value in objects && k.stage.key.value.jobId == k.jobId)
  }

  ghost predicate OneOwner(workers: map<nat, Worker>) {
    forall v, w | v in workers && w in workers && workers[v].jobId == workers[w].jobId ::
      workers[v].passed && workers[w].passed ==> v == w
  }

  ghost predicate Inv(s: System) {
    && (forall id :: id in s.jobs ==> JobOk(s.jobs[id], id, s.objects, id in PassedIds(s.workers)))
    && (forall w :: w in s.workers ==> WorkerOk(s.workers[w], s.jobs, s.objects))
    && OneOwner(s.workers)
  }

  lemma MoveKeepsPassed(workers: map<nat, Worker>, w: nat, stage: Stage)
    requires w in workers
    ensures PassedIds(workers[w := workers[w].(stage := stage)]) == PassedIds(workers)
    ensures OneOwner(workers) ==> OneOwner(workers[w := workers[w].(stage := stage)])
  {
    var workers' := workers[w := workers[w].(stage := stage)];
    forall id | id in PassedIds(workers) ensures id in PassedIds(workers') {
      var v :| v in workers && workers[v].passed && workers[v].jobId == id;
      assert v in workers' && workers'[v].passed && workers'[v].jobId == id;
    }
  }

  /** A worker step that touches no job: only its own stage changes. */
  lemma MoveKeepsInv(s: System, w: nat, stage: Stage)
    requires Inv(s) && w in s.workers && !stage.Delivered?
    requires stage.Over? || Active(s.workers[w])
    requires stage.Uploaded? && stage.key.Some? ==>
               stage.key.value in s.objects && stage.key.value.jobId == s.workers[w].jobId
    ensures Inv(Moved(s, w, stage))
  {
    hide JobOk, OneOwner, PassedIds;
    MoveKeepsPassed(s.workers, w, stage);
    assert WorkerOk(s.workers[w], s.jobs, s.objects);
  }

  /** The one passed worker of a job writes it and ends: no other worker of the job is active. */
  lemma EndKeepsInv(s: System, w: nat, j: Job)
    requires Inv(s) && w in s.workers && Active(s.workers[w])
    requires JobOk(j, s.workers[w].jobId, s.objects, true)
    ensures Inv(Moved(System(s.jobs[s.workers[w].jobId := j], s.workers, s.objects), w, Over))
  {
    hide JobOk, PassedIds;
    var id := s.workers[w].jobId;
    var jobs := s.jobs[id := j];
    MoveKeepsPassed(s.workers, w, Over);
    OwnerPassed(s, w);
    forall v | v in s.workers ensures v != w ==> WorkerOk(s.workers[v], jobs, s.objects) {
      assert WorkerOk(s.workers[v], s.jobs, s.objects);
    }
  }

  lemma OwnerPassed(s: System, w: nat)
    requires Inv(s) && w in s.workers && Active(s.workers[w])
    ensures s.workers[w].passed && s.workers[w].jobId in PassedIds(s.workers) && s.workers[w].jobId in s.jobs
    ensures s.jobs[s.workers[w].jobId].status == Running || s.jobs[s.workers[w].jobId].status == Cancelled
  {
    assert WorkerOk(s.workers[w], s.jobs, s.objects);
  }

  lemma StartKeepsInv(s: System, w: nat, now: int)
    requires Inv(s) && At(s, w) && s.workers[w].stage == Delivered
    requires s.jobs[s.workers[w].jobId].status == Pending
    ensures Inv(Next(s, MarkRunning(w, now)))
  {
    var id := s.workers[w].jobId;
    var workers := s.workers[w := Worker(id, Owning, true)];
    assert JobOk(s.jobs[id], id, s.objects, id in PassedIds(s.workers));
    NoOwner(s, id);
    assert PassedIds(workers) == PassedIds(s.workers) + {id} by {
      forall i | i in PassedIds(s.workers) ensures i in PassedIds(workers) {
        var v :| v in s.workers && s.workers[v].passed && s.workers[v].jobId == i;
        assert v in workers && workers[v].passed && workers[v].jobId == i;
      }
      assert w in workers && workers[w].passed && workers[w].jobId == id;
    }
    hide PassedIds;
    forall v | v in workers ensures WorkerOk(workers[v], s.jobs[id := Started(s.jobs[id], now)], s.objects) {
      assert v != w ==> WorkerOk(s.workers[v], s.jobs, s.objects);
    }
  }

  lemma NoOwner(s: System, id: nat)
    requires Inv(s) && id in s.jobs && s.jobs[id].status == Pending
    ensures forall v :: v in s.workers && s.workers[v].jobId == id ==> !s.workers[v].passed && !Active(s.workers[v])
  {
    assert JobOk(s.jobs[id], id, s.objects, id in PassedIds(s.workers));
    forall v | v in s.workers && s.workers[v].jobId == id ensures !s.workers[v].passed && !Active(s.workers[v]) {
      assert WorkerOk(s.workers[v], s.jobs, s.objects);
    }
  }

  lemma CreateKeepsInv(s: System, id: nat, channelId: int, plugin: string)
    requires Inv(s) && id !in s.jobs
    ensures Inv(Next(s, Create(id, channelId, plugin)))
  {
    hide OneOwner;
    forall v | v in s.workers ensures s.workers[v].jobId != id {
      assert WorkerOk(s.workers[v], s.jobs, s.objects);
    }
    assert id !in PassedIds(s.workers);
  }

  lemma CancelKeepsInv(s: System, id: nat, now: int)
    requires Inv(s) && Enabled(s, Cancel(id, now))
    ensures Inv(Next(s, Cancel(id, now)))
  {
    hide OneOwner, PassedIds;
    assert JobOk(s.jobs[id], id, s.objects, id in PassedIds(s.workers));
    forall v | v in s.workers ensures WorkerOk(s.workers[v], Next(s, Cancel(id, now)).jobs, s.objects) {
      assert WorkerOk(s.workers[v], s.jobs, s.objects);
    }
  }

  lemma DeliverKeepsInv(s: System, w: nat, id: nat)
    requires Inv(s) && w !in s.workers && id in s.jobs
    ensures Inv(Next(s, Deliver(w, id)))
  {
    hide JobOk;
    var workers := s.workers[w := Worker(id, Delivered, false)];
    forall i | i in PassedIds(s.workers) ensures i in PassedIds(workers) {
      var v :| v in s.workers && s.workers[v].passed && s.workers[v].jobId == i;
      assert v in workers && workers[v].passed && workers[v].jobId == i;
    }
    assert PassedIds(workers) == PassedIds(s.workers);
  }

  lemma UploadKeepsInv(s: System, w: nat)
    requires Inv(s) && Enabled(s, Upload(w))
    ensures Inv(Next(s, Upload(w)))
  {
    hide OneOwner, PassedIds;
    var output := s.workers[w].stage.output;
    match output.artifact
    case None => MoveKeepsInv(s, w, Uploaded(output, None));
    case Some(name) =>
      var key := ObjectKey(s.workers[w].jobId, name);
      var s1 := s.(objects := s.objects + {key});
      forall i | i in s1.jobs ensures JobOk(s1.jobs[i], i, s1.objects, i in PassedIds(s1.workers)) {
        assert JobOk(s.jobs[i], i, s.objects, i in PassedIds(s.workers));
      }
      forall v | v in s1.workers ensures WorkerOk(s1.workers[v], s1.jobs, s1.objects) {
        assert WorkerOk(s.workers[v], s.jobs, s.objects);
      }
      MoveKeepsInv(s1, w, Uploaded(output, Some(key)));
  }

  lemma MarkFailedKeepsInv(s: System, w: nat, now: int)
    requires Inv(s) && Enabled(s, MarkFailed(w, now))
    ensures Inv(Next(s, MarkFailed(w, now)))
  {
    var id := s.workers[w].jobId;
    OwnerPassed(s, w);
    assert JobOk(s.jobs[id], id, s.objects, id in PassedIds(s.workers));
    EndKeepsInv(s, w, FailedWith(s.jobs[id], s.workers[w].stage.error, now));
  }

  lemma FinishKeepsInv(s: System, w: nat, now: int)
    requires Inv(s) && Enabled(s, Finish(w, now))
    ensures Inv(Next(s, Finish(w, now)))
  {
    hide OneOwner, PassedIds;
    var id := s.workers[w].jobId;
    var stage := s.workers[w].stage;
    OwnerPassed(s, w);
    if s.jobs[id].status == Cancelled {
      MoveKeepsInv(s, w, Over);
    } else {
      assert JobOk(s.jobs[id], id, s.objects, id in PassedIds(s.workers));
      assert WorkerOk(s.workers[w], s.jobs, s.objects);
      EndKeepsInv(s, w, Succeeded(s.jobs[id], stage.key, Some(stage.output.summary), now));
    }
  }

  lemma StepKeepsInv(s: System, e: Event)
    requires Inv(s) && Enabled(s, e)
    ensures Inv(Next(s, e))
  {
    hide Inv;
    match e
    case Create(id, channelId, plugin) => CreateKeepsInv(s, id, channelId, plugin);
    case Cancel(id, now) => CancelKeepsInv(s, id, now);
    case Deliver(w, id) => DeliverKeepsInv(s, w, id);
    case MarkRunning(w, now) =>
      if s.jobs[s.workers[w].jobId].status == Pending {
        StartKeepsInv(s, w, now);
      } else {
        MoveKeepsInv(s, w, Over);
      }
    case Decided(w, decision, error) =>
      MoveKeepsInv(s, w, match decision case Fail(_) => Failing(error) case Proceed(output) => Analysed(output));
    case MarkFailed(w, now) => MarkFailedKeepsInv(s, w, now);
    case FirstGuard(w) =>
      MoveKeepsInv(s, w, if s.jobs[s.workers[w].jobId].status == Cancelled then Over
                         else Cleared(s.workers[w].stage.output));
    case Upload(w) => UploadKeepsInv(s, w);
    case Finish(w, now) => FinishKeepsInv(s, w, now);
    case Crash(w) => MoveKeepsInv(s, w, Over);
  }

  /** In every reachable state: at most one execution of a job has got past mark_running; a stored summary or result
      key means success, and a result key names an object that has been uploaded; finished_at is set exactly in
      success, failed and cancelled; started_at exactly when an execution got past mark_running. */
  lemma {:induction false} RunKeepsInv(s: System, events: seq<Event>)
    requires Inv(s) && IsRun(s, events)
    ensures Inv(After(s, events))
    decreases |events|
  {
    hide Inv, Next, Enabled;
    if events != [] {
      StepKeepsInv(s, events[0]);
      RunKeepsInv(Next(s, events[0]), events[1..]);
    }
  }

  lemma EmptyInv()
    ensures Inv(EMPTY)
  {}

  /** The same, spelled out for the jobs of any run from the empty system. */
  lemma ReachableJobs(events: seq<Event>, id: nat)
    requires IsRun(EMPTY, events) && id in After(EMPTY, events).jobs
    ensures var s := After(EMPTY, events);
            var j := s.jobs[id];
            && (forall v, w | v in s.workers && w in s.workers && s.workers[v].jobId == s.workers[w].jobId == id ::
                  s.workers[v].passed && s.workers[w].passed ==> v == w)
            && (j.resultSummary.Some? ==> j.status == Successful)
            && (j.resultKey.Some? ==> j.status == Successful && j.resultKey.value in s.objects)
            && (j.finishedAt.Some? <==> j.status == Successful || j.status == Failed || j.status == Cancelled)
            && (j.startedAt.Some? <==> exists w :: w in s.workers && s.workers[w].jobId == id && s.workers[w].passed)
  {
    EmptyInv();
    RunKeepsInv(EMPTY, events);
    var s := After(EMPTY, events);
    assert JobOk(s.jobs[id], id, s.objects, id in PassedIds(s.workers));
  }

  // ---------------------------------------------------------------- which way a job can go

  /** The statuses a job of one status can have later. */
  predicate CanBecome(from: Status, to: Status) {
    match from
    case Pending => true
    case Running => to != Pending
    case Cancelled => to == Cancelled || to == Failed
    case Successful => to == Successful
    case Failed => to == Failed
  }

  /** The status changes that one step can make. */
  predicate Edge(from: Status, to: Status) {
    || (from == Pending && (to == Running || to == Cancelled))
    || (from == Running && (to == Successful || to == Failed || to == Cancelled))
    || (from == Cancelled && to == Failed)
  }

  lemma StepStatus(s: System, e: Event, id: nat)
    requires Inv(s) && Enabled(s, e) && id in s.jobs
    ensures id in Next(s, e).jobs
    ensures s.jobs[id].status == Next(s, e).jobs[id].status || Edge(s.jobs[id].status, Next(s, e).jobs[id].status)
    ensures s.objects <= Next(s, e).objects
  {
    if e.MarkFailed? || e.Finish? {
      OwnerPassed(s, e.w);
    }
    hide Inv;
  }

  lemma NoResult(s: System, id: nat)
    requires Inv(s) && id in s.jobs && s.jobs[id].status != Successful
    ensures s.jobs[id].resultKey.None? && s.jobs[id].resultSummary.None?
  {
    assert JobOk(s.jobs[id], id, s.objects, id in PassedIds(s.workers));
  }

  /** Over every run, jobs only move forward: success and failure are final, and a cancelled job can at most become
      failed. In particular a cancelled job never becomes a success, whatever workers, redeliveries and further
      cancellations do, and then it has no result. */
  lemma {:induction false} JobsMoveForward(s: System, events: seq<Event>, id: nat)
    requires Inv(s) && IsRun(s, events) && id in s.jobs
    ensures id in After(s, events).jobs
    ensures CanBecome(s.jobs[id].status, After(s, events).jobs[id].status)
    ensures s.jobs[id].status == Cancelled ==>
              After(s, events).jobs[id].resultKey.None? && After(s, events).jobs[id].resultSummary.None?
    ensures s.objects <= After(s, events).objects
    decreases |events|
  {
    hide Inv, Next, Enabled;
    RunKeepsInv(s, events);
    if events != [] {
      StepStatus(s, events[0], id);
      StepKeepsInv(s, events[0]);
      JobsMoveForward(Next(s, events[0]), events[1..], id);
    }
    if s.jobs[id].status == Cancelled {
      NoResult(After(s, events), id);
    }
  }

  /** An execution of the job that can still write failed. */
  ghost predicate MayStillFail(s: System, id: nat) {
    exists w :: w in s.workers && s.workers[w].jobId == id
             && (s.workers[w].stage.Owning? || s.workers[w].stage.Failing?)
  }

  lemma StepCannotFail(s: System, e: Event, id: nat)
    requires Inv(s) && Enabled(s, e) && id in s.jobs
    requires s.jobs[id].status == Cancelled && !MayStillFail(s, id)
    ensures id in Next(s, e).jobs && Next(s, e).jobs[id].status == Cancelled && !MayStillFail(Next(s, e), id)
  {
    StepStatus(s, e, id);
    if e.Finish? || e.MarkFailed? {
      OwnerPassed(s, e.w);
    }
    hide Inv;
    var s' := Next(s, e);
    forall w | w in s'.workers && s'.workers[w].jobId == id
      ensures !s'.workers[w].stage.Owning? && !s'.workers[w].stage.Failing? {
      if w !in s.workers {
        assert e == Deliver(w, id);
      }
    }
  }

  lemma {:induction false} StaysCancelled(s: System, events: seq<Event>, id: nat)
    requires Inv(s) && IsRun(s, events) && id in s.jobs
    requires s.jobs[id].status == Cancelled && !MayStillFail(s, id)
    ensures id in After(s, events).jobs && After(s, events).jobs[id].status == Cancelled
    decreases |events|
  {
    if events != [] {
      StepCannotFail(s, events[0], id);
      StepStatus(s, events[0], id);
      StepKeepsInv(s, events[0]);
      StaysCancelled(Next(s, events[0]), events[1..], id);
    }
  }

  lemma FailFrom(s: System, w: nat) returns (events: seq<Event>)
    requires Inv(s) && w in s.workers && (s.workers[w].stage.Owning? || s.workers[w].stage.Failing?)
    ensures IsRun(s, events) && s.workers[w].jobId in After(s, events).jobs
    ensures After(s, events).jobs[s.workers[w].jobId].status == Failed
    ensures forall i :: 0 <= i < |events| ==> !events[i].Cancel?
  {
    OwnerPassed(s, w);
    hide Inv;
    var fail := MarkFailed(w, 0);
    if s.workers[w].stage.Failing? {
      events := [fail];
      assert events[1..] == [];
      assert IsRun(Next(s, fail), []);
    } else {
      var decide := Decided(w, Fail(PluginNotFound), "");
      var s1 := Next(s, decide);
      events := [decide, fail];
      assert events[1..] == [fail] && [fail][1..] == [];
      assert IsRun(Next(s1, fail), []) && IsRun(s1, [fail]);
      assert After(s1, [fail]) == After(Next(s1, fail), []) == Next(s1, fail);
    }
  }

  /** mark_failed has no guard, so cancelled is not final. Exactly when it is: a cancelled job can still end up failed
      if and only if an execution of it is past mark_running and has not yet got through its analysis. */
  lemma CancelledIsFinalIff(s: System, id: nat)
    requires Inv(s) && id in s.jobs && s.jobs[id].status == Cancelled
    ensures (exists events ::
               IsRun(s, events) && id in After(s, events).jobs && After(s, events).jobs[id].status == Failed)
            <==> MayStillFail(s, id)
  {
    if MayStillFail(s, id) {
      var w :| w in s.workers && s.workers[w].jobId == id
            && (s.workers[w].stage.Owning? || s.workers[w].stage.Failing?);
      var events := FailFrom(s, w);
      assert IsRun(s, events) && id in After(s, events).jobs && After(s, events).jobs[id].status == Failed;
    } else {
      forall events | IsRun(s, events) && id in After(s, events).jobs && After(s, events).jobs[id].status == Failed
        ensures false {
        StaysCancelled(s, events, id);
      }
    }
  }

  /** What a caller of cancel can tell from the status it gets back: a job cancelled while pending stays cancelled. */
  lemma CancelledWhilePending(s: System, id: nat, now: int, events: seq<Event>)
    requires Inv(s) && id in s.jobs && s.jobs[id].status == Pending
    requires IsRun(Next(s, Cancel(id, now)), events)
    ensures id in After(Next(s, Cancel(id, now)), events).jobs
    ensures After(Next(s, Cancel(id, now)), events).jobs[id].status == Cancelled
  {
    var s' := Next(s, Cancel(id, now));
    StepKeepsInv(s, Cancel(id, now));
    NoOwner(s, id);
    assert !MayStillFail(s', id);
    StaysCancelled(s', events, id);
  }

  // ---------------------------------------------------------------- jobs that never end

  ghost predicate HasActive(s: System, id: nat) {
    exists w :: w in s.workers && s.workers[w].jobId == id && Active(s.workers[w])
  }

  predicate Uncancelled(events: seq<Event>, id: nat) {
    forall i :: 0 <= i < |events| ==> !(events[i].Cancel? && events[i].id == id)
  }

  lemma StepLeavesStuck(s: System, e: Event, id: nat)
    requires Inv(s) && Enabled(s, e) && id in s.jobs
    requires s.jobs[id].status == Running && !HasActive(s, id)
    requires !(e.Cancel? && e.id == id)
    ensures id in Next(s, e).jobs && Next(s, e).jobs[id].status == Running && !HasActive(Next(s, e), id)
  {
    if e.Finish? || e.MarkFailed? {
      OwnerPassed(s, e.w);
    }
    hide Inv;
    var s' := Next(s, e);
    forall w | w in s'.workers && s'.workers[w].jobId == id ensures !Active(s'.workers[w]) {
      if w !in s.workers {
        assert e == Deliver(w, id);
      }
    }
  }

  /** A job whose one owning execution has died is running for ever: no redelivery, retry or other worker changes
      that, only a cancellation does. */
  lemma {:induction false} StuckUntilCancelled(s: System, events: seq<Event>, id: nat)
    requires Inv(s) && IsRun(s, events) && id in s.jobs
    requires s.jobs[id].status == Running && !HasActive(s, id)
    requires Uncancelled(events, id)
    ensures id in After(s, events).jobs && After(s, events).jobs[id].status == Running
    decreases |events|
  {
    if events != [] {
      StepLeavesStuck(s, events[0], id);
      StepKeepsInv(s, events[0]);
      assert forall i :: 0 <= i < |events[1..]| ==> events[1..][i] == events[i + 1];
      StuckUntilCancelled(Next(s, events[0]), events[1..], id);
    }
  }

  /** What an execution that is left alone does next. */
  function OwnStep(w: nat, stage: Stage): Event {
    match stage
    case Analysed(_) => FirstGuard(w)
    case Cleared(_) => Upload(w)
    case _ => Finish(w, 0)
  }

  function StepsLeft(stage: Stage): nat {
    match stage
    case Analysed(_) => 3
    case Cleared(_) => 2
    case Uploaded(_, _) => 1
    case _ => 0
  }

  lemma OwnStepMoves(s: System, w: nat)
    requires Inv(s) && w in s.workers && Active(s.workers[w]) && StepsLeft(s.workers[w].stage) > 0
    requires s.workers[w].jobId in s.jobs && s.jobs[s.workers[w].jobId].status == Running
    ensures var e := OwnStep(w, s.workers[w].stage);
            && Enabled(s, e) && w in Next(s, e).workers && s.workers[w].jobId in Next(s, e).jobs
            && if s.workers[w].stage.Uploaded? then
                 Next(s, e).jobs[s.workers[w].jobId].status == Successful
               else
                 && Next(s, e).workers[w].jobId == s.workers[w].jobId && Active(Next(s, e).workers[w])
                 && StepsLeft(Next(s, e).workers[w].stage) < StepsLeft(s.workers[w].stage)
                 && Next(s, e).jobs[s.workers[w].jobId].status == Running
  {
    hide Inv;
  }

  /** An active execution of a running job, left alone, ends the job. */
  lemma {:induction false} EndFrom(s: System, w: nat) returns (events: seq<Event>)
    requires Inv(s) && w in s.workers && Active(s.workers[w])
    requires s.workers[w].jobId in s.jobs && s.jobs[s.workers[w].jobId].status == Running
    ensures IsRun(s, events) && s.workers[w].jobId in After(s, events).jobs
    ensures var status := After(s, events).jobs[s.workers[w].jobId].status; status == Successful || status == Failed
    ensures forall i :: 0 <= i < |events| ==> !events[i].Cancel?
    decreases StepsLeft(s.workers[w].stage)
  {
    var stage := s.workers[w].stage;
    if stage.Owning? || stage.Failing? {
      events := FailFrom(s, w);
    } else {
      var e := OwnStep(w, stage);
      OwnStepMoves(s, w);
      StepKeepsInv(s, e);
      hide Inv, Next, Enabled;
      if stage.Uploaded? {
        RunOf(Next(s, e), []);
        events := [];
      } else {
        events := EndFrom(Next(s, e), w);
      }
      RunOf(s, [e] + events);
      events := [e] + events;
    }
  }

  lemma RunOf(s: System, events: seq<Event>)
    ensures events == [] ==> IsRun(s, events) && After(s, events) == s
    ensures events != [] && Enabled(s, events[0]) && IsRun(Next(s, events[0]), events[1..]) ==>
              IsRun(s, events) && After(s, events) == After(Next(s, events[0]), events[1..])
  {}

  /** Exactly when a running job can still end without being cancelled: while its owning execution is alive. */
  lemma RunningCanEndIff(s: System, id: nat)
    requires Inv(s) && id in s.jobs && s.jobs[id].status == Running
    ensures (exists events :: Uncancelled(events, id) && IsRun(s, events)
                           && id in After(s, events).jobs && After(s, events).jobs[id].status != Running)
            <==> HasActive(s, id)
  {
    if HasActive(s, id) {
      var w :| w in s.workers && s.workers[w].jobId == id && Active(s.workers[w]);
      var events := EndFrom(s, w);
      assert Uncancelled(events, id);
    } else {
      forall events | Uncancelled(events, id) && IsRun(s, events)
        ensures id in After(s, events).jobs && After(s, events).jobs[id].status == Running {
        StuckUntilCancelled(s, events, id);
      }
    }
  }

  // ---------------------------------------------------------------- artifacts of cancelled jobs

  /** An execution of the key's job that is past the first guard and about to upload under this key. */
  ghost predicate AboutToUpload(s: System, key: ObjectKey) {
    exists w :: w in s.workers && s.workers[w].jobId == key.jobId
             && s.workers[w].stage.Cleared? && s.workers[w].stage.output.artifact == Some(key.name)
  }

  lemma NothingActive(s: System, id: nat)
    requires Inv(s) && id in s.jobs && s.jobs[id].status == Failed
    ensures !HasActive(s, id)
  {
    forall w | w in s.workers && s.workers[w].jobId == id ensures !Active(s.workers[w]) {
      assert WorkerOk(s.workers[w], s.jobs, s.objects);
    }
  }

  lemma ClearedSince(s: System, e: Event, w: nat)
    requires Enabled(s, e) && w in Next(s, e).workers && Next(s, e).workers[w].stage.Cleared?
    ensures w in s.workers && s.workers[w].jobId == Next(s, e).workers[w].jobId
    ensures || s.workers[w] == Next(s, e).workers[w]
            || (At(s, w) && s.workers[w].stage.Analysed? && s.jobs[s.workers[w].jobId].status != Cancelled)
  {}

  lemma StoredSince(s: System, e: Event, key: ObjectKey)
    requires Enabled(s, e) && key in Next(s, e).objects
    ensures key in s.objects || AboutToUpload(s, key)
  {}

  lemma StepStoresNothing(s: System, e: Event, key: ObjectKey)
    requires Inv(s) && Enabled(s, e) && key.jobId in s.jobs
    requires s.jobs[key.jobId].status == Cancelled || s.jobs[key.jobId].status == Failed
    requires key !in s.objects && !AboutToUpload(s, key)
    ensures key !in Next(s, e).objects && !AboutToUpload(Next(s, e), key)
  {
    if s.jobs[key.jobId].status == Failed {
      NothingActive(s, key.jobId);
    }
    hide Inv, Next, Enabled;
    var s' := Next(s, e);
    if key in s'.objects {
      StoredSince(s, e, key);
    }
    forall w | w in s'.workers && s'.workers[w].jobId == key.jobId && s'.workers[w].stage.Cleared?
      ensures s'.workers[w].stage.output.artifact != Some(key.name) {
      ClearedSince(s, e, w);
    }
  }

  lemma {:induction false} StoresNothing(s: System, events: seq<Event>, key: ObjectKey)
    requires Inv(s) && IsRun(s, events) && key.jobId in s.jobs
    requires s.jobs[key.jobId].status == Cancelled || s.jobs[key.jobId].status == Failed
    requires key !in s.objects && !AboutToUpload(s, key)
    ensures key !in After(s, events).objects
    decreases |events|
  {
    hide Inv, AboutToUpload;
    if events != [] {
      StepStoresNothing(s, events[0], key);
      StepStatus(s, events[0], key.jobId);
      StepKeepsInv(s, events[0]);
      StoresNothing(Next(s, events[0]), events[1..], key);
    }
  }

  /** The branch that notices a cancellation after the upload speaks of cleaning up, but nothing is ever removed.
      Exactly when a cancelled job leaves an artifact behind: when it is stored already, or an execution that passed
      the first guard before the cancellation is about to store it. */
  lemma OrphanIff(s: System, key: ObjectKey)
    requires Inv(s) && key.jobId in s.jobs && s.jobs[key.jobId].status == Cancelled
    ensures (exists events :: IsRun(s, events) && key in After(s, events).objects)
            <==> key in s.objects || AboutToUpload(s, key)
  {
    if key in s.objects {
      RunOf(s, []);
      assert IsRun(s, []) && key in After(s, []).objects;
    } else if AboutToUpload(s, key) {
      var w :| w in s.workers && s.workers[w].jobId == key.jobId
            && s.workers[w].stage.Cleared? && s.workers[w].stage.output.artifact == Some(key.name);
      RunOf(Next(s, Upload(w)), []);
      RunOf(s, [Upload(w)]);
      assert [Upload(w)][1..] == [];
      assert IsRun(s, [Upload(w)]) && key in After(s, [Upload(w)]).objects;
    } else {
      forall events | IsRun(s, events) ensures key !in After(s, events).objects {
        StoresNothing(s, events, key);
      }
    }
  }

  /** And what is stored stays: a job cancelled between upload and write-back has its artifact in the store in every
      later state, and no record of it. */
  lemma OrphanStays(s: System, w: nat, now: int, later: int, events: seq<Event>)
    requires Inv(s) && w in s.workers && s.workers[w].stage.Uploaded? && s.workers[w].stage.key.Some?
    requires s.workers[w].jobId in s.jobs && s.jobs[s.workers[w].jobId].status == Running
    requires IsRun(Next(Next(s, Cancel(s.workers[w].jobId, now)), Finish(w, later)), events)
    ensures var end := After(Next(Next(s, Cancel(s.workers[w].jobId, now)), Finish(w, later)), events);
            s.workers[w].stage.key.value in end.objects
            && s.workers[w].jobId in end.jobs && end.jobs[s.workers[w].jobId].resultKey.None?
  {
    var id := s.workers[w].jobId;
    var s1 := Next(s, Cancel(id, now));
    var s2 := Next(s1, Finish(w, later));
    assert WorkerOk(s.workers[w], s.jobs, s.objects);
    StepKeepsInv(s, Cancel(id, now));
    StepKeepsInv(s1, Finish(w, later));
    JobsMoveForward(s2, events, id);
  }

  // ---------------------------------------------------------------- what a job tells is what happened

  /** The key under which an execution's output is stored. */
  function KeyFor(id: nat, output: Output): Option<ObjectKey> {
    match output.artifact case None => None case Some(name) => Some(ObjectKey(id, name))
  }

  ghost predicate DecidedTo(past: seq<Event>, w: nat, output: Output) {
    exists error :: Decided(w, Proceed(output), error) in past
  }

  ghost predicate DecidedAgainst(past: seq<Event>, w: nat, error: string) {
    exists reason :: Decided(w, Fail(reason), error) in past
  }

  /** A success has the summary and the artifact key of an output that an execution of the job decided on, and was
      finished by that execution when it says. */
  ghost predicate TellsSuccess(past: seq<Event>, id: nat, j: Job) {
    exists w, output, now ::
      && Deliver(w, id) in past && DecidedTo(past, w, output) && Finish(w, now) in past
      && j.resultSummary == Some(output.summary) && j.resultKey == KeyFor(id, output) && j.finishedAt == Some(now)
  }

  /** A failure has the first 2000 characters of the error that an execution of the job decided on, and was written by
      that execution when it says. */
  ghost predicate TellsFailure(past: seq<Event>, id: nat, j: Job) {
    exists w, error, now ::
      && Deliver(w, id) in past && DecidedAgainst(past, w, error) && MarkFailed(w, now) in past
      && j.error == Some(if |error| <= 2000 then error else error[..2000]) && j.finishedAt == Some(now)
  }

  ghost predicate JobTold(past: seq<Event>, id: nat, j: Job) {
    && Create(id, j.channelId, j.plugin) in past
    && (j.startedAt.Some? ==> exists w :: Deliver(w, id) in past && MarkRunning(w, j.startedAt.value) in past)
    && (j.status == Successful ==> TellsSuccess(past, id, j))
    && (j.status == Failed ==> TellsFailure(past, id, j))
    && (j.status == Cancelled ==> j.finishedAt.Some? && Cancel(id, j.finishedAt.value) in past)
  }

  ghost predicate WorkerTold(past: seq<Event>, w: nat, k: Worker) {
    && Deliver(w, k.jobId) in past
    && match k.stage
       case Failing(error) => DecidedAgainst(past, w, error)
       case Analysed(output) => DecidedTo(past, w, output)
       case Cleared(output) => DecidedTo(past, w, output)
       case Uploaded(output, key) => DecidedTo(past, w, output) && key == KeyFor(k.jobId, output)
       case _ => true
  }

  ghost predicate Told(past: seq<Event>, s: System) {
    && (forall id :: id in s.jobs ==> JobTold(past, id, s.jobs[id]))
    && (forall w :: w in s.workers ==> WorkerTold(past, w, s.workers[w]))
  }

  lemma StillTold(past: seq<Event>, e: Event)
    ensures forall x :: x in past ==> x in past + [e]
    ensures e in past + [e]
    ensures forall w, output :: DecidedTo(past, w, output) ==> DecidedTo(past + [e], w, output)
    ensures forall w, error :: DecidedAgainst(past, w, error) ==> DecidedAgainst(past + [e], w, error)
    ensures forall id, j :: JobTold(past, id, j) ==> JobTold(past + [e], id, j)
    ensures forall w, k :: WorkerTold(past, w, k) ==> WorkerTold(past + [e], w, k)
  {
    forall w, output | DecidedTo(past, w, output) ensures DecidedTo(past + [e], w, output) {
      var error :| Decided(w, Proceed(output), error) in past;
      assert Decided(w, Proceed(output), error) in past + [e];
    }
    forall w, error | DecidedAgainst(past, w, error) ensures DecidedAgainst(past + [e], w, error) {
      var reason :| Decided(w, Fail(reason), error) in past;
      assert Decided(w, Fail(reason), error) in past + [e];
    }
    hide DecidedTo, DecidedAgainst;
    assert forall id, j :: TellsSuccess(past, id, j) ==> TellsSuccess(past + [e], id, j);
    assert forall id, j :: TellsFailure(past, id, j) ==> TellsFailure(past + [e], id, j);
  }

  lemma FinishTold(past: seq<Event>, s: System, w: nat, now: int)
    requires Told(past, s) && Enabled(s, Finish(w, now))
    ensures var id := s.workers[w].jobId;
            JobTold(past + [Finish(w, now)], id, Next(s, Finish(w, now)).jobs[id])
  {
    StillTold(past, Finish(w, now));
    assert WorkerTold(past, w, s.workers[w]);
    hide DecidedTo, DecidedAgainst;
    assert Deliver(w, s.workers[w].jobId) in past + [Finish(w, now)];
  }

  lemma MarkFailedTold(past: seq<Event>, s: System, w: nat, now: int)
    requires Told(past, s) && Enabled(s, MarkFailed(w, now))
    ensures var id := s.workers[w].jobId;
            JobTold(past + [MarkFailed(w, now)], id, Next(s, MarkFailed(w, now)).jobs[id])
  {
    StillTold(past, MarkFailed(w, now));
    assert WorkerTold(past, w, s.workers[w]);
    hide DecidedTo, DecidedAgainst;
    assert Deliver(w, s.workers[w].jobId) in past + [MarkFailed(w, now)];
  }

  lemma JobStepTold(past: seq<Event>, s: System, e: Event, id: nat)
    requires Told(past, s) && Enabled(s, e) && id in Next(s, e).jobs
    ensures JobTold(past + [e], id, Next(s, e).jobs[id])
  {
    StillTold(past, e);
    if e.Finish? {
      FinishTold(past, s, e.w, e.now);
    } else if e.MarkFailed? {
      MarkFailedTold(past, s, e.w, e.now);
    } else if e.MarkRunning? {
      assert WorkerTold(past, e.w, s.workers[e.w]);
      assert Deliver(e.w, s.workers[e.w].jobId) in past + [e];
    }
    hide TellsSuccess, TellsFailure, WorkerTold;
  }

  lemma WorkerStepTold(past: seq<Event>, s: System, e: Event, v: nat)
    requires Told(past, s) && Enabled(s, e) && v in Next(s, e).workers
    ensures WorkerTold(past + [e], v, Next(s, e).workers[v])
  {
    StillTold(past, e);
    if v in s.workers {
      assert WorkerTold(past, v, s.workers[v]);
    }
    match e
    case Decided(w, decision, error) =>
      assert Decided(w, decision, error) in past + [e];
      match decision {
        case Fail(reason) => assert DecidedAgainst(past + [e], w, error);
        case Proceed(output) => assert DecidedTo(past + [e], w, output);
      }
    case _ =>
      hide DecidedTo, DecidedAgainst;
  }

  lemma StepTold(past: seq<Event>, s: System, e: Event)
    requires Told(past, s) && Enabled(s, e)
    ensures Told(past + [e], Next(s, e))
  {
    hide JobTold, WorkerTold, Next, Enabled;
    forall id | id in Next(s, e).jobs ensures JobTold(past + [e], id, Next(s, e).jobs[id]) {
      JobStepTold(past, s, e, id);
    }
    forall w | w in Next(s, e).workers ensures WorkerTold(past + [e], w, Next(s, e).workers[w]) {
      WorkerStepTold(past, s, e, w);
    }
  }

  lemma {:induction false} RunTold(past: seq<Event>, s: System, events: seq<Event>)
    requires Told(past, s) && IsRun(s, events)
    ensures Told(past + events, After(s, events))
    decreases |events|
  {
    hide Told, Next, Enabled;
    if events == [] {
      assert past + [] == past;
    } else {
      StepTold(past, s, events[0]);
      RunTold(past + [events[0]], Next(s, events[0]), events[1..]);
      assert past + [events[0]] + events[1..] == past + events;
    }
  }

  lemma NothingToTell()
    ensures Told([], EMPTY)
  {}

  /** What a job says about itself is what happened to it, in every run from the empty system: it is for the channel and
      plugin it was created with; it started when an execution of it was marked running; a success has the result that
      an execution decided on and finished with, a failure the error, cut to 2000 characters, that one decided on and
      wrote; and it was cancelled when it says. */
  lemma JobsTellWhatHappened(events: seq<Event>, id: nat)
    requires IsRun(EMPTY, events) && id in After(EMPTY, events).jobs
    ensures JobTold(events, id, After(EMPTY, events).jobs[id])
  {
    NothingToTell();
    RunTold([], EMPTY, events);
    assert [] + events == events;
  }

  /** Delivering a job again once it is not pending comes to nothing: the execution is over at its first step. */
  lemma RedeliveryIsIgnored(s: System, w: nat, id: nat, now: int)
    requires w !in s.workers && id in s.jobs && s.jobs[id].status != Pending
    ensures var events := [Deliver(w, id), MarkRunning(w, now)];
            && IsRun(s, events) && After(s, events).jobs == s.jobs && After(s, events).objects == s.objects
            && After(s, events).workers == s.workers[w := Worker(id, Over, false)]
  {
    hide IsRun, After;
    var deliver, mark := Deliver(w, id), MarkRunning(w, now);
    var s1 := Next(s, deliver);
    RunOf(Next(s1, mark), []);
    RunOf(s1, [mark] + []);
    RunOf(s, [deliver] + ([mark] + []));
    assert [deliver] + ([mark] + []) == [deliver, mark];
  }

  // ---------------------------------------------------------------- runs that get there

  /** The state after a first job has been created, delivered and started. */
  function FirstStarted(channelId: int, plugin: string): System {
    System(map[0 := Started(NewJob(channelId, plugin), 0)], map[0 := Worker(0, Owning, true)], {})
  }

  function Starting(channelId: int, plugin: string): seq<Event> {
    [Create(0, channelId, plugin), Deliver(0, 0), MarkRunning(0, 0)]
  }

  lemma Starts(channelId: int, plugin: string, events: seq<Event>)
    requires IsRun(FirstStarted(channelId, plugin), events)
    ensures IsRun(EMPTY, Starting(channelId, plugin) + events)
    ensures After(EMPTY, Starting(channelId, plugin) + events) == After(FirstStarted(channelId, plugin), events)
  {
    var create, deliver, mark := Create(0, channelId, plugin), Deliver(0, 0), MarkRunning(0, 0);
    var s1 := Next(EMPTY, create);
    var s2 := Next(s1, deliver);
    assert Next(s2, mark) == FirstStarted(channelId, plugin);
    RunOf(s2, [mark] + events);
    RunOf(s1, [deliver] + ([mark] + events));
    RunOf(EMPTY, [create] + ([deliver] + ([mark] + events)));
    assert Starting(channelId, plugin) + events == [create] + ([deliver] + ([mark] + events));
  }

  /** A run from the empty system in which a cancelled job becomes failed: the worker's analysis goes wrong after the
      cancellation. */
  lemma CancelledJobCanFail(channelId: int, plugin: string)
    ensures var cancelled := Starting(channelId, plugin) + [Cancel(0, 1)];
            var events := cancelled + [Decided(0, Fail(PluginNotFound), ""), MarkFailed(0, 2)];
            && IsRun(EMPTY, cancelled) && 0 in After(EMPTY, cancelled).jobs
            && After(EMPTY, cancelled).jobs[0].status == Cancelled
            && IsRun(EMPTY, events) && 0 in After(EMPTY, events).jobs
            && After(EMPTY, events).jobs[0].status == Failed
  {
    hide IsRun, After;
    var cancel, decided, mark := Cancel(0, 1), Decided(0, Fail(PluginNotFound), ""), MarkFailed(0, 2);
    var s3 := FirstStarted(channelId, plugin);
    var s4 := Next(s3, cancel);
    var s5 := Next(s4, decided);
    var s6 := Next(s5, mark);
    RunOf(s4, []);
    RunOf(s3, [cancel] + []);
    Starts(channelId, plugin, [cancel] + []);
    assert [cancel] + [] == [cancel];
    RunOf(s6, []);
    RunOf(s5, [mark] + []);
    RunOf(s4, [decided] + ([mark] + []));
    RunOf(s3, [cancel] + ([decided] + ([mark] + [])));
    Starts(channelId, plugin, [cancel] + ([decided] + ([mark] + [])));
    assert Starting(channelId, plugin) + ([cancel] + ([decided] + ([mark] + [])))
        == Starting(channelId, plugin) + [cancel] + [decided, mark];
  }

  /** A run in which the worker of a running job dies, so that only a cancellation can end the job. */
  lemma CrashedJobIsStuck(channelId: int, plugin: string)
    ensures var events := Starting(channelId, plugin) + [Crash(0)];
            && IsRun(EMPTY, events) && 0 in After(EMPTY, events).jobs
            && After(EMPTY, events).jobs[0].status == Running && !HasActive(After(EMPTY, events), 0)
  {
    var s3 := FirstStarted(channelId, plugin);
    RunOf(Next(s3, Crash(0)), []);
    RunOf(s3, [Crash(0)] + []);
    Starts(channelId, plugin, [Crash(0)] + []);
    assert [Crash(0)] + [] == [Crash(0)];
  }

  function FirstUploaded(channelId: int, plugin: string, output: Output, key: ObjectKey): System {
    var worker := Worker(0, Uploaded(output, Some(key)), true);
    System(map[0 := Started(NewJob(channelId, plugin), 0)], map[0 := worker], {key})
  }

  lemma Uploads(channelId: int, plugin: string, name: string, summary: Summary, events: seq<Event>)
    requires IsRun(FirstUploaded(channelId, plugin, Output(Some(name), summary), ObjectKey(0, name)), events)
    ensures var uploading := [Decided(0, Proceed(Output(Some(name), summary)), ""), FirstGuard(0), Upload(0)];
            && IsRun(FirstStarted(channelId, plugin), uploading + events)
            && After(FirstStarted(channelId, plugin), uploading + events)
            == After(FirstUploaded(channelId, plugin, Output(Some(name), summary), ObjectKey(0, name)), events)
  {
    hide IsRun, After;
    var decided, guard, upload := Decided(0, Proceed(Output(Some(name), summary)), ""), FirstGuard(0), Upload(0);
    var s3 := FirstStarted(channelId, plugin);
    var s4 := Next(s3, decided);
    var s5 := Next(s4, guard);
    assert Next(s5, upload) == FirstUploaded(channelId, plugin, Output(Some(name), summary), ObjectKey(0, name));
    RunOf(s5, [upload] + events);
    RunOf(s4, [guard] + ([upload] + events));
    RunOf(s3, [decided] + ([guard] + ([upload] + events)));
    assert [decided] + ([guard] + ([upload] + events)) == [decided, guard, upload] + events;
  }

  /** A run in which a job is cancelled after its upload: it ends cancelled and without a result, and its artifact is
      in the store. */
  lemma CancelledJobLeavesArtifact(channelId: int, plugin: string, name: string, summary: Summary)
    ensures var uploading := [Decided(0, Proceed(Output(Some(name), summary)), ""), FirstGuard(0), Upload(0)];
            var events := Starting(channelId, plugin) + (uploading + [Cancel(0, 1), Finish(0, 2)]);
            && IsRun(EMPTY, events) && 0 in After(EMPTY, events).jobs
            && After(EMPTY, events).jobs[0].status == Cancelled
            && After(EMPTY, events).jobs[0].resultKey.None?
            && ObjectKey(0, name) in After(EMPTY, events).objects
  {
    hide IsRun, After;
    var uploading := [Decided(0, Proceed(Output(Some(name), summary)), ""), FirstGuard(0), Upload(0)];
    var cancel, finish := Cancel(0, 1), Finish(0, 2);
    var s6 := FirstUploaded(channelId, plugin, Output(Some(name), summary), ObjectKey(0, name));
    var s7 := Next(s6, cancel);
    var s8 := Next(s7, finish);
    RunOf(s8, []);
    RunOf(s7, [finish] + []);
    RunOf(s6, [cancel] + ([finish] + []));
    assert [cancel] + ([finish] + []) == [cancel, finish];
    Uploads(channelId, plugin, name, summary, [cancel, finish]);
    Starts(channelId, plugin, uploading + [cancel, finish]);
  }
}
