/** How jobs end, told from the events alone: an observer that keeps what happened to every job created in the run, next
    to the job manager, and exact theorems about recorded jobs, the history and cancel requests in its terms. */
module JobHistory {
  import opened Common
  import opened JobManager
  import P = JobProtocol

  /** What happened to a job so far. */
  datatype Trace = Trace(id: string, kind: string, cancelled: bool, started: Option<nat>, reaped: Option<WaitStatus>,
                         finished: bool)

  /** `created` lists all jobs, loaded or created, newest first. */
  datatype Observed = Observed(system: P.System, traces: map<Ref, Trace>, created: seq<Ref>)

  /** Kinds of jobs that must run to their end. */
  predicate Unstoppable(kind: string) {
    kind in {"policy.runtime_switch", "policy.model_activate"}
  }

  /** The request names the job in the slot, and that job may be stopped. */
  predicate Cancels(o: Observed, id: string) {
    var active := o.system.store.active;
    active.Some? && active.value in o.traces && o.traces[active.value].id == id &&
    !Unstoppable(o.traces[active.value].kind)
  }

  /** What the event, which is enabled, adds to the traces. */
  function Note(o: Observed, e: P.Event): (traces: map<Ref, Trace>)
    requires P.Enabled(o.system, e)
  {
    var y, ts := o.system, o.traces;
    match e
    case CreateSpawns(_) => ts[y.nextRef := Trace(y.holder.id, y.holder.kind, false, None, None, false)]
    case CancelArrives(id) =>
      if Cancels(o, id) then
        var r := y.store.active.value;
        ts[r := ts[r].(cancelled := true)]
      else ts
    case ShutdownArrives =>
      if y.store.active.Some? && y.store.active.value in ts then
        var r := y.store.active.value;
        ts[r := ts[r].(cancelled := ts[r].cancelled || (ts[r].started.Some? && ts[r].started.value > 0))]
      else ts
    case WorkerStarts =>
      if y.worker.ref in ts then ts[y.worker.ref := ts[y.worker.ref].(started := Some(y.worker.stage.pid))] else ts
    case WorkerReaps(status) =>
      if y.worker.ref in ts then ts[y.worker.ref := ts[y.worker.ref].(reaped := Some(status))] else ts
    case WorkerReports => if y.worker.ref in ts then ts[y.worker.ref := ts[y.worker.ref].(finished := true)] else ts
    case WorkerFinishes => if y.worker.ref in ts then ts[y.worker.ref := ts[y.worker.ref].(finished := true)] else ts
    case _ => ts
  }

  function Step(o: Observed, e: P.Event): (o': Observed) {
    if !P.Enabled(o.system, e) then o else
    Observed(P.Next(o.system, e), Note(o, e),
             if e.CreateSpawns? then [o.system.nextRef] + o.created else o.created)
  }

  ghost predicate MovesAt(os: seq<Observed>, k: nat)
    requires k < |os| - 1
  {
    exists e :: os[k + 1] == Step(os[k], e)
  }

  /** The states of one observed run, from a loaded history. */
  ghost predicate Behavior(os: seq<Observed>) {
    && |os| > 0 && P.Initial(os[0].system) && os[0].traces == map[] && os[0].created == os[0].system.store.jobs
    && (forall k: nat :: k < |os| - 1 ==> MovesAt(os, k))
  }

  /** An observed run is a run of the job manager. */
  lemma ObservedRuns(os: seq<Observed>, ys: seq<P.System>)
    requires Behavior(os) && |ys| == |os| && forall k :: 0 <= k < |os| ==> ys[k] == os[k].system
    ensures P.Behavior(ys)
  {
    forall k: nat | k < |ys| - 1
      ensures P.MovesAt(ys, k)
    {
      assert MovesAt(os, k);
      var e :| os[k + 1] == Step(os[k], e);
      assert ys[k + 1] == P.Next(ys[k], e);
    }
  }

  lemma ObservedFurther(os: seq<Observed>, e: P.Event)
    requires Behavior(os)
    ensures Behavior(os + [Step(os[|os| - 1], e)])
  {
    var all := os + [Step(os[|os| - 1], e)];
    forall k: nat | k < |all| - 1
      ensures MovesAt(all, k)
    {
      if k < |os| - 1 {
        assert MovesAt(os, k);
        var f :| os[k + 1] == Step(os[k], f);
        assert all[k + 1] == Step(all[k], f);
      } else {
        assert all[k + 1] == Step(all[k], e);
      }
    }
  }

  lemma PrefixRuns(ys: seq<P.System>, n: nat)
    requires P.Behavior(ys) && 1 <= n <= |ys|
    ensures P.Behavior(ys[..n])
  {
    forall k: nat | k < n - 1
      ensures P.MovesAt(ys[..n], k)
    {
      assert P.MovesAt(ys, k);
    }
  }

  /** Every run of the job manager can be observed. */
  lemma {:induction false} EveryRunObserved(ys: seq<P.System>) returns (os: seq<Observed>)
    requires P.Behavior(ys)
    ensures Behavior(os) && |os| == |ys| && forall k :: 0 <= k < |ys| ==> os[k].system == ys[k]
    decreases |ys|
  {
    var n := |ys| - 1;
    if n == 0 {
      os := [Observed(ys[0], map[], ys[0].store.jobs)];
    } else {
      PrefixRuns(ys, n);
      var before := EveryRunObserved(ys[..n]);
      assert P.MovesAt(ys, n - 1);
      var e :| ys[n] == P.Next(ys[n - 1], e);
      ObservedFurther(before, e);
      os := before + [Step(before[n - 1], e)];
    }
  }

  // ----- how a job should be recorded

  predicate Succeeded(t: Trace) {
    t.finished && t.started.Some? && t.reaped == Some(Exited(0)) && !t.cancelled
  }

  predicate Cancelled(t: Trace) {
    t.finished && t.started.Some? && t.cancelled
  }

  /** The code of a finished job: the exited code, 128 plus the signal, 127 when fork or wait failed. */
  predicate CodeFits(t: Trace, code: int) {
    if t.reaped.None? then code == 127
    else
      match t.reaped.value
      case Exited(exited) => code == exited
      case Signalled(signal) => code == 128 + signal
      case WaitError => code == 127
  }

  /** The record agrees with what happened. */
  predicate Records(job: Job, t: Trace) {
    && job.id == t.id && job.kind == t.kind
    && (job.cancelRequested <==> t.cancelled) && (job.reason != "" <==> t.cancelled)
    && (job.state == "queued" <==> !t.finished && t.started.None?)
    && (job.state == "running" <==> !t.finished && t.started.Some?)
    && (job.state == "succeeded" <==> Succeeded(t))
    && (job.state == "cancelled" <==> Cancelled(t))
    && (job.state == "failed" <==> t.finished && !Succeeded(t) && !Cancelled(t))
    && (if t.finished then CodeFits(t, job.exitCode) else job.exitCode == -1)
    && job.pid == (if !t.finished && t.started.Some? then t.started.value else -1)
  }

  ghost predicate WorkerTraced(o: Observed) {
    match o.system.worker
    case NoWorker => true
    case Worker(r, stage) =>
      r in o.traces && var t := o.traces[r];
      match stage
      case Waiting => !t.finished && t.started.Some? && t.reaped.None?
      case Finishing(status) => !t.finished && t.started.Some? && t.reaped == Some(status)
      case Leaving => t.finished
      case Gone => t.finished
      case _ => !t.finished && t.started.None? && t.reaped.None?
  }

  ghost predicate TraceInv(o: Observed) {
    && (forall r :: r in o.traces ==> r in o.system.store.table && Records(o.system.store.table[r], o.traces[r]))
    && WorkerTraced(o)
    && (o.system.store.active.Some? ==>
          o.system.store.active.value in o.traces && !o.traces[o.system.store.active.value].finished)
  }

  function Newest(created: seq<Ref>): (jobs: seq<Ref>) {
    if |created| > 50 then created[..50] else created
  }

  ghost predicate Inv(o: Observed) {
    P.SystemInv(o.system) && TraceInv(o) && o.system.store.jobs == Newest(o.created)
  }

  /** Everything but job `r`, on which the worker is, stays as it was. */
  ghost predicate OnlyOne(o: Observed, o': Observed, r: Ref) {
    && r in o.traces && o'.traces.Keys == o.traces.Keys
    && o'.system.store.table.Keys == o.system.store.table.Keys
    && (forall x :: x in o.traces && x != r ==>
          o'.traces[x] == o.traces[x] && x in o.system.store.table && x in o'.system.store.table &&
          o'.system.store.table[x] == o.system.store.table[x])
  }

  lemma OthersRecorded(o: Observed, o': Observed, r: Ref)
    requires TraceInv(o) && OnlyOne(o, o', r)
    requires r in o'.system.store.table && Records(o'.system.store.table[r], o'.traces[r])
    ensures forall x :: x in o'.traces ==>
              x in o'.system.store.table && Records(o'.system.store.table[x], o'.traces[x])
  {
  }

  predicate IsWorkers(e: P.Event) {
    e.WorkerForks? || e.WorkerReaps? || e.WorkerExits? || e.WorkerStarts? || e.WorkerReports? || e.WorkerFinishes?
  }

  /** The step leaves every other job alone and records the worker's as it should be. */
  ghost predicate WorkerStepFits(o: Observed, e: P.Event)
    requires o.system.worker.Worker?
  {
    var o', r := Step(o, e), o.system.worker.ref;
    && OnlyOne(o, o', r) && r in o'.system.store.table && Records(o'.system.store.table[r], o'.traces[r])
    && WorkerTraced(o')
  }

  lemma LockFreeStepFits(o: Observed, e: P.Event)
    requires TraceInv(o) && P.WorkerInv(o.system) && P.Enabled(o.system, e)
    requires e.WorkerForks? || e.WorkerReaps? || e.WorkerExits?
    ensures WorkerStepFits(o, e)
  {
  }

  lemma StartFits(o: Observed)
    requires TraceInv(o) && P.WorkerInv(o.system) && P.Enabled(o.system, P.WorkerStarts)
    ensures WorkerStepFits(o, P.WorkerStarts)
  {
  }

  lemma ReportFits(o: Observed)
    requires TraceInv(o) && P.WorkerInv(o.system) && P.Enabled(o.system, P.WorkerReports)
    ensures WorkerStepFits(o, P.WorkerReports)
  {
  }

  lemma FinishFits(o: Observed)
    requires TraceInv(o) && P.WorkerInv(o.system) && P.Enabled(o.system, P.WorkerFinishes)
    ensures WorkerStepFits(o, P.WorkerFinishes)
  {
  }

  lemma WorkerKeeps(o: Observed, e: P.Event)
    requires Inv(o) && P.Enabled(o.system, e) && IsWorkers(e)
    ensures TraceInv(Step(o, e))
  {
    var o' := Step(o, e);
    match e {
      case WorkerStarts => StartFits(o);
      case WorkerReports => ReportFits(o);
      case WorkerFinishes => FinishFits(o);
      case _ => LockFreeStepFits(o, e);
    }
    OthersRecorded(o, o', o.system.worker.ref);
    P.StepKeepsInv(o.system, e);
  }

  /** The first job with the active job's id is the active job. */
  lemma ActiveFound(s: Store, id: string)
    requires SlotInv(s) && s.active.Some? && s.table[s.active.value].id == id
    ensures Find(s, id, 0) == s.active
  {
    assert s.jobs[0] in s.jobs;
  }

  lemma ReplyExact(o: Observed, id: string)
    requires Inv(o)
    ensures var reply, s := CancelReplyFor(o.system.store, id), o.system.store;
            && (reply.NotFound? <==> forall r :: r in s.jobs ==> s.table[r].id != id)
            && (reply.Cancelling? <==> Cancels(o, id))
            && (reply.NotCancellable? <==>
                  s.active.Some? && o.traces[s.active.value].id == id && Unstoppable(o.traces[s.active.value].kind))
  {
    var s := o.system.store;
    if s.active.Some? && s.table[s.active.value].id == id {
      ActiveFound(s, id);
      assert s.jobs[0] in s.jobs;
    }
  }

  lemma CancelKeeps(o: Observed, id: string)
    requires Inv(o) && P.Enabled(o.system, P.CancelArrives(id))
    ensures TraceInv(Step(o, P.CancelArrives(id)))
  {
    ReplyExact(o, id);
    if Cancels(o, id) {
      ActiveFound(o.system.store, id);
    }
  }

  lemma ShutdownKeeps(o: Observed)
    requires Inv(o) && P.Enabled(o.system, P.ShutdownArrives)
    ensures TraceInv(Step(o, P.ShutdownArrives))
  {
  }

  lemma CreateKeeps(o: Observed, e: P.Event)
    requires Inv(o) && P.Enabled(o.system, e)
    requires e.CreateEnters? || e.CreateJoins? || e.CreateFails? || e.CreateSpawns?
    ensures TraceInv(Step(o, e))
  {
  }

  lemma HistoryStep(o: Observed, e: P.Event)
    requires Inv(o)
    ensures Step(o, e).system.store.jobs == Newest(Step(o, e).created)
  {
    if e.CreateSpawns? && P.Enabled(o.system, e) {
      var all := [o.system.nextRef] + o.created;
      if |o.created| >= 50 {
        assert ([o.system.nextRef] + Newest(o.created))[..50] == all[..50];
      }
    }
  }

  lemma InvStep(o: Observed, e: P.Event)
    requires Inv(o)
    ensures Inv(Step(o, e))
  {
    P.StepKeepsInv(o.system, e);
    HistoryStep(o, e);
    if P.Enabled(o.system, e) {
      match e
      case CancelArrives(id) => CancelKeeps(o, id);
      case ShutdownArrives => ShutdownKeeps(o);
      case CreateEnters(_, _) => CreateKeeps(o, e);
      case CreateJoins => CreateKeeps(o, e);
      case CreateFails => CreateKeeps(o, e);
      case CreateSpawns(_) => CreateKeeps(o, e);
      case _ => WorkerKeeps(o, e);
    }
  }

  lemma {:induction false} InvHolds(os: seq<Observed>, k: nat)
    requires Behavior(os) && k < |os|
    ensures Inv(os[k])
  {
    if k > 0 {
      InvHolds(os, k - 1);
      assert MovesAt(os, k - 1);
      var e :| os[k] == Step(os[k - 1], e);
      InvStep(os[k - 1], e);
    }
  }

  /** Every job created in the run is recorded exactly as it went: succeeded if and only if it was started, exited with
      0 and was not cancelled before; cancelled if and only if it was started and cancelled before its end; failed if
      and only if it ended otherwise; with its exit code. */
  lemma JobsEndExactly(os: seq<Observed>, k: nat, r: Ref)
    requires Behavior(os) && k < |os| && r in os[k].traces
    ensures r in os[k].system.store.table && Records(os[k].system.store.table[r], os[k].traces[r])
  {
    InvHolds(os, k);
  }

  /** The history is the fifty newest jobs, newest first. */
  lemma HistoryIsNewest(os: seq<Observed>, k: nat)
    requires Behavior(os) && k < |os|
    ensures var jobs, created := os[k].system.store.jobs, os[k].created;
            jobs <= created && |jobs| == (if |created| > 50 then 50 else |created|)
  {
    InvHolds(os, k);
  }

  /** The reply to a cancel request: not found when no job kept has the id; accepted exactly for the job in the slot
      unless its kind must run to its end, which has its own reply; not running for any other job. */
  lemma CancelRepliesExactly(os: seq<Observed>, k: nat, id: string)
    requires Behavior(os) && k < |os|
    ensures var o := os[k];
            var reply, s := CancelReplyFor(o.system.store, id), o.system.store;
            && (reply.NotFound? <==> forall r :: r in s.jobs ==> s.table[r].id != id)
            && (reply.Cancelling? <==> Cancels(o, id))
            && (reply.NotCancellable? <==>
                  s.active.Some? && s.active.value in o.traces && o.traces[s.active.value].id == id &&
                  Unstoppable(o.traces[s.active.value].kind))
  {
    InvHolds(os, k);
    ReplyExact(os[k], id);
  }
}
